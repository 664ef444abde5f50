/**
 * The plain-text export of a cold email and the name of the downloaded file, written the same
 * way by the dashboard (components/Dashboard/DashboardPage.jsx) and by the email dialog
 * (components/Dashboard/EmailDialog.jsx).
 */
module EmailExport {
  import opened Text

  const FILE_SUFFIX := "-cold-email.txt"
  const SUBJECT_PREFIX := "Subject: "

  /** `company.toLowerCase().replace(/\s+/g, "-")` */
  function CompanySlug(company: string): string {
    DashSpaceRuns(ToLowerAscii(company))
  }

  /** The download file name: the company slug followed by `-cold-email.txt`. */
  function DownloadFileName(company: string): (r: string)
    ensures |r| == |CompanySlug(company)| + |FILE_SUFFIX|
    ensures r[|CompanySlug(company)|..] == FILE_SUFFIX
  {
    CompanySlug(company) + FILE_SUFFIX
  }

  /** The plain-text export, given the content with its markup already stripped. */
  function PlainText(subject: string, strippedContent: string): string {
    SUBJECT_PREFIX + subject + "\n\n" + strippedContent
  }

  // ---------------------------------------------------------------------------------
  // Proofs

  /**
   * The part before the suffix holds no whitespace and no upper-case ASCII letter, and a
   * company name without whitespace only loses its capitals.
   */
  lemma SlugShape(company: string)
    ensures NoSpace(CompanySlug(company))
    ensures forall i :: 0 <= i < |CompanySlug(company)| ==> !('A' <= CompanySlug(company)[i] <= 'Z')
    ensures NoSpace(company) ==> CompanySlug(company) == ToLowerAscii(company)
  {
    var lower := ToLowerAscii(company);
    DashSpaceRunsClean(lower);
    DashSpaceRunsChars(lower);
    var slug := CompanySlug(company);
    forall i | 0 <= i < |slug| ensures !('A' <= slug[i] <= 'Z') {
      assert slug[i] in slug;
      if slug[i] != '-' {
        assert slug[i] in lower;
        var j :| 0 <= j < |lower| && lower[j] == slug[i];
      }
    }
    if NoSpace(company) {
      assert NoSpace(lower);
      DashSpaceRunsNoSpace(lower);
    }
  }

  /** Two words separated by any run of whitespace are joined by exactly one dash. */
  lemma SlugOfTwoWords(first: string, gap: string, second: string)
    requires first != [] && second != [] && NoSpace(first) && NoSpace(second)
    requires gap != [] && AllSpace(gap)
    ensures CompanySlug(first + gap + second) == ToLowerAscii(first) + "-" + ToLowerAscii(second)
  {
    var lf, lg, ls := ToLowerAscii(first), ToLowerAscii(gap), ToLowerAscii(second);
    assert ToLowerAscii(first + gap + second) == lf + lg + ls;
    assert AllSpace(lg) && NoSpace(lf) && NoSpace(ls);
    DashSpaceRunsSplit(lf, lg, ls);
    DashSpaceRunsNoSpace(lf);
    DashSpaceRunsNoSpace(ls);
  }

  /** Exports of the same content are equal only for equal subjects. */
  lemma PlainTextSubjectInjective(s1: string, s2: string, strippedContent: string)
    ensures PlainText(s1, strippedContent) == PlainText(s2, strippedContent) <==> s1 == s2
  {
    if PlainText(s1, strippedContent) == PlainText(s2, strippedContent) {
      var t := PlainText(s1, strippedContent);
      assert |s1| == |s2|;
      assert t[|SUBJECT_PREFIX|..|SUBJECT_PREFIX| + |s1|] == s1;
      assert PlainText(s2, strippedContent)[|SUBJECT_PREFIX|..|SUBJECT_PREFIX| + |s2|] == s2;
    }
  }

  /**
   * The export starts with the subject line and a blank line, and when the subject holds no
   * line feed both the subject and the content can be read back from it.
   */
  lemma PlainTextParts(subject: string, strippedContent: string)
    requires '\n' !in subject
    ensures var t := PlainText(subject, strippedContent);
            SplitOn(t, '\n') == [SUBJECT_PREFIX + subject, ""] + SplitOn(strippedContent, '\n')
            && t[|SUBJECT_PREFIX + subject| + 2..] == strippedContent
  {
    var head := SUBJECT_PREFIX + subject;
    var t := PlainText(subject, strippedContent);
    assert '\n' !in head;
    assert t == head + ("\n\n" + strippedContent);
    SplitOnPrefix(head, "\n\n" + strippedContent, '\n');
    assert ("\n\n" + strippedContent)[1..] == "\n" + strippedContent;
    assert ("\n" + strippedContent)[1..] == strippedContent;
    assert SplitOn("\n\n" + strippedContent, '\n') == [""] + ([""] + SplitOn(strippedContent, '\n'));
    assert head + "" == head;
  }
}
