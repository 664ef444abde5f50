/**
 * The onboarding form (components/Onboarding/Onboarding.jsx): the GitHub and portfolio URL
 * validators, form validation, the two change handlers, and the check that decides whether a
 * draft saved in the browser is offered for restoring.
 */
module Onboarding {
  import opened Wrappers
  import opened Text
  import opened Seqs
  import FileUpload

  const HTTP := "http://"
  const HTTPS := "https://"
  const GITHUB_HOST := "github.com/"
  const WWW := "www."

  const GITHUB_ERROR := "Please enter a valid GitHub URL"
  const PORTFOLIO_ERROR := "Please enter a valid portfolio URL"
  const RESUME_ERROR := "Resume is required"

  // ---------------------------------------------------------------------------------
  // URL validators

  /** `[a-zA-Z0-9_-]` */
  predicate IsUserChar(c: char) {
    'a' <= c <= 'z' || 'A' <= c <= 'Z' || '0' <= c <= '9' || c == '_' || c == '-'
  }

  predicate AllUserChars(s: string) {
    forall i :: 0 <= i < |s| ==> IsUserChar(s[i])
  }

  /** `[a-zA-Z0-9]` */
  predicate IsAsciiAlnum(c: char) {
    'a' <= c <= 'z' || 'A' <= c <= 'Z' || '0' <= c <= '9'
  }

  /** The characters a regular expression's `.` does not match. */
  predicate IsLineTerminator(c: char) {
    c == '\n' || c == '\r' || c == '\U{2028}' || c == '\U{2029}'
  }

  /** `^https?:\/\/`: what follows the scheme, or None. */
  function AfterScheme(s: string): Option<string> {
    if StartsWith(s, HTTPS) then Some(s[|HTTPS|..])
    else if StartsWith(s, HTTP) then Some(s[|HTTP|..])
    else None
  }

  /** `(www\.)?github\.com\/`: what follows the host, or None. */
  function AfterGithubHost(s: string): Option<string> {
    if StartsWith(s, WWW + GITHUB_HOST) then Some(s[|WWW + GITHUB_HOST|..])
    else if StartsWith(s, GITHUB_HOST) then Some(s[|GITHUB_HOST|..])
    else None
  }

  /** `[a-zA-Z0-9_-]+\/?$` */
  predicate IsUserPath(p: string) {
    p != [] && (AllUserChars(p) || (|p| >= 2 && p[|p| - 1] == '/' && AllUserChars(p[..|p| - 1])))
  }

  /**
   * `/^https?:\/\/(www\.)?github\.com\/[a-zA-Z0-9_-]+\/?$/.test(s)`. The expression is
   * deterministic: the scheme, then the host, then the user path, each decided by its first
   * characters.
   */
  predicate GithubUrlMatches(s: string) {
    var a := AfterScheme(s);
    a.Some? && AfterGithubHost(a.value).Some? && IsUserPath(AfterGithubHost(a.value).value)
  }

  /** `validateGithubUrl`: the empty string passes. */
  predicate ValidGithubUrl(url: string) {
    url == "" || GithubUrlMatches(url)
  }

  /**
   * `validatePortfolioUrl`. After the scheme and an optional `www.`, the expression asks for one
   * letter or digit; every later group is optional and ends in `.*$`, so it accepts whatever
   * follows as long as no line terminator does. `www.` itself starts with a letter, so the
   * language is: a scheme, a letter or digit, and a rest without line terminators.
   */
  predicate ValidPortfolioUrl(url: string) {
    url == ""
    || (var a := AfterScheme(url);
        a.Some? && a.value != [] && IsAsciiAlnum(a.value[0])
        && forall i :: 0 <= i < |a.value| ==> !IsLineTerminator(a.value[i]))
  }

  /** The URLs the GitHub expression describes, put together piece by piece. */
  function BuildGithubUrl(secure: bool, www: bool, user: string, slash: bool): string {
    Scheme(secure) + (Host(www) + UserPath(user, slash))
  }

  function Scheme(secure: bool): string {
    if secure then HTTPS else HTTP
  }

  function Host(www: bool): string {
    if www then WWW + GITHUB_HOST else GITHUB_HOST
  }

  function UserPath(user: string, slash: bool): string {
    user + (if slash then "/" else "")
  }

  // ---------------------------------------------------------------------------------
  // The form

  /** The keys of the form and of its errors. */
  datatype Field = Name | Email | GithubUrl | PortfolioUrl | LinkedinUrl | Resume

  type TextField = f: Field | f != Resume witness Name

  datatype FormData = FormData(
    name: string,
    email: string,
    githubUrl: string,
    portfolioUrl: string,
    linkedinUrl: string,
    resume: Option<FileUpload.FileData>)

  function TextOf(f: FormData, k: TextField): string {
    match k
    case Name => f.name
    case Email => f.email
    case GithubUrl => f.githubUrl
    case PortfolioUrl => f.portfolioUrl
    case LinkedinUrl => f.linkedinUrl
  }

  function WithText(f: FormData, k: TextField, v: string): FormData {
    match k
    case Name => f.(name := v)
    case Email => f.(email := v)
    case GithubUrl => f.(githubUrl := v)
    case PortfolioUrl => f.(portfolioUrl := v)
    case LinkedinUrl => f.(linkedinUrl := v)
  }

  const ALL_FIELDS: set<Field> := {Name, Email, GithubUrl, PortfolioUrl, LinkedinUrl, Resume}

  /** Which fields are in error, stated field by field. */
  predicate HasError(f: FormData, k: Field) {
    match k
    case GithubUrl => !ValidGithubUrl(f.githubUrl)
    case PortfolioUrl => !ValidPortfolioUrl(f.portfolioUrl)
    case Resume => f.resume.None?
    case _ => false
  }

  function ErrorMessage(k: Field): string {
    match k
    case GithubUrl => GITHUB_ERROR
    case PortfolioUrl => PORTFOLIO_ERROR
    case _ => RESUME_ERROR
  }

  /** The errors of a form, each field in error with its message. */
  function FormErrors(f: FormData): map<Field, string> {
    map k | k in ALL_FIELDS && HasError(f, k) :: ErrorMessage(k)
  }

  class OnboardingForm {
    var formData: FormData
    var errors: map<Field, string>

    constructor ()
      ensures formData == FormData("", "", "", "", "", None) && errors == map[]
    {
      formData := FormData("", "", "", "", "", None);
      errors := map[];
    }

    /**
     * `validateForm`: builds the errors field by field, stores them, and reports whether there
     * are none. The form itself does not change.
     */
    method ValidateForm() returns (ok: bool)
      modifies this
      ensures formData == old(formData)
      ensures errors == FormErrors(formData)
      ensures ok <==> errors == map[]
    {
      var newErrors: map<Field, string> := map[];
      if formData.githubUrl != "" && !ValidGithubUrl(formData.githubUrl) {
        newErrors := newErrors[GithubUrl := GITHUB_ERROR];
      }
      if formData.portfolioUrl != "" && !ValidPortfolioUrl(formData.portfolioUrl) {
        newErrors := newErrors[PortfolioUrl := PORTFOLIO_ERROR];
      }
      if formData.resume.None? {
        newErrors := newErrors[Resume := RESUME_ERROR];
      }
      FormErrorsExactly(formData, newErrors);
      errors := newErrors;
      ok := |newErrors| == 0;
    }

    /** `handleInputChange`: sets one text field and clears that field's error only. */
    method HandleInputChange(field: TextField, value: string)
      modifies this
      ensures formData == WithText(old(formData), field, value)
      ensures errors == old(errors) - {field}
    {
      formData := WithText(formData, field, value);
      if field in errors {
        errors := errors - {field};
      }
    }

    /** `handleResumeUpload`: sets the resume (`null` after a removal) and clears the resume error only. */
    method HandleResumeUpload(fileData: Option<FileUpload.FileData>)
      modifies this
      ensures formData == old(formData).(resume := fileData)
      ensures errors == old(errors) - {Resume}
    {
      formData := formData.(resume := fileData);
      if Resume in errors {
        errors := errors - {Resume};
      }
    }
  }

  // ---------------------------------------------------------------------------------
  // Restoring a saved draft

  /**
   * A value read back from the saved JSON: a missing key, `null`, a string, or anything else,
   * identified by its JSON text (which never starts with a quote and is never `null`). With this
   * reading, two values have the same `JSON.stringify` exactly when they are equal.
   */
  datatype Value = Undefined | Null | Str(s: string) | Other(json: string)

  const FORM_KEYS: seq<Field> := [Name, Email, GithubUrl, PortfolioUrl, LinkedinUrl, Resume]

  function Saved(saved: map<Field, Value>, k: Field): Value {
    if k in saved then saved[k] else Undefined
  }

  /** The default form the saved draft is compared with. */
  function DefaultValue(fullName: Value, primaryEmail: Value, k: Field): Value {
    match k
    case Name => fullName
    case Email => primaryEmail
    case Resume => Null
    case _ => Str("")
  }

  /** The test applied to one key: set, not empty, and different from the default. */
  predicate KeyDiffers(saved: map<Field, Value>, fullName: Value, primaryEmail: Value, k: Field) {
    var v := Saved(saved, k);
    v != Null && v != Str("") && v != DefaultValue(fullName, primaryEmail, k)
  }

  /** `Object.keys(defaultForm).some(...)` over the given keys. */
  function SomeKeyDiffers(saved: map<Field, Value>, fullName: Value, primaryEmail: Value, keys: seq<Field>): bool {
    if keys == [] then false
    else KeyDiffers(saved, fullName, primaryEmail, keys[0]) || SomeKeyDiffers(saved, fullName, primaryEmail, keys[1..])
  }

  /** `isDifferent`: whether the saved draft is offered for restoring. */
  predicate IsDifferent(saved: map<Field, Value>, fullName: Value, primaryEmail: Value) {
    SomeKeyDiffers(saved, fullName, primaryEmail, FORM_KEYS)
  }

  // ---------------------------------------------------------------------------------
  // Proofs

  lemma StartsWithConcat(a: string, b: string)
    ensures StartsWith(a + b, a) && (a + b)[|a|..] == b
  {
    assert (a + b)[..|a|] == a;
  }

  lemma AfterSchemeOf(secure: bool, rest: string)
    ensures AfterScheme(Scheme(secure) + rest) == Some(rest)
  {
    StartsWithConcat(Scheme(secure), rest);
    if !secure {
      var u := HTTP + rest;
      assert u[4] == ':' && HTTPS[4] == 's';
      assert |u| >= |HTTPS| ==> u[..|HTTPS|][4] == ':';
    }
  }

  lemma AfterGithubHostOf(www: bool, rest: string)
    ensures AfterGithubHost(Host(www) + rest) == Some(rest)
  {
    StartsWithConcat(Host(www), rest);
    if !www {
      var u := GITHUB_HOST + rest;
      assert u[0] == 'g' && (WWW + GITHUB_HOST)[0] == 'w';
      assert |u| >= |WWW + GITHUB_HOST| ==> u[..|WWW + GITHUB_HOST|][0] == 'g';
    }
  }

  lemma UserPathOf(user: string, slash: bool)
    requires user != [] && AllUserChars(user)
    ensures IsUserPath(UserPath(user, slash))
  {
    if slash {
      assert UserPath(user, slash)[..|user|] == user;
    }
  }

  lemma SchemeSplit(s: string)
    requires AfterScheme(s).Some?
    ensures s == Scheme(StartsWith(s, HTTPS)) + AfterScheme(s).value
  {
    var k := if StartsWith(s, HTTPS) then |HTTPS| else |HTTP|;
    assert s == s[..k] + s[k..];
  }

  lemma GithubHostSplit(a: string)
    requires AfterGithubHost(a).Some?
    ensures a == Host(StartsWith(a, WWW + GITHUB_HOST)) + AfterGithubHost(a).value
  {
    var k := if StartsWith(a, WWW + GITHUB_HOST) then |WWW + GITHUB_HOST| else |GITHUB_HOST|;
    assert a == a[..k] + a[k..];
  }

  /** Every URL built from a scheme, an optional `www.`, a user name and an optional slash is accepted. */
  lemma GithubUrlAccepted(secure: bool, www: bool, user: string, slash: bool)
    requires user != [] && AllUserChars(user)
    ensures ValidGithubUrl(BuildGithubUrl(secure, www, user, slash))
  {
    AfterSchemeOf(secure, Host(www) + UserPath(user, slash));
    AfterGithubHostOf(www, UserPath(user, slash));
    UserPathOf(user, slash);
  }

  lemma UserPathSplit(p: string)
    requires IsUserPath(p)
    ensures var slash := !AllUserChars(p);
            var user := if slash then p[..|p| - 1] else p;
            user != [] && AllUserChars(user) && p == UserPath(user, slash)
  {
    if !AllUserChars(p) {
      assert p == p[..|p| - 1] + "/";
    }
  }

  /** Every accepted non-empty URL is one of those built URLs. */
  lemma GithubUrlOnlyAccepted(s: string)
    requires s != [] && ValidGithubUrl(s)
    ensures exists secure, www, user, slash ::
      user != [] && AllUserChars(user) && s == BuildGithubUrl(secure, www, user, slash)
  {
    var a := AfterScheme(s).value;
    SchemeSplit(s);
    var p := AfterGithubHost(a).value;
    GithubHostSplit(a);
    UserPathSplit(p);
    var slash := !AllUserChars(p);
    var user := if slash then p[..|p| - 1] else p;
    assert s == BuildGithubUrl(StartsWith(s, HTTPS), StartsWith(a, WWW + GITHUB_HOST), user, slash);
  }

  /** Accepted non-empty portfolio URLs start with the scheme and a letter or digit. */
  lemma PortfolioUrlShape(url: string)
    requires url != [] && ValidPortfolioUrl(url)
    ensures (StartsWith(url, HTTPS) && |url| > |HTTPS| && IsAsciiAlnum(url[|HTTPS|]))
         || (StartsWith(url, HTTP) && |url| > |HTTP| && IsAsciiAlnum(url[|HTTP|]))
  {
  }

  predicate NoLineTerminator(s: string) {
    forall i :: 0 <= i < |s| ==> !IsLineTerminator(s[i])
  }

  lemma NoLineTerminatorConcat(a: string, b: string)
    requires NoLineTerminator(a) && NoLineTerminator(b)
    ensures NoLineTerminator(a + b)
  {
    forall i | 0 <= i < |a + b| ensures !IsLineTerminator((a + b)[i]) {
      if i >= |a| {
        assert (a + b)[i] == b[i - |a|];
      }
    }
  }

  /** A valid GitHub URL is also a valid portfolio URL. */
  lemma GithubUrlIsPortfolioUrl(url: string)
    requires ValidGithubUrl(url)
    ensures ValidPortfolioUrl(url)
  {
    if url != [] {
      var a := AfterScheme(url).value;
      var p := AfterGithubHost(a).value;
      var host := Host(StartsWith(a, WWW + GITHUB_HOST));
      GithubHostSplit(a);
      HostShape(StartsWith(a, WWW + GITHUB_HOST));
      UserPathClean(p);
      NoLineTerminatorConcat(host, p);
      ConsSplit(host, p);
    }
  }

  lemma HostShape(www: bool)
    ensures Host(www) != [] && IsAsciiAlnum(Host(www)[0]) && NoLineTerminator(Host(www))
  {
  }

  lemma UserPathClean(p: string)
    requires IsUserPath(p)
    ensures NoLineTerminator(p)
  {
    UserPathSplit(p);
    var slash := !AllUserChars(p);
    var user := if slash then p[..|p| - 1] else p;
    assert NoLineTerminator(user);
    NoLineTerminatorConcat(user, if slash then "/" else "");
  }

  lemma AllFieldsListed(k: Field)
    ensures k in ALL_FIELDS
  {
  }

  /**
   * The errors name exactly the fields in error: the GitHub and portfolio URLs when non-empty and
   * invalid, the resume when missing, and never the name, the email or the LinkedIn URL; the form
   * is valid exactly when there is no error.
   */
  lemma FormErrorsMeaning(f: FormData)
    ensures GithubUrl in FormErrors(f) <==> f.githubUrl != "" && !GithubUrlMatches(f.githubUrl)
    ensures PortfolioUrl in FormErrors(f) <==> f.portfolioUrl != "" && !ValidPortfolioUrl(f.portfolioUrl)
    ensures Resume in FormErrors(f) <==> f.resume.None?
    ensures Name !in FormErrors(f) && Email !in FormErrors(f) && LinkedinUrl !in FormErrors(f)
    ensures forall k :: k in FormErrors(f) ==> FormErrors(f)[k] == ErrorMessage(k)
    ensures FormErrors(f) == map[] <==> ValidGithubUrl(f.githubUrl) && ValidPortfolioUrl(f.portfolioUrl) && f.resume.Some?
  {
    AllFieldsListed(GithubUrl);
    AllFieldsListed(PortfolioUrl);
    AllFieldsListed(Resume);
    if FormErrors(f) == map[] {
      assert GithubUrl !in FormErrors(f) && PortfolioUrl !in FormErrors(f) && Resume !in FormErrors(f);
    }
    if ValidGithubUrl(f.githubUrl) && ValidPortfolioUrl(f.portfolioUrl) && f.resume.Some? {
      assert forall k :: k !in FormErrors(f);
    }
  }

  /** A map that names exactly the fields in error, each with its message, is the form's errors. */
  lemma FormErrorsExactly(f: FormData, m: map<Field, string>)
    requires GithubUrl in m <==> HasError(f, GithubUrl)
    requires PortfolioUrl in m <==> HasError(f, PortfolioUrl)
    requires Resume in m <==> HasError(f, Resume)
    requires Name !in m && Email !in m && LinkedinUrl !in m
    requires forall k :: k in m ==> m[k] == ErrorMessage(k)
    ensures m == FormErrors(f)
  {
    forall k ensures k in m <==> k in FormErrors(f) {
      AllFieldsListed(k);
    }
  }

  /** Changing one text field leaves the other fields and the resume alone. */
  lemma WithTextOnly(f: FormData, k: TextField, v: string, other: TextField)
    ensures TextOf(WithText(f, k, v), other) == if other == k then v else TextOf(f, other)
    ensures WithText(f, k, v).resume == f.resume
  {
  }

  lemma {:induction false} SomeKeyDiffersIff(saved: map<Field, Value>, fullName: Value, primaryEmail: Value, keys: seq<Field>)
    ensures SomeKeyDiffers(saved, fullName, primaryEmail, keys) <==>
      exists i :: 0 <= i < |keys| && KeyDiffers(saved, fullName, primaryEmail, keys[i])
  {
    if keys != [] {
      SomeKeyDiffersIff(saved, fullName, primaryEmail, keys[1..]);
      if exists i :: 0 <= i < |keys| && KeyDiffers(saved, fullName, primaryEmail, keys[i]) {
        var i :| 0 <= i < |keys| && KeyDiffers(saved, fullName, primaryEmail, keys[i]);
        if i > 0 {
          assert keys[1..][i - 1] == keys[i];
        }
      }
      if SomeKeyDiffers(saved, fullName, primaryEmail, keys[1..]) {
        var i :| 0 <= i < |keys[1..]| && KeyDiffers(saved, fullName, primaryEmail, keys[1..][i]);
        assert keys[i + 1] == keys[1..][i];
      }
    }
  }

  /** A draft is offered exactly when some form key holds a value that is set, non-empty and not the default. */
  lemma IsDifferentIff(saved: map<Field, Value>, fullName: Value, primaryEmail: Value)
    ensures IsDifferent(saved, fullName, primaryEmail) <==>
      exists k :: k in ALL_FIELDS && KeyDiffers(saved, fullName, primaryEmail, k)
  {
    SomeKeyDiffersIff(saved, fullName, primaryEmail, FORM_KEYS);
    if exists k :: k in ALL_FIELDS && KeyDiffers(saved, fullName, primaryEmail, k) {
      var k :| k in ALL_FIELDS && KeyDiffers(saved, fullName, primaryEmail, k);
      var i := match k
        case Name => 0 case Email => 1 case GithubUrl => 2 case PortfolioUrl => 3 case LinkedinUrl => 4 case Resume => 5;
      assert FORM_KEYS[i] == k;
    }
  }

  /** A draft that only repeats the defaults, or holds nothing but empty values, is not offered. */
  lemma DefaultDraftNotOffered(saved: map<Field, Value>, fullName: Value, primaryEmail: Value)
    requires forall k :: k in ALL_FIELDS ==>
      Saved(saved, k) == DefaultValue(fullName, primaryEmail, k) || Saved(saved, k) == Null || Saved(saved, k) == Str("")
    ensures !IsDifferent(saved, fullName, primaryEmail)
  {
    IsDifferentIff(saved, fullName, primaryEmail);
  }

  /** A draft holding a non-empty GitHub URL is offered. */
  lemma GithubDraftOffered(saved: map<Field, Value>, fullName: Value, primaryEmail: Value, url: string)
    requires url != "" && Saved(saved, GithubUrl) == Str(url)
    ensures IsDifferent(saved, fullName, primaryEmail)
  {
    IsDifferentIff(saved, fullName, primaryEmail);
    assert KeyDiffers(saved, fullName, primaryEmail, GithubUrl);
  }
}
