/** String helpers that the application uses through JavaScript's built-in string methods. */
module Text {
  import opened Seqs

  /** `parts.join(sep)`: the parts in order with `sep` between neighbours. */
  function Join(parts: seq<string>, sep: string): (r: string)
    ensures parts == [] ==> r == ""
    ensures |parts| == 1 ==> r == parts[0]
  {
    if parts == [] then ""
    else if |parts| == 1 then parts[0]
    else parts[0] + sep + Join(parts[1..], sep)
  }

  /** `s.split(c)` for a one-character separator; always at least one piece. */
  function SplitOn(s: string, c: char): (r: seq<string>)
    ensures |r| >= 1
  {
    if s == [] then [""]
    else
      var rest := SplitOn(s[1..], c);
      if s[0] == c then [""] + rest else [[s[0]] + rest[0]] + rest[1..]
  }

  lemma {:induction false} SplitOnPrefix(p: string, t: string, c: char)
    requires c !in p
    ensures SplitOn(p + t, c) == [p + SplitOn(t, c)[0]] + SplitOn(t, c)[1..]
  {
    if p != [] {
      assert (p + t)[1..] == p[1..] + t;
      assert (p + t)[0] == p[0] != c;
      SplitOnPrefix(p[1..], t, c);
      var s := SplitOn(t, c);
      var rest := SplitOn(p[1..] + t, c);
      assert rest[0] == p[1..] + s[0] && rest[1..] == s[1..];
      assert [p[0]] + rest[0] == p + s[0];
    } else {
      assert p + t == t;
      assert p + SplitOn(t, c)[0] == SplitOn(t, c)[0];
      assert SplitOn(t, c) == [SplitOn(t, c)[0]] + SplitOn(t, c)[1..];
    }
  }

  /** Splitting on `c` undoes joining with `c` when no part contains `c`. */
  lemma {:induction false} SplitJoin(parts: seq<string>, c: char)
    requires |parts| >= 1
    requires forall i :: 0 <= i < |parts| ==> c !in parts[i]
    ensures SplitOn(Join(parts, [c]), c) == parts
  {
    if |parts| == 1 {
      SplitOnPrefix(parts[0], "", c);
      assert SplitOn("", c) == [""];
      assert parts[0] + "" == parts[0];
    } else {
      var rest := Join(parts[1..], [c]);
      assert Join(parts, [c]) == parts[0] + ([c] + rest);
      SplitOnPrefix(parts[0], [c] + rest, c);
      assert ([c] + rest)[1..] == rest;
      assert ([c] + rest)[0] == c;
      SplitJoin(parts[1..], c);
      assert SplitOn([c] + rest, c) == [""] + parts[1..];
      assert parts[0] + "" == parts[0];
      assert parts == [parts[0]] + parts[1..];
    }
  }

  predicate StartsWith(s: string, prefix: string) {
    |prefix| <= |s| && s[..|prefix|] == prefix
  }

  predicate EndsWith(s: string, suffix: string) {
    |suffix| <= |s| && s[|s| - |suffix|..] == suffix
  }

  /** `s.includes(t)` (also what `s.match(t)` tests when `t` has no regular-expression metacharacters). */
  predicate Contains(s: string, t: string) {
    StartsWith(s, t) || (s != [] && Contains(s[1..], t))
  }

  /** Splitting on `c` after joining with `c`: the parts free of `c` come back whole, the last part split. */
  lemma {:induction false} SplitJoinLast(parts: seq<string>, last: string, c: char)
    requires forall i :: 0 <= i < |parts| ==> c !in parts[i]
    ensures SplitOn(Join(parts + [last], [c]), c) == parts + SplitOn(last, c)
  {
    if parts != [] {
      var rest := Join(parts[1..] + [last], [c]);
      JoinStep(parts, last, [c]);
      SplitOnPrefix(parts[0], [c] + rest, c);
      SplitOnSep(rest, c);
      SplitJoinLast(parts[1..], last, c);
      Recons(parts, SplitOn(last, c));
    } else {
      assert parts + [last] == [last];
    }
  }

  lemma JoinStep(parts: seq<string>, last: string, sep: string)
    requires parts != []
    ensures Join(parts + [last], sep) == parts[0] + (sep + Join(parts[1..] + [last], sep))
  {
    var ps := parts + [last];
    assert ps[0] == parts[0] && ps[1..] == parts[1..] + [last];
    assert |ps| >= 2;
    ConcatAssoc(parts[0], sep, Join(ps[1..], sep));
  }

  lemma SplitOnSep(rest: string, c: char)
    ensures SplitOn([c] + rest, c)[0] == ""
    ensures SplitOn([c] + rest, c)[1..] == SplitOn(rest, c)
  {
    assert ([c] + rest)[1..] == rest;
  }

  lemma Recons(parts: seq<string>, x: seq<string>)
    requires parts != []
    ensures [parts[0] + ""] + (parts[1..] + x) == parts + x
  {
    assert parts[0] + "" == parts[0];
    assert parts == [parts[0]] + parts[1..];
  }

  /** Joining the pieces of a split with the separator gives back the string. */
  lemma {:induction false} JoinSplit(s: string, c: char)
    ensures Join(SplitOn(s, c), [c]) == s
  {
    if s != [] {
      var rest := SplitOn(s[1..], c);
      JoinSplit(s[1..], c);
      assert s == [s[0]] + s[1..];
      if s[0] == c {
        JoinCons("", rest, [c]);
        assert "" + ([c] + s[1..]) == s;
      } else {
        var head := [s[0]] + rest[0];
        if |rest| == 1 {
          assert [head] + rest[1..] == [head];
        } else {
          var tail := Join(rest[1..], [c]);
          JoinCons(head, rest[1..], [c]);
          JoinCons(rest[0], rest[1..], [c]);
          assert [rest[0]] + rest[1..] == rest;
          ConcatAssoc([s[0]], rest[0], [c] + tail);
        }
      }
    }
  }

  lemma JoinCons(x: string, ps: seq<string>, sep: string)
    requires ps != []
    ensures Join([x] + ps, sep) == x + (sep + Join(ps, sep))
  {
    var all := [x] + ps;
    assert all[0] == x && all[1..] == ps;
    ConcatAssoc(x, sep, Join(ps, sep));
  }

  lemma {:induction false} ContainsMiddle(a: string, b: string, c: string)
    ensures Contains(a + b + c, b)
  {
    if a == [] {
      assert a + b + c == b + c;
      assert (b + c)[..|b|] == b;
    } else {
      assert (a + b + c)[1..] == a[1..] + b + c;
      ContainsMiddle(a[1..], b, c);
    }
  }

  /** Lower-casing of one character, on the ASCII letters. */
  function LowerChar(c: char): char {
    if 'A' <= c <= 'Z' then (c as int - 'A' as int + 'a' as int) as char else c
  }

  function ToLowerAscii(s: string): (r: string)
    ensures |r| == |s|
    ensures forall i :: 0 <= i < |s| ==> r[i] == LowerChar(s[i])
  {
    seq(|s|, i requires 0 <= i < |s| => LowerChar(s[i]))
  }

  /** The characters JavaScript's `\s` matches (ECMAScript WhiteSpace and LineTerminator). */
  predicate IsSpace(c: char) {
    c == ' ' || c == '\t' || c == '\n' || c == '\U{000B}' || c == '\U{000C}' || c == '\r'
    || c == '\U{00A0}' || c == '\U{1680}' || ('\U{2000}' <= c <= '\U{200A}')
    || c == '\U{2028}' || c == '\U{2029}' || c == '\U{202F}' || c == '\U{205F}'
    || c == '\U{3000}' || c == '\U{FEFF}'
  }

  predicate NoSpace(s: string) {
    forall i :: 0 <= i < |s| ==> !IsSpace(s[i])
  }

  predicate AllSpace(s: string) {
    forall i :: 0 <= i < |s| ==> IsSpace(s[i])
  }

  /** `s` without its leading run of whitespace. */
  function SkipSpaces(s: string): (r: string)
    ensures |r| <= |s|
    ensures r != [] ==> !IsSpace(r[0])
  {
    if s != [] && IsSpace(s[0]) then SkipSpaces(s[1..]) else s
  }

  /** What is left after skipping is a suffix of the text. */
  lemma {:induction false} SkipSpacesSuffix(s: string)
    ensures SkipSpaces(s) == s[|s| - |SkipSpaces(s)|..]
  {
    if s != [] && IsSpace(s[0]) {
      SkipSpacesSuffix(s[1..]);
      assert s[1..][|s| - 1 - |SkipSpaces(s)|..] == s[|s| - |SkipSpaces(s)|..];
    }
  }

  /** Only whitespace is skipped. */
  lemma {:induction false} SkipSpacesSkipsSpace(s: string)
    ensures AllSpace(s[..|s| - |SkipSpaces(s)|])
  {
    if s != [] && IsSpace(s[0]) {
      SkipSpacesSkipsSpace(s[1..]);
      var k := |s| - |SkipSpaces(s)|;
      forall i | 0 <= i < k ensures IsSpace(s[..k][i]) {
        if i > 0 {
          assert s[..k][i] == s[1..][..k - 1][i - 1];
        }
      }
    }
  }

  /** `s.replace(/\s+/g, "-")`: every maximal whitespace run becomes one dash. */
  function DashSpaceRuns(s: string): (r: string)
    ensures |r| <= |s|
    decreases |s|
  {
    if s == [] then ""
    else if !IsSpace(s[0]) then [s[0]] + DashSpaceRuns(s[1..])
    else "-" + DashSpaceRuns(SkipSpaces(s[1..]))
  }

  /** No whitespace is left in the result. */
  lemma {:induction false} DashSpaceRunsClean(s: string)
    ensures NoSpace(DashSpaceRuns(s))
    decreases |s|
  {
    if s != [] {
      var rest := if IsSpace(s[0]) then SkipSpaces(s[1..]) else s[1..];
      DashSpaceRunsClean(rest);
      var r, t := DashSpaceRuns(s), DashSpaceRuns(rest);
      assert r == [r[0]] + t && !IsSpace(r[0]);
      forall i | 0 <= i < |r| ensures !IsSpace(r[i]) {
        if i > 0 {
          assert r[i] == t[i - 1];
        }
      }
    }
  }

  lemma {:induction false} DashSpaceRunsNoSpace(s: string)
    requires NoSpace(s)
    ensures DashSpaceRuns(s) == s
  {
    if s != [] {
      DashSpaceRunsNoSpace(s[1..]);
    }
  }

  lemma {:induction false} SkipSpacesConcat(a: string, b: string)
    requires SkipSpaces(a) != []
    ensures SkipSpaces(a + b) == SkipSpaces(a) + b
  {
    ConsSplit(a, b);
    if IsSpace(a[0]) {
      SkipSpacesConcat(a[1..], b);
    }
  }

  /** Cutting after a non-whitespace character cuts the result at the same place. */
  lemma {:induction false} DashSpaceRunsConcat(x: string, y: string)
    requires x == [] || !IsSpace(x[|x| - 1])
    ensures DashSpaceRuns(x + y) == DashSpaceRuns(x) + DashSpaceRuns(y)
    decreases |x|
  {
    if x == [] {
      assert x + y == y;
    } else if !IsSpace(x[0]) {
      ConsSplit(x, y);
      DashSpaceRunsConcat(x[1..], y);
      ConcatAssoc([x[0]], DashSpaceRuns(x[1..]), DashSpaceRuns(y));
    } else {
      var rest := SkipSpaces(x[1..]);
      ConsSplit(x, y);
      SkipSpacesKeepsLast(x[1..]);
      SkipSpacesSuffix(x[1..]);
      assert rest[|rest| - 1] == x[|x| - 1];
      SkipSpacesConcat(x[1..], y);
      DashSpaceRunsConcat(rest, y);
      ConcatAssoc("-", DashSpaceRuns(rest), DashSpaceRuns(y));
    }
  }

  /** A whitespace run between two non-whitespace neighbours becomes exactly one dash. */
  lemma {:induction false} DashSpaceRunsSplit(x: string, w: string, y: string)
    requires w != [] && AllSpace(w)
    requires y == [] || !IsSpace(y[0])
    requires x == [] || !IsSpace(x[|x| - 1])
    ensures DashSpaceRuns(x + w + y) == DashSpaceRuns(x) + "-" + DashSpaceRuns(y)
  {
    ConcatAssoc(x, w, y);
    DashSpaceRunsConcat(x, w + y);
    DashSpaceRunsLeadingRun(w, y);
    ConcatAssoc(DashSpaceRuns(x), "-", DashSpaceRuns(y));
  }

  lemma DashSpaceRunsLeadingRun(w: string, y: string)
    requires w != [] && AllSpace(w)
    requires y == [] || !IsSpace(y[0])
    ensures DashSpaceRuns(w + y) == "-" + DashSpaceRuns(y)
  {
    assert (w + y)[0] == w[0];
    assert (w + y)[1..] == w[1..] + y;
    SkipAllSpace(w[1..], y);
  }

  lemma {:induction false} SkipAllSpace(w: string, y: string)
    requires AllSpace(w)
    requires y == [] || !IsSpace(y[0])
    ensures SkipSpaces(w + y) == y
  {
    if w != [] {
      assert (w + y)[1..] == w[1..] + y;
      SkipAllSpace(w[1..], y);
    } else {
      assert w + y == y;
    }
  }

  lemma SuffixMembers(s: string, k: nat)
    requires k <= |s|
    ensures forall c :: c in s[k..] ==> c in s
  {
    forall c | c in s[k..] ensures c in s {
      var j :| 0 <= j < |s| - k && s[k..][j] == c;
      assert s[k + j] == c;
    }
  }

  /** Every character of the result is a dash or a character of `s`. */
  lemma {:induction false} DashSpaceRunsChars(s: string)
    ensures forall c :: c in DashSpaceRuns(s) ==> c == '-' || c in s
    decreases |s|
  {
    if s != [] {
      SuffixMembers(s, 1);
      if IsSpace(s[0]) {
        var rest := SkipSpaces(s[1..]);
        DashSpaceRunsChars(rest);
        SkipSpacesSuffix(s[1..]);
        SuffixMembers(s[1..], |s| - 1 - |rest|);
      } else {
        DashSpaceRunsChars(s[1..]);
      }
    }
  }

  /** `s` without its trailing run of whitespace. */
  function DropTrailingSpaces(s: string): (r: string)
    ensures |r| <= |s|
    ensures r != [] ==> !IsSpace(r[|r| - 1])
  {
    if s != [] && IsSpace(s[|s| - 1]) then DropTrailingSpaces(s[..|s| - 1]) else s
  }

  /** What is left after dropping is a prefix of the text. */
  lemma {:induction false} DropTrailingPrefix(s: string)
    ensures DropTrailingSpaces(s) == s[..|DropTrailingSpaces(s)|]
  {
    if s != [] && IsSpace(s[|s| - 1]) {
      DropTrailingPrefix(s[..|s| - 1]);
      assert s[..|s| - 1][..|DropTrailingSpaces(s)|] == s[..|DropTrailingSpaces(s)|];
    }
  }

  /** Dropping nothing but whitespace leaves the empty string only from an all-whitespace one. */
  lemma {:induction false} DropTrailingEmpty(s: string)
    requires DropTrailingSpaces(s) == []
    ensures AllSpace(s)
  {
    if s != [] {
      var p := s[..|s| - 1];
      DropTrailingEmpty(p);
      forall i | 0 <= i < |s| ensures IsSpace(s[i]) {
        if i < |s| - 1 {
          assert s[i] == p[i];
        }
      }
    }
  }

  lemma {:induction false} SkipSpacesKeepsLast(s: string)
    requires s != [] && !IsSpace(s[|s| - 1])
    ensures SkipSpaces(s) != []
  {
    if IsSpace(s[0]) {
      assert s[1..][|s| - 2] == s[|s| - 1];
      SkipSpacesKeepsLast(s[1..]);
    }
  }

  lemma {:induction false} SkipSpacesEmpty(s: string)
    requires SkipSpaces(s) == []
    ensures AllSpace(s)
  {
    SkipSpacesSkipsSpace(s);
    assert s[..|s|] == s;
  }

  /** `s.trim()`: JavaScript trims exactly the characters `\s` matches, at both ends. */
  function Trim(s: string): (r: string)
    ensures r != [] ==> !IsSpace(r[0]) && !IsSpace(r[|r| - 1])
  {
    TrimEnds(s);
    DropTrailingSpaces(SkipSpaces(s))
  }

  lemma TrimEnds(s: string)
    ensures var r := DropTrailingSpaces(SkipSpaces(s)); r != [] ==> !IsSpace(r[0]) && !IsSpace(r[|r| - 1])
  {
    var t := SkipSpaces(s);
    var r := DropTrailingSpaces(t);
    DropTrailingPrefix(t);
    assert r != [] ==> r[0] == t[0];
  }

  /** The trimmed text is empty exactly when the text is all whitespace. */
  lemma TrimEmpty(s: string)
    ensures Trim(s) == [] <==> AllSpace(s)
  {
    var t := SkipSpaces(s);
    if DropTrailingSpaces(t) == [] {
      DropTrailingEmpty(t);
      SkipSpacesEmpty(s);
    }
    if AllSpace(s) {
      AllSpaceSkipped(s);
    }
  }

  lemma {:induction false} AllSpaceSkipped(s: string)
    requires AllSpace(s)
    ensures SkipSpaces(s) == []
  {
    if s != [] {
      assert AllSpace(s[1..]) by {
        forall i | 0 <= i < |s| - 1 ensures IsSpace(s[1..][i]) {
          assert s[1..][i] == s[i + 1];
        }
      }
      AllSpaceSkipped(s[1..]);
    }
  }

  /** Trimming is idempotent, and the trimmed text is a contiguous piece of the original. */
  lemma TrimTrim(s: string)
    ensures Trim(Trim(s)) == Trim(s)
    ensures var k := |s| - |SkipSpaces(s)|; k + |Trim(s)| <= |s| && Trim(s) == s[k..k + |Trim(s)|]
  {
    TrimFixed(Trim(s));
    TrimSlice(s);
  }

  lemma TrimFixed(r: string)
    requires r == [] || (!IsSpace(r[0]) && !IsSpace(r[|r| - 1]))
    ensures Trim(r) == r
  {
    SkipNonSpace(r);
    DropNonSpace(r);
  }

  lemma TrimSlice(s: string)
    ensures var k := |s| - |SkipSpaces(s)|; k + |Trim(s)| <= |s| && Trim(s) == s[k..k + |Trim(s)|]
  {
    var t := SkipSpaces(s);
    var r := Trim(s);
    assert r == DropTrailingSpaces(t);
    DropTrailingPrefix(t);
    SkipSpacesSuffix(s);
    SliceOfSlice(s, |s| - |t|, |r|);
  }

  lemma SkipNonSpace(r: string)
    requires r == [] || !IsSpace(r[0])
    ensures SkipSpaces(r) == r
  {
  }

  lemma DropNonSpace(r: string)
    requires r == [] || !IsSpace(r[|r| - 1])
    ensures DropTrailingSpaces(r) == r
  {
  }

  function DigitChar(d: nat): char
    requires d < 10
  {
    ('0' as int + d) as char
  }

  /** JavaScript's rendering of a natural number in decimal. */
  function NatToString(n: nat): (r: string)
    ensures r != []
    ensures forall i :: 0 <= i < |r| ==> '0' <= r[i] <= '9'
  {
    if n < 10 then [DigitChar(n)] else NatToString(n / 10) + [DigitChar(n % 10)]
  }

  /** The value of a string of decimal digits. */
  function DigitsValue(s: string): nat
    requires forall i :: 0 <= i < |s| ==> '0' <= s[i] <= '9'
  {
    if s == [] then 0 else 10 * DigitsValue(s[..|s| - 1]) + (s[|s| - 1] as int - '0' as int)
  }

  lemma {:induction false} NatToStringValue(n: nat)
    ensures DigitsValue(NatToString(n)) == n
  {
    if n >= 10 {
      var r := NatToString(n);
      NatToStringValue(n / 10);
      assert r[..|r| - 1] == NatToString(n / 10);
    }
  }
}
