/** Character and string helpers shared by the JavaScript and the Python models:
    decimal digits, splitting and joining, substring search and replacement. */
module Text {
  import opened Results

  predicate IsDigit(c: char) {
    '0' <= c <= '9'
  }

  predicate AllDigits(s: string) {
    forall i | 0 <= i < |s| :: IsDigit(s[i])
  }

  /** A digit string as JavaScript writes a non-negative integer: no leading zero unless it is "0". */
  predicate Canonical(s: string) {
    |s| >= 1 && AllDigits(s) && (s[0] == '0' ==> s == "0")
  }

  function DigitValue(c: char): nat
    requires IsDigit(c)
  {
    c as int - '0' as int
  }

  function DigitChar(d: nat): (c: char)
    requires d < 10
    ensures IsDigit(c) && DigitValue(c) == d
  {
    ('0' as int + d) as char
  }

  /** The value of a decimal digit string, most significant digit first. */
  function DigitsValue(s: string): nat
    requires AllDigits(s)
    decreases |s|
  {
    if s == [] then 0 else DigitsValue(s[..|s| - 1]) * 10 + DigitValue(s[|s| - 1])
  }

  /** Decimal rendering of a natural number. */
  function NatToString(n: nat): (r: string)
    ensures Canonical(r)
  {
    if n < 10 then [DigitChar(n)] else NatToString(n / 10) + [DigitChar(n % 10)]
  }

  /** Decimal rendering of an integer, with a leading '-' when negative. */
  function IntToString(i: int): (r: string)
    ensures |r| >= 1
    ensures i < 0 <==> r[0] == '-'
  {
    if i < 0 then "-" + NatToString(-i) else NatToString(i)
  }

  lemma {:induction false} DigitsValueOfNatToString(n: nat)
    ensures DigitsValue(NatToString(n)) == n
  {
    if n >= 10 {
      var s := NatToString(n);
      assert s[..|s| - 1] == NatToString(n / 10);
      DigitsValueOfNatToString(n / 10);
    }
  }

  lemma {:induction false} LeadingNonZeroPositive(s: string)
    requires Canonical(s) && s != "0"
    ensures DigitsValue(s) >= 1
    decreases |s|
  {
    if |s| > 1 {
      var p := s[..|s| - 1];
      assert p[0] == s[0];
      LeadingNonZeroPositive(p);
    }
  }

  lemma {:induction false} NatToStringOfDigitsValue(s: string)
    requires Canonical(s)
    ensures NatToString(DigitsValue(s)) == s
    decreases |s|
  {
    if |s| > 1 {
      var p := s[..|s| - 1];
      assert p[0] == s[0];
      LeadingNonZeroPositive(p);
      NatToStringOfDigitsValue(p);
      assert s == p + [s[|s| - 1]];
    }
  }

  /** Index of the first occurrence of `c`, or |s| when there is none. */
  function IndexOfChar(s: string, c: char): (i: nat)
    ensures i <= |s|
    ensures forall j | 0 <= j < i :: s[j] != c
    ensures i < |s| ==> s[i] == c
  {
    if s == [] || s[0] == c then 0 else 1 + IndexOfChar(s[1..], c)
  }

  /** `s.split(sep)` for a one-character separator: never empty, "" gives [""]. */
  function SplitOn(s: string, sep: char): (parts: seq<string>)
    ensures |parts| >= 1
    ensures forall i | 0 <= i < |parts| :: sep !in parts[i]
    decreases |s|
  {
    var i := IndexOfChar(s, sep);
    if i == |s| then [s] else [s[..i]] + SplitOn(s[i + 1..], sep)
  }

  /** `sep.join(parts)` / `parts.join(sep)`. */
  function Join(parts: seq<string>, sep: string): string
  {
    if |parts| == 0 then ""
    else if |parts| == 1 then parts[0]
    else parts[0] + sep + Join(parts[1..], sep)
  }

  lemma {:induction false} JoinSplitOn(s: string, sep: char)
    ensures Join(SplitOn(s, sep), [sep]) == s
    decreases |s|
  {
    var i := IndexOfChar(s, sep);
    if i < |s| {
      var rest := SplitOn(s[i + 1..], sep);
      var parts := SplitOn(s, sep);
      assert parts == [s[..i]] + rest;
      assert parts[1..] == rest;
      assert Join(parts, [sep]) == s[..i] + [sep] + Join(rest, [sep]);
      JoinSplitOn(s[i + 1..], sep);
      assert s == s[..i] + [sep] + s[i + 1..];
    } else {
      assert SplitOn(s, sep) == [s];
    }
  }

  lemma {:induction false} SplitOnJoin(parts: seq<string>, sep: char)
    requires |parts| >= 1
    requires forall i | 0 <= i < |parts| :: sep !in parts[i]
    ensures SplitOn(Join(parts, [sep]), sep) == parts
    decreases |parts|
  {
    var s := Join(parts, [sep]);
    if |parts| == 1 {
      assert IndexOfChar(s, sep) == |s|;
    } else {
      var rest := Join(parts[1..], [sep]);
      assert s == parts[0] + [sep] + rest;
      assert s[|parts[0]|] == sep;
      assert IndexOfChar(s, sep) == |parts[0]|;
      assert s[..|parts[0]|] == parts[0];
      assert s[|parts[0]| + 1..] == rest;
      assert SplitOn(s, sep) == [parts[0]] + SplitOn(rest, sep);
      SplitOnJoin(parts[1..], sep);
      assert parts == [parts[0]] + parts[1..];
    }
  }

  predicate StartsWith(s: string, p: string) {
    |p| <= |s| && s[..|p|] == p
  }

  /** Index of the first occurrence of `p` in `s` (JavaScript `indexOf` / Python `find`). */
  function FindSub(s: string, p: string): (r: Option<nat>)
    ensures r.Some? ==> r.value + |p| <= |s| && s[r.value..r.value + |p|] == p
    ensures r.Some? ==> forall j | 0 <= j < r.value :: !StartsWith(s[j..], p)
    ensures r.None? ==> forall j | 0 <= j <= |s| :: !StartsWith(s[j..], p)
    decreases |s|
  {
    if StartsWith(s, p) then Some(0)
    else if s == [] then None
    else
      match FindSub(s[1..], p)
      case Some(i) =>
        assert forall j | 1 <= j < i + 1 :: s[j..] == s[1..][j - 1..];
        Some(i + 1)
      case None =>
        assert forall j | 1 <= j <= |s| :: s[j..] == s[1..][j - 1..];
        None
  }

  /** Python `s.replace(pat, rep)`: every non-overlapping occurrence, scanned left to right. */
  function ReplaceAll(s: string, pat: string, rep: string): (r: string)
    requires |pat| > 0
    ensures CountOccurrences(s, pat) == 0 ==> r == s
    decreases |s|
  {
    if StartsWith(s, pat) then rep + ReplaceAll(s[|pat|..], pat, rep)
    else if s == [] then []
    else
      assert s == [s[0]] + s[1..];
      [s[0]] + ReplaceAll(s[1..], pat, rep)
  }

  /** The number of occurrences `ReplaceAll` replaces (Python `s.count(pat)`). */
  function CountOccurrences(s: string, pat: string): nat
    requires |pat| > 0
    decreases |s|
  {
    if StartsWith(s, pat) then 1 + CountOccurrences(s[|pat|..], pat)
    else if s == [] then 0
    else CountOccurrences(s[1..], pat)
  }

  lemma {:induction false} ReplaceAllLength(s: string, pat: string, rep: string)
    requires |pat| > 0
    ensures |ReplaceAll(s, pat, rep)| == |s| + CountOccurrences(s, pat) * (|rep| - |pat|)
    decreases |s|
  {
    if StartsWith(s, pat) {
      var t := s[|pat|..];
      ReplaceAllLength(t, pat, rep);
      var c := CountOccurrences(t, pat);
      var d := |rep| - |pat|;
      assert ReplaceAll(s, pat, rep) == rep + ReplaceAll(t, pat, rep);
      assert CountOccurrences(s, pat) == 1 + c;
      assert |s| == |pat| + |t|;
      MulSucc(c, d);
    } else if s != [] {
      var t := s[1..];
      ReplaceAllLength(t, pat, rep);
      assert ReplaceAll(s, pat, rep) == [s[0]] + ReplaceAll(t, pat, rep);
      assert CountOccurrences(s, pat) == CountOccurrences(t, pat);
    }
  }

  lemma MulSucc(c: nat, d: int)
    ensures (1 + c) * d == d + c * d
  {
  }

  lemma {:induction false} ReplaceAllAbsent(s: string, pat: string, rep: string)
    requires |pat| > 0
    requires FindSub(s, pat).None?
    ensures CountOccurrences(s, pat) == 0
    ensures ReplaceAll(s, pat, rep) == s
    decreases |s|
  {
    assert s[0..] == s;
    if s != [] {
      assert forall j | 0 <= j <= |s[1..]| :: s[1..][j..] == s[j + 1..];
      ReplaceAllAbsent(s[1..], pat, rep);
      assert s == [s[0]] + s[1..];
    }
  }

  lemma {:induction false} ReplaceAllSelf(s: string, pat: string)
    requires |pat| > 0
    ensures ReplaceAll(s, pat, pat) == s
    decreases |s|
  {
    if StartsWith(s, pat) {
      ReplaceAllSelf(s[|pat|..], pat);
      assert s == pat + s[|pat|..];
    } else if s != [] {
      ReplaceAllSelf(s[1..], pat);
      assert s == [s[0]] + s[1..];
    }
  }

  /** Text that cannot start an occurrence is copied through. */
  lemma {:induction false} ReplaceAllSkipsPrefix(p: string, t: string, pat: string, rep: string)
    requires |pat| > 0 && pat[0] !in p
    ensures ReplaceAll(p + t, pat, rep) == p + ReplaceAll(t, pat, rep)
    decreases |p|
  {
    if p == [] {
      assert p + t == t;
    } else {
      var s := p + t;
      assert s[0] == p[0] && p[0] != pat[0];
      assert !StartsWith(s, pat) by {
        if |pat| <= |s| {
          assert s[..|pat|][0] != pat[0];
        }
      }
      assert ReplaceAll(s, pat, rep) == [s[0]] + ReplaceAll(s[1..], pat, rep);
      assert s[1..] == p[1..] + t;
      ReplaceAllSkipsPrefix(p[1..], t, pat, rep);
      assert p == [p[0]] + p[1..];
    }
  }

  /** One occurrence between text that cannot start one and text without one
      is the only thing replaced. */
  lemma {:induction false} ReplaceAllOnce(pre: string, pat: string, post: string, rep: string)
    requires |pat| > 0 && pat[0] !in pre && FindSub(post, pat).None?
    ensures ReplaceAll(pre + pat + post, pat, rep) == pre + rep + post
  {
    var t := pat + post;
    ConcatAssoc(pre, pat, post);
    ReplaceAllSkipsPrefix(pre, t, pat, rep);
    ReplaceAllAtFront(pat, post, rep);
    ConcatAssoc(pre, rep, post);
  }

  /** An occurrence at the front followed by text without one. */
  lemma {:induction false} ReplaceAllAtFront(pat: string, post: string, rep: string)
    requires |pat| > 0 && FindSub(post, pat).None?
    ensures ReplaceAll(pat + post, pat, rep) == rep + post
  {
    var t := pat + post;
    assert t[..|pat|] == pat;
    assert StartsWith(t, pat);
    assert t[|pat|..] == post;
    ReplaceAllAbsent(post, pat, rep);
  }

  lemma ConcatAssoc(a: string, b: string, c: string)
    ensures a + b + c == a + (b + c)
  {
  }
}
