/** The key-path parser `resolveKeyToArray` of HypeXAPI.js: `"a.b[2].c"`, or a
    (nested) array of such strings, becomes a flat list of property names. */
module KeyPath {
  import opened Text
  import opened JsValue

  /** Length of the run of decimal digits at the start of `s`. */
  function DigitRun(s: string): (n: nat)
    ensures n <= |s|
    ensures AllDigits(s[..n])
    ensures n < |s| ==> !IsDigit(s[n])
  {
    if s == [] || !IsDigit(s[0]) then 0
    else
      var n := DigitRun(s[1..]);
      assert s[..n + 1] == [s[0]] + s[1..][..n];
      n + 1
  }

  /** Whether `s` starts with a bracketed index `[digits]`; if so, how many digits it holds. */
  function BracketIndexAt(s: string): (n: nat)
    ensures n > 0 ==> n + 2 <= |s| && s[0] == '[' && AllDigits(s[1..n + 1]) && s[n + 1] == ']'
  {
    if s == [] || s[0] != '[' then 0
    else
      var n := DigitRun(s[1..]);
      if n > 0 && n + 1 < |s| && s[n + 1] == ']' then
        assert s[1..n + 1] == s[1..][..n];
        n
      else 0
  }

  /** `key.replace(/\[(\d+)\]/g, (m, d) => '.' + parseInt(d))`, scanned left to right. */
  function NormalizeBrackets(s: string): (r: string)
    ensures '[' !in s || ']' !in s ==> r == s
    decreases |s|
  {
    if s == [] then []
    else
      var n := BracketIndexAt(s);
      if n > 0 then "." + NatToString(DigitsValue(s[1..n + 1])) + NormalizeBrackets(s[n + 2..])
      else
        assert s == [s[0]] + s[1..];
        [s[0]] + NormalizeBrackets(s[1..])
  }

  /** `key.replace(/^\./, '')`: at most one leading dot goes. */
  function DropLeadingDot(s: string): (r: string)
    ensures |s| > 0 && s[0] == '.' ==> "." + r == s
    ensures r == s <==> |s| == 0 || s[0] != '.'
  {
    if |s| > 0 && s[0] == '.' then s[1..] else s
  }

  /** `resolveKeyToArray` on a string. */
  function ParseKeyString(key: string): (path: seq<string>)
    ensures |path| >= 1
    ensures forall i | 0 <= i < |path| :: '.' !in path[i]
    ensures Join(path, ".") == DropLeadingDot(NormalizeBrackets(key))
  {
    var normal := DropLeadingDot(NormalizeBrackets(key));
    JoinSplitOn(normal, '.');
    SplitOn(normal, '.')
  }

  function Strs(path: seq<string>): (r: seq<Value>)
    ensures |r| == |path|
    ensures forall i | 0 <= i < |r| :: r[i] == Str(path[i])
  {
    seq(|path|, i requires 0 <= i < |path| => Str(path[i]))
  }

  /** `a.concat(v)` contributes the elements of an array and any other value as itself. */
  function Spread(v: Value): seq<Value>
  {
    if v.Arr? then v.elems else [v]
  }

  /** `resolveKeyToArray(key)`: a string parses, an array parses element-wise
      through `reduce`/`concat`, anything else gives undefined. */
  function ResolveKeyToArray(key: Value): (r: Value)
    ensures key.Str? ==> r == Arr(Strs(ParseKeyString(key.s)))
    ensures key.Arr? ==> r.Arr?
    ensures !key.Str? && !key.Arr? ==> r == Undefined
    decreases key, 1
  {
    match key
    case Str(s) => Arr(Strs(ParseKeyString(s)))
    case Arr(items) => Arr(ConcatParses([], items))
    case _ => Undefined
  }

  /** The `reduce` of `resolveKeyToArray` over array items, from accumulator `acc`. */
  function ConcatParses(acc: seq<Value>, items: seq<Value>): seq<Value>
    decreases items, 0
  {
    if items == [] then acc
    else ConcatParses(acc + Spread(ResolveKeyToArray(items[0])), items[1..])
  }

  /** Reference definition: the parses of the items, concatenated in order. */
  function FlatParses(items: seq<Value>): seq<Value>
  {
    if items == [] then [] else Spread(ResolveKeyToArray(items[0])) + FlatParses(items[1..])
  }

  lemma {:induction false} ConcatParsesIsFlat(acc: seq<Value>, items: seq<Value>)
    ensures ConcatParses(acc, items) == acc + FlatParses(items)
    decreases items
  {
    if items != [] {
      var first := Spread(ResolveKeyToArray(items[0]));
      var next := acc + first;
      assert ConcatParses(acc, items) == ConcatParses(next, items[1..]);
      assert FlatParses(items) == first + FlatParses(items[1..]);
      ConcatParsesIsFlat(next, items[1..]);
      AppendAssoc(acc, first, FlatParses(items[1..]));
    }
  }

  lemma {:induction false} AppendAssoc(a: seq<Value>, b: seq<Value>, c: seq<Value>)
    ensures (a + b) + c == a + (b + c)
  {
  }

  /** An array of keys parses to the in-order concatenation of its items' parses. */
  lemma ArrayKeyConcatenates(items: seq<Value>)
    ensures ResolveKeyToArray(Arr(items)) == Arr(FlatParses(items))
  {
    ConcatParsesIsFlat([], items);
  }

  /** Two string keys: the result is the first string's path followed by the second's. */
  lemma TwoStringKeys(a: string, b: string)
    ensures ResolveKeyToArray(Arr([Str(a), Str(b)])) == Arr(Strs(ParseKeyString(a)) + Strs(ParseKeyString(b)))
  {
    var items := [Str(a), Str(b)];
    ArrayKeyConcatenates(items);
    assert items[1..] == [Str(b)];
    assert FlatParses([Str(b)]) == Strs(ParseKeyString(b)) + FlatParses([]);
    assert FlatParses(items) == Strs(ParseKeyString(a)) + FlatParses([Str(b)]);
  }

  /** A string without brackets passes the bracket normalisation unchanged. */
  lemma {:induction false} NoBracketsUnchanged(s: string)
    requires '[' !in s
    ensures NormalizeBrackets(s) == s
    decreases |s|
  {
    if s != [] {
      NoBracketsUnchanged(s[1..]);
      assert s == [s[0]] + s[1..];
    }
  }

  /** A `[digits]` group becomes `.` followed by the digits' value, leading zeros dropped. */
  lemma BracketGroup(digits: string, rest: string)
    requires |digits| >= 1 && AllDigits(digits)
    ensures NormalizeBrackets("[" + digits + "]" + rest)
         == "." + NatToString(DigitsValue(digits)) + NormalizeBrackets(rest)
  {
    var s := "[" + digits + "]" + rest;
    assert s[1..] == digits + ("]" + rest);
    DigitRunOfDigits(digits, "]" + rest);
    assert s[1..|digits| + 1] == digits;
    assert s[|digits| + 2..] == rest;
  }

  lemma {:induction false} DigitRunOfDigits(digits: string, tail: string)
    requires AllDigits(digits)
    requires tail != [] && !IsDigit(tail[0])
    ensures DigitRun(digits + tail) == |digits|
    decreases |digits|
  {
    if digits != [] {
      assert (digits + tail)[1..] == digits[1..] + tail;
      DigitRunOfDigits(digits[1..], tail);
    }
  }

  /** A plain name without dots or brackets is a one-segment path. */
  lemma PlainName(name: string)
    requires '.' !in name && '[' !in name
    ensures ParseKeyString(name) == [name]
  {
    NoBracketsUnchanged(name);
    assert IndexOfChar(name, '.') == |name|;
  }

  /** A bracket-free prefix passes through the normalisation unchanged. */
  lemma {:induction false} NoBracketsPrefix(p: string, t: string)
    requires '[' !in p
    ensures NormalizeBrackets(p + t) == p + NormalizeBrackets(t)
    decreases |p|
  {
    if p != [] {
      var s := p + t;
      assert s[0] == p[0] && s[1..] == p[1..] + t;
      NormalizePlainHead(s);
      NoBracketsPrefix(p[1..], t);
      PlainHeadRegroup(p, NormalizeBrackets(t));
    } else {
      assert p + t == t;
    }
  }

  /** A first character other than `[` is copied and the scan moves on. */
  lemma {:induction false} NormalizePlainHead(s: string)
    requires s != [] && s[0] != '['
    ensures NormalizeBrackets(s) == [s[0]] + NormalizeBrackets(s[1..])
  {
    assert BracketIndexAt(s) == 0;
  }

  lemma {:induction false} PlainHeadRegroup(p: string, u: string)
    requires p != []
    ensures [p[0]] + (p[1..] + u) == p + u
  {
    assert p == [p[0]] + p[1..];
  }

  /** One `[digits]` group between bracket-free text. */
  lemma {:induction false} NormalizeOneGroup(head: string, digits: string, tail: string)
    requires '[' !in head && '[' !in tail
    requires |digits| >= 1 && AllDigits(digits)
    ensures NormalizeBrackets(head + "[" + digits + "]" + tail)
         == head + "." + NatToString(DigitsValue(digits)) + tail
  {
    var group := "[" + digits + "]" + tail;
    GroupAfterHead(head, digits, tail);
    NormalizeGroupAfterHead(head, digits, tail, group);
    Regroup(head, NatToString(DigitsValue(digits)), tail);
  }

  lemma {:induction false} GroupAfterHead(head: string, digits: string, tail: string)
    ensures head + "[" + digits + "]" + tail == head + ("[" + digits + "]" + tail)
  {
  }

  lemma {:induction false} NormalizeGroupAfterHead(head: string, digits: string, tail: string, group: string)
    requires '[' !in head && '[' !in tail
    requires |digits| >= 1 && AllDigits(digits)
    requires group == "[" + digits + "]" + tail
    ensures NormalizeBrackets(head + group) == head + ("." + NatToString(DigitsValue(digits)) + tail)
  {
    NoBracketsPrefix(head, group);
    BracketGroup(digits, tail);
    NoBracketsUnchanged(tail);
  }

  lemma {:induction false} Regroup(head: string, value: string, tail: string)
    ensures head + ("." + value + tail) == head + "." + value + tail
  {
  }

  /** The path of a normalised key that has no leading dot is its dot-separated parts. */
  lemma ParseOfParts(key: string, parts: seq<string>)
    requires |parts| >= 1 && forall i | 0 <= i < |parts| :: '.' !in parts[i]
    requires NormalizeBrackets(key) == Join(parts, ".")
    requires |parts[0]| > 0
    ensures ParseKeyString(key) == parts
  {
    var n := Join(parts, ".");
    if |parts| > 1 {
      assert n == parts[0] + "." + Join(parts[1..], ".");
    }
    assert n[0] == parts[0][0] && n[0] != '.';
    SplitOnJoin(parts, '.');
  }

  /** `a.b[d].c` with plain names and a canonical index is the path `[a, b, d, c]`. */
  lemma {:induction false} ParseWithIndex(a: string, b: string, d: string, c: string)
    requires |a| > 0 && '.' !in a && '[' !in a
    requires '.' !in b && '[' !in b && '.' !in c && '[' !in c
    requires Canonical(d)
    ensures ParseKeyString(a + "." + b + "[" + d + "]." + c) == [a, b, d, c]
  {
    var key := a + "." + b + "[" + d + "]." + c;
    IndexKeyShape(a, b, d, c);
    NormalizeOneGroup(a + "." + b, d, "." + c);
    NatToStringOfDigitsValue(d);
    JoinFour(a, b, d, c);
    CanonicalHasNoDot(d);
    ParseOfParts(key, [a, b, d, c]);
  }

  lemma {:induction false} IndexKeyShape(a: string, b: string, d: string, c: string)
    requires '[' !in a && '[' !in b
    ensures a + "." + b + "[" + d + "]." + c == (a + "." + b) + "[" + d + "]" + ("." + c)
    ensures '[' !in a + "." + b
  {
  }

  lemma {:induction false} JoinFour(a: string, b: string, d: string, c: string)
    ensures Join([a, b, d, c], ".") == (a + "." + b) + "." + d + ("." + c)
  {
    var parts := [a, b, d, c];
    assert parts[3..] == [c];
    assert Join(parts[2..], ".") == d + "." + c;
    assert Join(parts[1..], ".") == b + "." + (d + "." + c);
    assert Join(parts, ".") == a + "." + (b + "." + (d + "." + c));
  }

  lemma {:induction false} CanonicalHasNoDot(d: string)
    requires Canonical(d)
    ensures '.' !in d
  {
    assert forall k | 0 <= k < |d| :: IsDigit(d[k]);
  }

  /** `a.b[2].c` names four steps; the key is a parameter fixed by a
      `requires` so that the solver works with it by name. */
  lemma ParseExampleDotted(key: string)
    requires key == "a.b[2].c"
    ensures ParseKeyString(key) == ["a", "b", "2", "c"]
  {
    assert key == "a" + "." + "b" + "[" + "2" + "]." + "c";
    assert Canonical("2");
    ParseWithIndex("a", "b", "2", "c");
  }

  /** A name followed by one trailing index: the index is read as a number,
      so leading zeros disappear. */
  lemma {:induction false} ParseTrailingIndex(a: string, d: string)
    requires |a| > 0 && '.' !in a && '[' !in a
    requires |d| >= 1 && AllDigits(d)
    ensures ParseKeyString(a + "[" + d + "]") == [a, NatToString(DigitsValue(d))]
  {
    var key := a + "[" + d + "]";
    var v := NatToString(DigitsValue(d));
    assert key == a + "[" + d + "]" + "";
    NormalizeOneGroup(a, d, "");
    CanonicalHasNoDot(v);
    assert a + "." + v + "" == Join([a, v], ".");
    ParseOfParts(key, [a, v]);
  }

  /** `x[007]` reads index 7; the key is a parameter fixed by a `requires`
      so that the solver works with it by name. */
  lemma {:induction false} ParseExampleLeadingZeros(key: string)
    requires key == "x[007]"
    ensures ParseKeyString(key) == ["x", "7"]
  {
    assert key == "x" + "[" + "007" + "]";
    ParseTrailingIndex("x", "007");
    assert DigitsValue("007") == 7 by {
      assert DigitsValue("00") == 0;
    }
    assert NatToString(7) == "7";
  }

  lemma ParseExampleDots()
    ensures ParseKeyString(".a") == ["a"]
    ensures ParseKeyString("..a") == ["", "a"]
    ensures ParseKeyString("") == [""]
  {
    NoBracketsUnchanged(".a");
    NoBracketsUnchanged("..a");
    SplitOnJoin(["", "a"], '.');
    PlainName("a");
  }
}
