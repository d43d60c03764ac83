/** `remove_empty_lines` of the export script: split into lines, drop the
    blank ones, strip trailing whitespace from the rest, join with `\n`.
    The script runs under Python 2, so `str` methods work on bytes: lines
    end at `\n`, `\r` or `\r\n`, and whitespace is the six ASCII characters
    below. */
module ExportLines {
  import opened Text

  /** The characters `strip` and `rstrip` remove. */
  predicate IsSpace(c: char) {
    c == ' ' || c == '\t' || c == '\n' || c == '\r' || c == '\U{B}' || c == '\U{C}'
  }

  /** The characters `splitlines` ends a line at. */
  predicate IsBreak(c: char) {
    c == '\n' || c == '\r'
  }

  /** `line.strip()` is the empty string. */
  predicate IsBlank(s: string) {
    forall i | 0 <= i < |s| :: IsSpace(s[i])
  }

  predicate NoBreaks(s: string) {
    forall i | 0 <= i < |s| :: !IsBreak(s[i])
  }

  /** `line.rstrip()` leaves `line` as it is. */
  predicate NoTrailingSpace(s: string) {
    s == [] || !IsSpace(s[|s| - 1])
  }

  /** `s.rstrip()`: the longest prefix of `s` that does not end in whitespace. */
  function RStrip(s: string): (r: string)
    ensures |r| <= |s| && r == s[..|r|]
    ensures NoTrailingSpace(r)
    ensures forall i | |r| <= i < |s| :: IsSpace(s[i])
    decreases |s|
  {
    if s == [] || !IsSpace(s[|s| - 1]) then s else RStrip(s[..|s| - 1])
  }

  /** A line that is not blank keeps a non-space character through `rstrip`. */
  lemma RStripNotBlank(s: string)
    requires !IsBlank(s)
    ensures !IsBlank(RStrip(s))
  {
    var j :| 0 <= j < |s| && !IsSpace(s[j]);
    var r := RStrip(s);
    assert j < |r|;
    assert r[j] == s[j];
  }

  lemma RStripNoBreaks(s: string)
    ensures NoBreaks(s) ==> NoBreaks(RStrip(s))
  {
    var r := RStrip(s);
    assert forall i | 0 <= i < |r| :: r[i] == s[i];
  }

  /** Index of the first line break of `s`, or `|s|` when there is none. */
  function LineEnd(s: string): (i: nat)
    ensures i <= |s|
    ensures forall k | 0 <= k < i :: !IsBreak(s[k])
    ensures i < |s| ==> IsBreak(s[i])
    decreases |s|
  {
    if s == [] || IsBreak(s[0]) then 0 else 1 + LineEnd(s[1..])
  }

  /** Python 2 `str.splitlines()`: a line ends at `\n`, `\r` or `\r\n`, and a
      terminator at the very end opens no further line. */
  function SplitLines(s: string): (lines: seq<string>)
    ensures forall k | 0 <= k < |lines| :: NoBreaks(lines[k])
    ensures s == [] <==> lines == []
    decreases |s|
  {
    if s == [] then []
    else
      var i := LineEnd(s);
      if i == |s| then [s]
      else
        var next := if s[i] == '\r' && i + 1 < |s| && s[i + 1] == '\n' then i + 2 else i + 1;
        [s[..i]] + SplitLines(s[next..])
  }

  /** `[ll.rstrip() for ll in lines if ll.strip()]`. */
  function KeptLines(lines: seq<string>): (kept: seq<string>)
    ensures |kept| <= |lines|
    ensures forall k | 0 <= k < |kept| :: !IsBlank(kept[k]) && NoTrailingSpace(kept[k])
    ensures (forall k | 0 <= k < |lines| :: NoBreaks(lines[k])) ==> forall k | 0 <= k < |kept| :: NoBreaks(kept[k])
  {
    if lines == [] then []
    else
      if IsBlank(lines[0]) then KeptLines(lines[1..])
      else
        RStripNotBlank(lines[0]);
        RStripNoBreaks(lines[0]);
        [RStrip(lines[0])] + KeptLines(lines[1..])
  }

  /** `remove_empty_lines(s)`. */
  function RemoveEmptyLines(s: string): (r: string)
    ensures SplitLines(r) == KeptLines(SplitLines(s))
    ensures forall i | 0 <= i < |r| :: r[i] != '\r'
    ensures r == [] || r[|r| - 1] != '\n'
  {
    var kept := KeptLines(SplitLines(s));
    SplitLinesOfJoin(kept);
    JoinedLinesShape(kept);
    Join(kept, "\n")
  }

  /** Non-empty break-free lines joined with `\n`: the only breaks are the
      `\n` separators, and the text does not end in one. */
  lemma {:induction false} JoinedLinesShape(lines: seq<string>)
    requires forall k | 0 <= k < |lines| :: |lines[k]| > 0 && NoBreaks(lines[k])
    ensures var j := Join(lines, "\n"); forall i | 0 <= i < |j| :: j[i] != '\r'
    ensures var j := Join(lines, "\n"); (lines == [] <==> j == []) && (j == [] || j[|j| - 1] != '\n')
    decreases |lines|
  {
    if |lines| == 1 {
      var a := lines[0];
      assert a[|a| - 1] != '\n';
      assert forall i | 0 <= i < |a| :: a[i] != '\r';
    } else if |lines| > 1 {
      var a := lines[0];
      var rest := Join(lines[1..], "\n");
      JoinedLinesShape(lines[1..]);
      var j := a + "\n" + rest;
      assert Join(lines, "\n") == j;
      assert forall i | 0 <= i < |a| :: j[i] == a[i];
      assert forall i | |a| < i < |j| :: j[i] == rest[i - |a| - 1];
    }
  }

  lemma {:induction false} LineEndAfterPlain(a: string, t: string)
    requires NoBreaks(a)
    ensures LineEnd(a + t) == |a| + LineEnd(t)
    decreases |a|
  {
    if a != [] {
      assert (a + t)[1..] == a[1..] + t;
      LineEndAfterPlain(a[1..], t);
    } else {
      assert a + t == t;
    }
  }

  /** A break-free line followed by `\n` is split off as one line. */
  lemma SplitLinesStep(a: string, rest: string)
    requires |a| > 0 && NoBreaks(a)
    ensures SplitLines(a + "\n" + rest) == [a] + SplitLines(rest)
  {
    var s := a + "\n" + rest;
    assert s == a + ("\n" + rest);
    LineEndAfterPlain(a, "\n" + rest);
    var i := |a|;
    assert LineEnd(s) == i;
    assert s[..i] == a;
    assert s[i] == '\n';
    assert s[i + 1..] == rest;
  }

  /** Joining non-empty break-free lines with `\n` and splitting again gives them back. */
  lemma {:induction false} SplitLinesOfJoin(lines: seq<string>)
    requires forall k | 0 <= k < |lines| :: |lines[k]| > 0 && NoBreaks(lines[k])
    ensures SplitLines(Join(lines, "\n")) == lines
    decreases |lines|
  {
    if |lines| == 1 {
      LineEndAfterPlain(lines[0], []);
      assert lines[0] + [] == lines[0];
    } else if |lines| > 1 {
      SplitLinesStep(lines[0], Join(lines[1..], "\n"));
      SplitLinesOfJoin(lines[1..]);
      assert lines == [lines[0]] + lines[1..];
    }
  }

  /** No `\r` anywhere in the text. */
  predicate NoReturns(s: string) {
    forall i | 0 <= i < |s| :: s[i] != '\r'
  }

  /** Text whose only breaks are `\n` and that does not end in one is the
      `\n`-join of its own lines. */
  lemma {:induction false} JoinOfSplitLines(r: string)
    requires NoReturns(r)
    requires r == [] || r[|r| - 1] != '\n'
    ensures Join(SplitLines(r), "\n") == r
    decreases |r|
  {
    if r != [] && LineEnd(r) < |r| {
      var i := LineEnd(r);
      NewlineSplit(r, i);
      JoinOfSplitLines(r[i + 1..]);
      JoinAfterNewline(r, i);
    }
  }

  /** The first break of such a text is a `\n` with more such text after it. */
  lemma {:induction false} NewlineSplit(r: string, i: nat)
    requires NoReturns(r)
    requires r == [] || r[|r| - 1] != '\n'
    requires i == LineEnd(r) && i < |r|
    ensures r[i] == '\n'
    ensures var rest := r[i + 1..]; |rest| > 0 && rest[|rest| - 1] != '\n' && NoReturns(rest)
  {
    assert r[i] != '\r';
    var rest := r[i + 1..];
    assert forall k | 0 <= k < |rest| :: rest[k] == r[i + 1 + k];
  }

  /** Joining the lines of a text whose first break is `\n` puts it back. */
  lemma {:induction false} JoinAfterNewline(r: string, i: nat)
    requires i == LineEnd(r) && i < |r| && r[i] == '\n' && |r[i + 1..]| > 0
    requires Join(SplitLines(r[i + 1..]), "\n") == r[i + 1..]
    ensures Join(SplitLines(r), "\n") == r
  {
    SplitLinesAtNewline(r);
    JoinCons(r[..i], SplitLines(r[i + 1..]));
    AroundNewline(r, i);
  }

  lemma {:induction false} AroundNewline(r: string, i: nat)
    requires i < |r| && r[i] == '\n'
    ensures r[..i] + "\n" + r[i + 1..] == r
  {
  }

  /** A first break that is `\n` ends the first line. */
  lemma {:induction false} SplitLinesAtNewline(r: string)
    requires LineEnd(r) < |r| && r[LineEnd(r)] == '\n'
    ensures SplitLines(r) == [r[..LineEnd(r)]] + SplitLines(r[LineEnd(r) + 1..])
  {
  }

  /** `Join` of a line in front of at least one more line. */
  lemma {:induction false} JoinCons(a: string, tail: seq<string>)
    requires |tail| > 0
    ensures Join([a] + tail, "\n") == a + "\n" + Join(tail, "\n")
  {
    assert ([a] + tail)[0] == a;
    assert ([a] + tail)[1..] == tail;
  }

  /** The contract of `RemoveEmptyLines` determines its output: any text with
      the same lines, no `\r` and no final `\n` is that output. */
  lemma RemoveEmptyLinesDetermined(s: string, r: string)
    requires SplitLines(r) == KeptLines(SplitLines(s))
    requires NoReturns(r)
    requires r == [] || r[|r| - 1] != '\n'
    ensures r == RemoveEmptyLines(s)
  {
    JoinOfSplitLines(r);
    JoinOfSplitLines(RemoveEmptyLines(s));
  }

  /** Lines that are already clean pass through unchanged. */
  lemma {:induction false} KeptLinesOfClean(lines: seq<string>)
    requires forall k | 0 <= k < |lines| :: !IsBlank(lines[k]) && NoTrailingSpace(lines[k])
    ensures KeptLines(lines) == lines
    decreases |lines|
  {
    if lines != [] {
      assert RStrip(lines[0]) == lines[0];
      KeptLinesOfClean(lines[1..]);
      assert lines == [lines[0]] + lines[1..];
    }
  }

  /** Removing empty lines twice is the same as once. */
  lemma RemoveEmptyLinesIdempotent(s: string)
    ensures RemoveEmptyLines(RemoveEmptyLines(s)) == RemoveEmptyLines(s)
  {
    KeptLinesOfClean(KeptLines(SplitLines(s)));
  }
}
