/** `str.splitlines(keepends=True)` and its inverse. */
module Lines {

  /** The single-character line boundaries of `str.splitlines`. */
  predicate IsBreak(c: char) {
    || c == '\n' || c == '\r' || c == '\U{000B}' || c == '\U{000C}'
    || c == '\U{001C}' || c == '\U{001D}' || c == '\U{001E}'
    || c == '\U{0085}' || c == '\U{2028}' || c == '\U{2029}'
  }

  /** The length of the first line with its terminator; CR LF counts as one terminator. */
  function LineEnd(t: string): (n: nat)
    requires t != ""
    ensures 0 < n <= |t|
  {
    if t[0] == '\r' && |t| > 1 && t[1] == '\n' then 2
    else if IsBreak(t[0]) || |t| == 1 then 1
    else 1 + LineEnd(t[1..])
  }

  function SplitLines(t: string): seq<string>
    decreases |t|
  {
    if t == "" then [] else [t[..LineEnd(t)]] + SplitLines(t[LineEnd(t)..])
  }

  /** `"".join(lines)` */
  function JoinLines(lines: seq<string>): string {
    if lines == [] then "" else lines[0] + JoinLines(lines[1..])
  }

  lemma JoinTwo(a: string, b: string)
    ensures JoinLines([a, b]) == a + b
  {
    assert [a, b][1..] == [b] && [b][1..] == [];
    assert JoinLines([b]) == b;
  }

  /** One line: a boundary occurs only at its end. */
  predicate IsLine(l: string) {
    l != "" && LineEnd(l) == |l|
  }

  const BOUNDARIES := "\n\r\U{000B}\U{000C}\U{001C}\U{001D}\U{001E}\U{0085}\U{2028}\U{2029}"

  lemma BreakIff(c: char)
    ensures IsBreak(c) <==> c in BOUNDARIES
  {
    assert BOUNDARIES[0] == '\n' && BOUNDARIES[1] == '\r' && BOUNDARIES[2] == '\U{000B}' && BOUNDARIES[3] == '\U{000C}';
    assert BOUNDARIES[4] == '\U{001C}' && BOUNDARIES[5] == '\U{001D}' && BOUNDARIES[6] == '\U{001E}';
    assert BOUNDARIES[7] == '\U{0085}' && BOUNDARIES[8] == '\U{2028}' && BOUNDARIES[9] == '\U{2029}';
  }

  /** No boundary at `k`, but for the CR of a final CR LF. */
  predicate QuietAt(l: string, k: nat)
    requires k + 1 < |l|
  {
    l[k] in BOUNDARIES ==> k + 2 == |l| && l[k] == '\r' && l[k + 1] == '\n'
  }

  /** The same without counting: no boundary before the last character. */
  predicate HasNoInnerBreak(l: string) {
    l != "" && forall k :: 0 <= k < |l| - 1 ==> QuietAt(l, k)
  }

  lemma {:induction false} LineIffNoInnerBreak(l: string)
    ensures IsLine(l) <==> HasNoInnerBreak(l)
    decreases |l|
  {
    hide BOUNDARIES;
    if |l| > 1 {
      var rest := l[1..];
      LineIffNoInnerBreak(rest);
      BreakIff(l[0]);
      forall k: nat | k + 1 < |rest| ensures QuietAt(rest, k) <==> QuietAt(l, k + 1) {
        assert rest[k] == l[k + 1] && rest[k + 1] == l[k + 2];
      }
      assert QuietAt(l, 0) <==> !IsBreak(l[0]) || (|l| == 2 && l[0] == '\r' && l[1] == '\n');
      assert HasNoInnerBreak(l) ==> QuietAt(l, 0);
      if HasNoInnerBreak(rest) && QuietAt(l, 0) {
        forall k | 0 <= k < |l| - 1 ensures QuietAt(l, k) {
          assert k > 0 ==> QuietAt(rest, k - 1);
        }
      }
    }
  }

  predicate Terminated(l: string) {
    l != "" && IsBreak(l[|l| - 1])
  }

  /** No CR of one line meets an LF of the next. */
  predicate NoJunction(l: string, next: string) {
    l != "" && next != "" && l[|l| - 1] == '\r' ==> next[0] != '\n'
  }

  /** A list of lines that splitting can produce. */
  ghost predicate IsSplit(lines: seq<string>) {
    && (forall i :: 0 <= i < |lines| ==> IsLine(lines[i]))
    && (forall i :: 0 <= i < |lines| - 1 ==> Terminated(lines[i]) && NoJunction(lines[i], lines[i + 1]))
  }

  lemma {:induction false} JoinSplit(t: string)
    ensures JoinLines(SplitLines(t)) == t
    decreases |t|
  {
    if t != "" {
      var n := LineEnd(t);
      JoinSplit(t[n..]);
      var lines := [t[..n]] + SplitLines(t[n..]);
      assert lines[1..] == SplitLines(t[n..]);
      assert t[..n] + t[n..] == t;
    }
  }

  lemma {:induction false} JoinAppend(a: seq<string>, b: seq<string>)
    ensures JoinLines(a + b) == JoinLines(a) + JoinLines(b)
  {
    if a == [] {
      assert a + b == b;
    } else {
      assert (a + b)[1..] == a[1..] + b;
      JoinAppend(a[1..], b);
      assert a[0] + (JoinLines(a[1..]) + JoinLines(b)) == a[0] + JoinLines(a[1..]) + JoinLines(b);
    }
  }

  /** The first line of a text is a line, and depends on nothing after it. */
  lemma {:induction false} FirstLine(t: string)
    requires t != ""
    ensures var n := LineEnd(t);
            && IsLine(t[..n])
            && (n < |t| ==> Terminated(t[..n]) && NoJunction(t[..n], t[n..]))
    decreases |t|
  {
    var n := LineEnd(t);
    if !(t[0] == '\r' && |t| > 1 && t[1] == '\n') && !IsBreak(t[0]) && |t| > 1 {
      FirstLine(t[1..]);
      var m := LineEnd(t[1..]);
      assert t[1..][..m] == t[..n][1..];
      assert t[1..][m..] == t[n..];
    }
  }

  lemma {:induction false} SplitIsSplit(t: string)
    ensures IsSplit(SplitLines(t))
    decreases |t|
  {
    if t != "" {
      var n := LineEnd(t);
      FirstLine(t);
      SplitIsSplit(t[n..]);
      if n < |t| {
        var m := LineEnd(t[n..]);
        assert SplitLines(t)[1] == t[n..][..m];
        assert SplitLines(t)[1][0] == t[n..][0];
      }
    }
  }

  lemma {:induction false} LineEndOfLine(l: string, rest: string)
    requires IsLine(l) && (rest != "" ==> Terminated(l) && NoJunction(l, rest))
    ensures LineEnd(l + rest) == |l|
    decreases |l|
  {
    if |l| > 1 && !(l[0] == '\r' && l[1] == '\n') {
      assert !IsBreak(l[0]);
      assert (l + rest)[1..] == l[1..] + rest;
      LineEndOfLine(l[1..], rest);
    }
  }

  /** Splitting undoes joining: texts and line lists correspond one to one. */
  lemma {:induction false} SplitJoin(lines: seq<string>)
    requires IsSplit(lines)
    ensures SplitLines(JoinLines(lines)) == lines
  {
    if lines != [] {
      var rest := JoinLines(lines[1..]);
      SplitJoin(lines[1..]);
      if |lines| > 1 {
        assert rest[0] == lines[1][0];
      }
      LineEndOfLine(lines[0], rest);
      assert (lines[0] + rest)[..|lines[0]|] == lines[0];
      assert (lines[0] + rest)[|lines[0]|..] == rest;
    }
  }

  /** Appending split lists, the first of them fully terminated. */
  lemma SplitAppend(a: seq<string>, b: seq<string>)
    requires IsSplit(a) && IsSplit(b)
    requires a != [] && b != [] ==> Terminated(a[|a| - 1]) && NoJunction(a[|a| - 1], b[0])
    ensures IsSplit(a + b)
  {
  }
}
