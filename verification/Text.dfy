/** String search and replacement as the Python scripts use them. */
module Text {

  datatype Option<+T> = None | Some(value: T)

  /** `w` occurs in `s` starting at index `i`. */
  predicate At(s: string, i: int, w: string) {
    0 <= i && i + |w| <= |s| && s[i..i + |w|] == w
  }

  /** Python's `w in s`. */
  predicate Contains(s: string, w: string) {
    exists i :: 0 <= i <= |s| && At(s, i, w)
  }

  predicate StartsWith(s: string, w: string) {
    |w| <= |s| && s[..|w|] == w
  }

  lemma StartsWithAt(s: string, w: string, k: nat)
    requires k < |w|
    ensures StartsWith(s, w) ==> s[k] == w[k]
  {
    if StartsWith(s, w) {
      assert s[k] == s[..|w|][k];
    }
  }

  predicate EndsWith(s: string, w: string) {
    |w| <= |s| && s[|s| - |w|..] == w
  }

  /** The leftmost occurrence of `w` in `s` at or after `from`, or -1: `str.find`. */
  function FindFrom(s: string, w: string, from: nat): (r: int)
    requires from <= |s|
    ensures r == -1 || from <= r <= |s|
    ensures r >= 0 ==> At(s, r, w)
    ensures forall j :: from <= j && (r == -1 || j < r) ==> !At(s, j, w)
    decreases |s| - from
  {
    if At(s, from, w) then from
    else if from == |s| then -1
    else FindFrom(s, w, from + 1)
  }

  function Find(s: string, w: string): (r: int)
    ensures r == -1 || 0 <= r <= |s| - |w|
    ensures r >= 0 ==> At(s, r, w)
    ensures forall j :: 0 <= j && (r == -1 || j < r) ==> !At(s, j, w)
  {
    FindFrom(s, w, 0)
  }

  lemma ContainsIffFound(s: string, w: string)
    ensures Contains(s, w) <==> Find(s, w) >= 0
  {
  }

  /** `str.replace(w, mask)` for a non-empty `w`: leftmost, left to right, non-overlapping. */
  function Replace(s: string, w: string, mask: string): string
    requires w != ""
    decreases |s|
  {
    var i := Find(s, w);
    if i < 0 then s else s[..i] + mask + Replace(s[i + |w|..], w, mask)
  }

  lemma AtInSlice(s: string, lo: int, hi: int, i: int, w: string)
    requires 0 <= lo <= hi <= |s|
    requires At(s[lo..hi], i, w)
    ensures At(s, lo + i, w)
  {
    forall k | 0 <= k < |w| ensures s[lo + i..lo + i + |w|][k] == w[k] {
      assert s[lo..hi][i + k] == s[lo + i + k];
    }
  }

  lemma AtIntoSlice(s: string, lo: int, hi: int, i: int, w: string)
    requires 0 <= lo <= i && i + |w| <= hi <= |s|
    requires At(s, i, w)
    ensures At(s[lo..hi], i - lo, w)
  {
    forall k | 0 <= k < |w| ensures s[lo..hi][i - lo..i - lo + |w|][k] == w[k] {
      assert s[lo..hi][i - lo + k] == s[i + k];
    }
  }

  /** An occurrence in a part is an occurrence in the whole, and conversely if it lies inside. */
  lemma AtInMiddle(a: string, b: string, c: string, i: int, w: string)
    ensures At(b, i, w) ==> At(a + b + c, |a| + i, w)
    ensures 0 <= i && i + |w| <= |b| && At(a + b + c, |a| + i, w) ==> At(b, i, w)
  {
    var s := a + b + c;
    if 0 <= i && i + |w| <= |b| {
      assert s[|a| + i..|a| + i + |w|] == b[i..i + |w|];
    }
  }

  lemma ContainsInMiddle(a: string, b: string, c: string, w: string)
    requires Contains(b, w)
    ensures Contains(a + b + c, w)
  {
    var i :| 0 <= i <= |b| && At(b, i, w);
    AtInMiddle(a, b, c, i, w);
  }

  /** Every character of a contained text is one of the whole. */
  lemma ContainedIsMadeOf(s: string, w: string, k: nat)
    requires k < |w|
    ensures Contains(s, w) ==> w[k] in s
  {
    forall i | 0 <= i <= |s| && At(s, i, w) ensures w[k] in s {
      assert s[i + k] == s[i..i + |w|][k];
    }
  }

  lemma ContainsTransitive(s: string, w: string, v: string)
    requires Contains(s, w) && Contains(w, v)
    ensures Contains(s, v)
  {
    var i :| 0 <= i <= |s| && At(s, i, w);
    assert s == s[..i] + w + s[i + |w|..];
    ContainsInMiddle(s[..i], w, s[i + |w|..], v);
  }

  /** `str.isspace` for one character. */
  predicate IsSpace(c: char) {
    || '\t' <= c <= '\r' || '\U{001C}' <= c <= ' ' || c == '\U{0085}' || c == '\U{00A0}'
    || c == '\U{1680}' || '\U{2000}' <= c <= '\U{200A}' || c == '\U{2028}' || c == '\U{2029}'
    || c == '\U{202F}' || c == '\U{205F}' || c == '\U{3000}'
  }

  predicate Only(s: string, out: char -> bool) {
    forall i :: 0 <= i < |s| ==> out(s[i])
  }

  function StripLeft(s: string, out: char -> bool): (r: string)
    ensures |r| <= |s| && (r != "" ==> !out(r[0]))
    ensures s != "" && out(s[0]) ==> |r| < |s|
  {
    if s != "" && out(s[0]) then StripLeft(s[1..], out) else s
  }

  function StripRight(s: string, out: char -> bool): (r: string)
    ensures r <= s && (r != "" ==> !out(r[|r| - 1]))
  {
    if s != "" && out(s[|s| - 1]) then StripRight(s[..|s| - 1], out) else s
  }

  /** `str.strip` with the set of characters to take off both ends. */
  function Strip(s: string, out: char -> bool): string {
    StripRight(StripLeft(s, out), out)
  }

  /** `str.strip()` */
  function Trim(s: string): string {
    Strip(s, IsSpace)
  }

  lemma {:induction false} StripLeftOf(lead: string, rest: string, out: char -> bool)
    requires Only(lead, out) && (rest != "" ==> !out(rest[0]))
    ensures StripLeft(lead + rest, out) == rest
    decreases |lead|
  {
    if lead == "" {
      assert lead + rest == rest;
    } else {
      assert (lead + rest)[1..] == lead[1..] + rest;
      StripLeftOf(lead[1..], rest, out);
    }
  }

  lemma {:induction false} StripRightOf(front: string, tail: string, out: char -> bool)
    requires Only(tail, out) && (front != "" ==> !out(front[|front| - 1]))
    ensures StripRight(front + tail, out) == front
    decreases |tail|
  {
    if tail == "" {
      assert front + tail == front;
    } else {
      assert (front + tail)[..|front + tail| - 1] == front + tail[..|tail| - 1];
      StripRightOf(front, tail[..|tail| - 1], out);
    }
  }

  /** A text that has none of the characters at its ends. */
  predicate IsCore(core: string, out: char -> bool) {
    core != "" ==> !out(core[0]) && !out(core[|core| - 1])
  }

  /** Stripping takes off all characters at both ends, and nothing else; an empty core is a text of only such characters. */
  lemma StripOf(lead: string, core: string, tail: string, out: char -> bool)
    requires Only(lead, out) && Only(tail, out) && IsCore(core, out)
    ensures Strip(lead + core + tail, out) == core
  {
    if core == "" {
      assert lead + core + tail == (lead + tail) + "";
      StripLeftOf(lead + tail, "", out);
    } else {
      assert lead + core + tail == lead + (core + tail);
      StripLeftOf(lead, core + tail, out);
      StripRightOf(core, tail, out);
    }
  }

  lemma EmptyCoreIff(lead: string, core: string, tail: string, out: char -> bool)
    requires Only(lead, out) && Only(tail, out) && IsCore(core, out)
    ensures core == "" <==> Only(lead + core + tail, out)
  {
    var s := lead + core + tail;
    if core == "" {
      assert forall i :: 0 <= i < |s| ==> s[i] == if i < |lead| then lead[i] else tail[i - |lead|];
    } else {
      assert s[|lead|] == core[0];
    }
  }

  lemma {:induction false} Leading(s: string, out: char -> bool) returns (n: nat)
    ensures n <= |s| && Only(s[..n], out) && (n < |s| ==> !out(s[n]))
  {
    n := 0;
    if s != "" && out(s[0]) {
      var k := Leading(s[1..], out);
      n := k + 1;
      assert s[..n] == [s[0]] + s[1..][..k];
    }
  }

  lemma {:induction false} Trailing(s: string, out: char -> bool) returns (n: nat)
    ensures n <= |s| && Only(s[n..], out) && (n > 0 ==> !out(s[n - 1]))
  {
    n := |s|;
    if s != "" && out(s[|s| - 1]) {
      n := Trailing(s[..|s| - 1], out);
      assert s[n..] == s[..|s| - 1][n..] + [s[|s| - 1]];
    }
  }

  /** Every text is a core between characters to strip, so StripOf speaks of every text. */
  lemma StripSplits(s: string, out: char -> bool) returns (lead: string, core: string, tail: string)
    ensures s == lead + core + tail && Only(lead, out) && Only(tail, out) && IsCore(core, out)
    ensures Strip(s, out) == core
  {
    var n := Leading(s, out);
    var rest := s[n..];
    var m := Trailing(rest, out);
    lead, core, tail := s[..n], rest[..m], rest[m..];
    StripOf(lead, core, tail, out);
  }
}
