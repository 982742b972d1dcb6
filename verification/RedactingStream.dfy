/** `_RedactingTextStream`: a text stream wrapper that redacts each write on its own. */
module RedactingStream {
  import opened Text
  import opened Redaction

  class RedactingTextStream {
    var sink: string                // what the wrapped stream has received
    const passes: seq<Secret>

    /** `order` is the tie order that sorting the secret set by length happened to give. */
    constructor (secrets: set<string>, order: seq<Secret>)
      requires IsPassOrder(order, secrets)
      ensures passes == order && sink == ""
    {
      passes := order;
      sink := "";
    }

    method Write(value: string) returns (count: nat)
      modifies this
      ensures sink == old(sink) + Redact(passes, value)
      ensures count == |value|
    {
      var redacted := value;
      for k := 0 to |passes|
        invariant redacted == Redact(passes[..k], value)
        invariant sink == old(sink)
      {
        assert passes[..k + 1][..k] == passes[..k];
        redacted := Replace(redacted, passes[k], MASK);
      }
      assert passes[..|passes|] == passes;
      sink := sink + redacted;
      count := |value|;
    }
  }

  /** What the wrapped stream has received after a run of writes. */
  function Written(passes: seq<Secret>, writes: seq<string>): string {
    if writes == [] then ""
    else Written(passes, writes[..|writes| - 1]) + Redact(passes, writes[|writes| - 1])
  }

  /** The interval [i, i + n) of the stream was produced by a single write. */
  ghost predicate WithinOneWrite(passes: seq<Secret>, writes: seq<string>, i: int, n: nat) {
    exists k :: 0 <= k < |writes| && |Written(passes, writes[..k])| <= i
             && i + n <= |Written(passes, writes[..k + 1])|
  }

  lemma WrittenStep(passes: seq<Secret>, writes: seq<string>, k: nat)
    requires k < |writes|
    ensures Written(passes, writes[..k + 1]) == Written(passes, writes[..k]) + Redact(passes, writes[k])
  {
    assert writes[..k + 1][..k] == writes[..k];
  }

  lemma {:induction false} WrittenPrefix(passes: seq<Secret>, writes: seq<string>, k: nat)
    requires k <= |writes|
    ensures Written(passes, writes[..k]) <= Written(passes, writes)
    decreases |writes| - k
  {
    if k < |writes| {
      WrittenStep(passes, writes, k);
      WrittenPrefix(passes, writes, k + 1);
    } else {
      assert writes[..k] == writes;
    }
  }

  lemma AtInChunk(all: string, before: string, chunk: string, i: int, w: Secret)
    requires before + chunk <= all && At(all, i, w)
    requires |before| <= i && i + |w| <= |before + chunk|
    ensures Contains(chunk, w)
  {
    assert before + chunk + all[|before + chunk|..] == all;
    AtInMiddle(before, chunk, all[|before + chunk|..], i - |before|, w);
  }

  /** Over any run, a clean secret can show in the stream only across a boundary between two writes. */
  lemma SecretOnlyAcrossWrites(passes: seq<Secret>, writes: seq<string>, w: Secret, i: int)
    requires w in passes && Clean(w) && At(Written(passes, writes), i, w)
    ensures !WithinOneWrite(passes, writes, i, |w|)
  {
    if WithinOneWrite(passes, writes, i, |w|) {
      var k :| 0 <= k < |writes| && |Written(passes, writes[..k])| <= i
            && i + |w| <= |Written(passes, writes[..k + 1])|;
      WrittenStep(passes, writes, k);
      WrittenPrefix(passes, writes, k + 1);
      var chunk := Redact(passes, writes[k]);
      AtInChunk(Written(passes, writes), Written(passes, writes[..k]), chunk, i, w);
      CleanSecretNeverWritten(passes, writes[k], w);
    }
  }

  // ---------------------------------------------------------------- the stream as a masking of all that was written

  function Concat(writes: seq<string>): string {
    if writes == [] then "" else Concat(writes[..|writes| - 1]) + writes[|writes| - 1]
  }

  /** Two markings side by side: the last plain stretch of the one runs on into the first of the other. */
  function Join(a: Marked, b: Marked): Marked {
    match a
    case End(t) => Lead(t, b)
    case Then(p, s, rest) => Then(p, s, Join(rest, b))
  }

  function Lead(t: string, m: Marked): Marked {
    match m
    case End(u) => End(t + u)
    case Then(p, s, rest) => Then(t + p, s, rest)
  }

  /** The markings of the single writes, joined. */
  function StreamMarking(passes: seq<Secret>, writes: seq<string>): Marked {
    if writes == [] then End("")
    else Join(StreamMarking(passes, writes[..|writes| - 1]), Marking(passes, writes[|writes| - 1]))
  }

  lemma LeadFacts(t: string, m: Marked, ss: seq<string>)
    ensures Source(Lead(t, m)) == t + Source(m) && Render(Lead(t, m)) == t + Render(m)
    ensures SecretsFrom(Lead(t, m), ss) <==> SecretsFrom(m, ss)
  {
    match m
    case End(u) =>
    case Then(p, s, rest) =>
      assert (t + p) + s + Source(rest) == t + (p + s + Source(rest));
      assert (t + p) + MASK + Render(rest) == t + (p + MASK + Render(rest));
  }

  lemma {:induction false} JoinFacts(a: Marked, b: Marked, ss: seq<string>)
    ensures Source(Join(a, b)) == Source(a) + Source(b) && Render(Join(a, b)) == Render(a) + Render(b)
    ensures SecretsFrom(Join(a, b), ss) <==> SecretsFrom(a, ss) && SecretsFrom(b, ss)
  {
    match a
    case End(t) => LeadFacts(t, b, ss);
    case Then(p, s, rest) =>
      JoinFacts(rest, b, ss);
      assert p + s + (Source(rest) + Source(b)) == (p + s + Source(rest)) + Source(b);
      assert p + MASK + (Render(rest) + Render(b)) == (p + MASK + Render(rest)) + Render(b);
  }

  /** An interval that is plain in a joined marking is plain in one part, or lies across the joint. */
  lemma {:induction false} JoinInPlain(a: Marked, b: Marked, i: int, n: nat)
    requires InPlain(Join(a, b), i, n)
    ensures InPlain(a, i, n) || InPlain(b, i - |Source(a)|, n) || i < |Source(a)| < i + n
  {
    match a
    case End(t) =>
    case Then(p, s, rest) =>
      if !(0 <= i && i + n <= |p|) {
        JoinInPlain(rest, b, i - |p| - |s|, n);
      }
  }

  /** An occurrence of a text that is plain in a marking sits in one of its plain stretches. */
  lemma {:induction false} PlainOccurrence(m: Marked, w: string, i: int)
    requires InPlain(m, i, |w|) && At(Source(m), i, w)
    ensures !PlainFree(m, w)
  {
    match m
    case End(t) =>
    case Then(p, s, rest) =>
      var t := Source(m);
      if 0 <= i && i + |w| <= |p| {
        AtIntoSlice(t, 0, |p|, i, w);
        assert t[0..|p|] == p;
      } else {
        InPlainFrom(rest, i - |p| - |s|, |w|);
        AtIntoSlice(t, |p| + |s|, |t|, i, w);
        assert t[|p| + |s|..|t|] == Source(rest);
        PlainOccurrence(rest, w, i - |p| - |s|);
      }
  }

  lemma {:induction false} OccurrenceInPlain(m: Marked, w: string) returns (i: int)
    requires !PlainFree(m, w)
    ensures InPlain(m, i, |w|) && At(Source(m), i, w)
  {
    match m
    case End(t) =>
      i :| 0 <= i <= |t| && At(t, i, w);
    case Then(p, s, rest) =>
      if Contains(p, w) {
        i :| 0 <= i <= |p| && At(p, i, w);
        assert [] + p + (s + Source(rest)) == Source(m);
        AtInMiddle([], p, s + Source(rest), i, w);
      } else {
        var k := OccurrenceInPlain(rest, w);
        i := |p + s| + k;
        assert (p + s) + Source(rest) + [] == Source(m);
        AtInMiddle(p + s, Source(rest), [], k, w);
      }
  }

  lemma {:induction false} PlainIsShown(m: Marked, w: string)
    requires !PlainFree(m, w)
    ensures Contains(Render(m), w)
  {
    match m
    case End(t) =>
    case Then(p, s, rest) =>
      if Contains(p, w) {
        ContainsInMiddle([], p, MASK + Render(rest), w);
        assert [] + p + (MASK + Render(rest)) == Render(m);
      } else {
        PlainIsShown(rest, w);
        ContainsInMiddle(p + MASK, Render(rest), [], w);
        assert (p + MASK) + Render(rest) + [] == Render(m);
      }
  }

  ghost predicate AllClean(passes: seq<Secret>) {
    forall k :: 0 <= k < |passes| ==> Clean(passes[k])
  }

  /**
   * Over any run of writes the stream is all that was written, joined, with disjoint intervals, each exactly
   * one secret, turned into the mask.
   */
  lemma {:induction false} StreamIsMaskedInput(passes: seq<Secret>, writes: seq<string>)
    requires AllClean(passes)
    ensures var m := StreamMarking(passes, writes);
      Source(m) == Concat(writes) && Render(m) == Written(passes, writes) && SecretsFrom(m, passes)
  {
    if writes != [] {
      var n := |writes| - 1;
      StreamIsMaskedInput(passes, writes[..n]);
      OutputIsMaskedInput(passes, writes[n]);
      JoinFacts(StreamMarking(passes, writes[..n]), Marking(passes, writes[n]), passes);
    }
  }

  /** The interval [i, i + n) of all that was written has characters of two writes. */
  ghost predicate Straddles(writes: seq<string>, i: int, n: nat) {
    exists k :: 0 <= k <= |writes| && i < |Concat(writes[..k])| < i + n
  }

  lemma StraddlesLonger(writes: seq<string>, n: nat, i: int, length: nat)
    requires n <= |writes| && Straddles(writes[..n], i, length)
    ensures Straddles(writes, i, length)
  {
    var k :| 0 <= k <= n && i < |Concat(writes[..n][..k])| < i + length;
    assert writes[..n][..k] == writes[..k];
  }

  /** Inside one write no occurrence of a listed secret stays plain. */
  lemma MaskedInOneWrite(passes: seq<Secret>, text: string, w: Secret, i: int)
    requires AllClean(passes) && w in passes && At(text, i, w)
    ensures !InPlain(Marking(passes, text), i, |w|)
  {
    OutputIsMaskedInput(passes, text);
    if InPlain(Marking(passes, text), i, |w|) {
      PlainOccurrence(Marking(passes, text), w, i);
    }
  }

  /** A listed secret that stays plain was written in pieces. */
  lemma {:induction false} PlainSecretStraddles(passes: seq<Secret>, writes: seq<string>, w: Secret, i: int)
    requires AllClean(passes) && w in passes
    requires At(Concat(writes), i, w) && InPlain(StreamMarking(passes, writes), i, |w|)
    ensures Straddles(writes, i, |w|)
  {
    hide AllClean, At, InPlain, Straddles, Marking, Join, Source;
    if writes == [] {
      NothingWritten(w, i);
    } else {
      var n := |writes| - 1;
      var a, b, done := StreamMarking(passes, writes[..n]), Marking(passes, writes[n]), Concat(writes[..n]);
      StreamIsMaskedInput(passes, writes[..n]);
      JoinInPlain(a, b, i, |w|);
      if InPlain(a, i, |w|) {
        InPlainFrom(a, i, |w|);
        AtInMiddle([], done, writes[n], i, w);
        assert [] + done + writes[n] == Concat(writes);
        PlainSecretStraddles(passes, writes[..n], w, i);
        StraddlesLonger(writes, n, i, |w|);
      } else if InPlain(b, i - |done|, |w|) {
        SourceOfMarking(passes, writes[n]);
        InPlainFrom(b, i - |done|, |w|);
        AtInMiddle(done, writes[n], [], i - |done|, w);
        assert done + writes[n] + [] == Concat(writes);
        MaskedInOneWrite(passes, writes[n], w, i - |done|);
      } else {
        BoundaryInside(writes, n, i, |w|);
      }
    }
  }

  lemma NothingWritten(w: Secret, i: int)
    ensures !At(Concat([]), i, w)
  {
  }

  lemma BoundaryInside(writes: seq<string>, n: nat, i: int, length: nat)
    requires n <= |writes| && i < |Concat(writes[..n])| < i + length
    ensures Straddles(writes, i, length)
  {
  }

  /** `w` was written at `i`, across a boundary between two writes, and nothing masked touches it. */
  ghost predicate EscapesAt(passes: seq<Secret>, writes: seq<string>, w: Secret, i: int) {
    At(Concat(writes), i, w) && Straddles(writes, i, |w|) && InPlain(StreamMarking(passes, writes), i, |w|)
  }

  /** Exactly when a secret is shown: some occurrence of it was written in pieces and touches no mask. */
  lemma ShownIffEscapes(passes: seq<Secret>, writes: seq<string>, w: Secret)
    requires AllClean(passes) && w in passes
    ensures Contains(Written(passes, writes), w) <==> exists i :: EscapesAt(passes, writes, w, i)
    ensures Contains(Written(passes, writes), w) <==> !PlainFree(StreamMarking(passes, writes), w)
  {
    var m := StreamMarking(passes, writes);
    StreamIsMaskedInput(passes, writes);
    if Contains(Written(passes, writes), w) {
      CleanInRenderIsPlain(m, w);
      var i := OccurrenceInPlain(m, w);
      PlainSecretStraddles(passes, writes, w, i);
      assert EscapesAt(passes, writes, w, i);
    }
    if i :| EscapesAt(passes, writes, w, i) {
      PlainOccurrence(m, w, i);
    }
    if !PlainFree(m, w) {
      PlainIsShown(m, w);
    }
  }

  /** What a caller can see to: a secret that is never written across a boundary is never shown. */
  lemma WholeWritesHide(passes: seq<Secret>, writes: seq<string>, w: Secret)
    requires AllClean(passes) && w in passes
    requires forall i :: At(Concat(writes), i, w) ==> !Straddles(writes, i, |w|)
    ensures !Contains(Written(passes, writes), w)
  {
    ShownIffEscapes(passes, writes, w);
  }

  /** The guarantee is per write: a secret printed in two pieces is not recognised. */
  lemma SplitSecretIsShown()
    ensures Clean("ab") && Written(["ab"], ["a", "b"]) == "ab"
  {
    var passes: seq<Secret> := ["ab"];
    NoSecretNoChange(passes, "a");
    NoSecretNoChange(passes, "b");
    var writes := ["a", "b"];
    assert writes[..1] == ["a"] && writes[..1][..0] == [];
  }
}
