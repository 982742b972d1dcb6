/**
 * The console redactor of local_flow_runner.py: every write is passed through one
 * `str.replace(secret, "***")` per secret, longest secret first.
 */
module Redaction {
  import opened Text

  const MASK := "***"

  type Secret = s: string | s != "" witness "x"

  /** The text one `write` hands to the wrapped stream. */
  function Redact(passes: seq<Secret>, text: string): string
  {
    if passes == [] then text
    else Replace(Redact(passes[..|passes| - 1], text), passes[|passes| - 1], MASK)
  }

  /** `sorted({value for value in secrets if value}, key=len, reverse=True)`, for some tie order. */
  ghost predicate IsPassOrder(passes: seq<Secret>, secrets: set<string>) {
    && (forall s :: s in passes <==> s in secrets && s != "")
    && (forall i, j :: 0 <= i < j < |passes| ==> passes[i] != passes[j])
    && (forall i, j :: 0 <= i < j < |passes| ==> |passes[i]| >= |passes[j]|)
  }

  lemma {:induction false} ShortestSecret(secrets: set<Secret>) returns (s: Secret)
    requires secrets != {}
    ensures s in secrets && forall t :: t in secrets ==> |s| <= |t|
  {
    s :| s in secrets;
    if secrets != {s} {
      var t := ShortestSecret(secrets - {s});
      s := if |t| < |s| then t else s;
    }
  }

  /** Sorting by length always succeeds: every secret set has a pass order. */
  lemma {:induction false} PassOrderExists(secrets: set<Secret>) returns (passes: seq<Secret>)
    ensures IsPassOrder(passes, secrets)
  {
    if secrets == {} {
      passes := [];
    } else {
      var s := ShortestSecret(secrets);
      var longer := PassOrderExists(secrets - {s});
      passes := longer + [s];
      forall i | 0 <= i < |longer| ensures longer[i] != s && |longer[i]| >= |s| {
        assert longer[i] in longer;
      }
    }
  }

  /** No occurrence of a clean text can touch a mask: this is what the guarantee turns on. */
  predicate Clean(w: string) {
    w != "" && w[0] != '*' && w[|w| - 1] != '*' && !Contains(w, MASK)
  }

  // ---------------------------------------------------------------- what a pass does

  /** A text with some secrets marked: plain text, alternating with masked secrets. */
  datatype Marked = End(text: string) | Then(plain: string, secret: string, rest: Marked)

  function Source(m: Marked): string {
    match m
    case End(t) => t
    case Then(p, s, rest) => p + s + Source(rest)
  }

  function Render(m: Marked): string {
    match m
    case End(t) => t
    case Then(p, s, rest) => p + MASK + Render(rest)
  }

  /** One pass over a plain stretch of text. */
  function MarkText(t: string, s: Secret): Marked
    decreases |t|
  {
    var i := Find(t, s);
    if i < 0 then End(t) else Then(t[..i], s, MarkText(t[i + |s|..], s))
  }

  function Chain(a: Marked, s: string, b: Marked): Marked {
    match a
    case End(t) => Then(t, s, b)
    case Then(p, s', rest) => Then(p, s', Chain(rest, s, b))
  }

  /** One pass over a text in which earlier passes already marked secrets. */
  function MarkPass(m: Marked, s: Secret): Marked
  {
    match m
    case End(t) => MarkText(t, s)
    case Then(p, s', rest) => Chain(MarkText(p, s), s', MarkPass(rest, s))
  }

  function Marking(passes: seq<Secret>, text: string): Marked
  {
    if passes == [] then End(text)
    else MarkPass(Marking(passes[..|passes| - 1], text), passes[|passes| - 1])
  }

  ghost predicate PlainFree(m: Marked, w: string) {
    match m
    case End(t) => !Contains(t, w)
    case Then(p, s, rest) => !Contains(p, w) && PlainFree(rest, w)
  }

  predicate SecretsFrom(m: Marked, secrets: seq<string>) {
    match m
    case End(t) => true
    case Then(p, s, rest) => s in secrets && SecretsFrom(rest, secrets)
  }

  /** Cutting a text at the leftmost occurrence of `s`. */
  lemma CutAtFind(t: string, s: Secret)
    requires Find(t, s) >= 0
    ensures var i := Find(t, s); t[..i] + s + t[i + |s|..] == t && !Contains(t[..i], s)
  {
    var i := Find(t, s);
    assert t[i..i + |s|] == s;
    assert t[..i] + t[i..i + |s|] + t[i + |s|..] == t;
    forall j | 0 <= j <= i && At(t[..i], j, s) ensures false {
      AtInSlice(t, 0, i, j, s);
    }
  }

  lemma {:induction false} MarkTextFacts(t: string, s: Secret)
    ensures Source(MarkText(t, s)) == t
    ensures Render(MarkText(t, s)) == Replace(t, s, MASK)
    ensures PlainFree(MarkText(t, s), s)
    decreases |t|
  {
    hide Find;
    var i := Find(t, s);
    if i < 0 {
      ContainsIffFound(t, s);
    } else {
      MarkTextFacts(t[i + |s|..], s);
      CutAtFind(t, s);
    }
  }

  lemma {:induction false} MarkTextKeepsFree(t: string, s: Secret, w: string)
    ensures !PlainFree(MarkText(t, s), w) ==> Contains(t, w)
    decreases |t|
  {
    hide Find;
    var i := Find(t, s);
    if i >= 0 && !PlainFree(MarkText(t, s), w) {
      var rest := t[i + |s|..];
      MarkTextKeepsFree(rest, s, w);
      if Contains(t[..i], w) {
        ContainsInMiddle("", t[..i], t[i..], w);
        assert "" + t[..i] + t[i..] == t;
      } else {
        ContainsInMiddle(t[..i + |s|], rest, "", w);
        assert t[..i + |s|] + rest + "" == t;
      }
    }
  }

  lemma {:induction false} ChainFacts(a: Marked, s: string, b: Marked)
    ensures Source(Chain(a, s, b)) == Source(a) + s + Source(b)
    ensures Render(Chain(a, s, b)) == Render(a) + MASK + Render(b)
    ensures forall w :: PlainFree(Chain(a, s, b), w) <==> PlainFree(a, w) && PlainFree(b, w)
    ensures forall ss :: SecretsFrom(Chain(a, s, b), ss)
                    <==> SecretsFrom(a, ss) && s in ss && SecretsFrom(b, ss)
  {
    match a
    case End(t) =>
    case Then(p, s', rest) =>
      ChainFacts(rest, s, b);
      assert p + s' + (Source(rest) + s + Source(b)) == (p + s' + Source(rest)) + s + Source(b);
      assert p + MASK + (Render(rest) + MASK + Render(b)) == (p + MASK + Render(rest)) + MASK + Render(b);
  }

  // ---------------------------------------------------------------- occurrences and masks

  /** An occurrence of a clean text lies wholly on one side of a mask. */
  lemma CleanMissesMask(p: string, r: string, i: int, w: string)
    requires Clean(w) && At(p + MASK + r, i, w)
    ensures i + |w| <= |p| || |p| + |MASK| <= i
  {
    var t := p + MASK + r;
    assert t[|p|] == t[|p| + 1] == t[|p| + 2] == '*';
    if |p| < i + |w| && i < |p| + |MASK| {
      assert w[0] == t[i] && w[|w| - 1] == t[i + |w| - 1];
      assert At(w, |p| - i, MASK);
    }
  }

  lemma {:induction false} CleanInRenderIsPlain(m: Marked, w: string)
    requires Clean(w) && Contains(Render(m), w)
    ensures !PlainFree(m, w)
  {
    match m
    case End(t) =>
    case Then(p, s, rest) =>
      var t := Render(m);
      var i :| 0 <= i <= |t| && At(t, i, w);
      CleanMissesMask(p, Render(rest), i, w);
      if i + |w| <= |p| {
        AtIntoSlice(t, 0, |p|, i, w);
        assert t[0..|p|] == p;
      } else {
        AtIntoSlice(t, |p| + |MASK|, |t|, i, w);
        assert t[|p| + |MASK|..|t|] == Render(rest);
        CleanInRenderIsPlain(rest, w);
      }
  }

  /** Masking one secret never creates an occurrence of a clean one, the masked one included. */
  lemma MaskingCreatesNothing(t: string, s: Secret, w: string)
    requires Clean(w) && Contains(Replace(t, s, MASK), w)
    ensures Contains(t, w) && w != s
  {
    MarkTextFacts(t, s);
    CleanInRenderIsPlain(MarkText(t, s), w);
    MarkTextKeepsFree(t, s, w);
  }

  /** Whatever the other secrets are, a clean secret never reaches the stream. */
  lemma {:induction false} CleanSecretNeverWritten(passes: seq<Secret>, text: string, w: string)
    requires Clean(w) && Contains(Redact(passes, text), w)
    ensures Contains(text, w) && w !in passes
  {
    if passes != [] {
      var n := |passes| - 1;
      MaskingCreatesNothing(Redact(passes[..n], text), passes[n], w);
      CleanSecretNeverWritten(passes[..n], text, w);
      assert passes == passes[..n] + [passes[n]];
    }
  }

  // ---------------------------------------------------------------- the guarantee is exact

  /** The single-pass replacement leaves its own secret behind on this text. */
  ghost predicate Resurfaces(t: string, w: Secret) {
    Contains(Replace(t, w, MASK), w)
  }

  /** If the first match in `u + w + v` is the middle one and `v` is too short for another. */
  lemma ReplaceMiddle(u: string, w: Secret, v: string)
    requires Find(u + w + v, w) == |u| && |v| < |w|
    ensures Replace(u + w + v, w, MASK) == u + MASK + v
  {
    var t := u + w + v;
    assert t[..|u|] == u && t[|u| + |w|..] == v;
  }

  lemma ResurfacesBy(t: string, w: Secret, a: string, b: string)
    requires Replace(t, w, MASK) == a + w + b
    ensures Resurfaces(t, w)
  {
    AtInMiddle(a, w, b, 0, w);
  }

  lemma LeadingStarOutput(w: Secret)
    requires w[0] == '*'
    ensures [] + MASK + w[1..] == "**" + w + []
  {
    assert w == [w[0]] + w[1..];
  }

  lemma LeadingStarResurfaces(w: Secret)
    requires w[0] == '*'
    ensures Resurfaces([] + w + w[1..], w)
  {
    AtInMiddle([], w, w[1..], 0, w);
    ReplaceMiddle([], w, w[1..]);
    LeadingStarOutput(w);
    ResurfacesBy([] + w + w[1..], w, "**", []);
  }

  /** A match of `w` before the second half of `w[..n] + w` puts the last character of `w` first. */
  lemma EarlierMatchShiftsLast(w: Secret, j: nat)
    requires j < |w| - 1 && At(w[..|w| - 1] + w + [], j, w)
    ensures w[0] == w[|w| - 1]
  {
    var n := |w| - 1;
    var t := w[..n] + w + [];
    assert w[n] == t[j..j + |w|][n] == t[j + n] == w[j];
    assert w[0] == t[j..j + |w|][0] == t[j] == w[j];
  }

  lemma TrailingStarResurfaces(w: Secret)
    requires w[0] != '*' && w[|w| - 1] == '*'
    ensures Resurfaces(w[..|w| - 1] + w + [], w)
  {
    var n := |w| - 1;
    var u := w[..n];
    AtInMiddle(u, w, [], 0, w);
    var j := Find(u + w + [], w);
    if j < n {
      EarlierMatchShiftsLast(w, j);
    }
    ReplaceMiddle(u, w, []);
    var out := u + MASK + [];
    assert w == u + [w[n]];
    assert out == [] + w + "**";
    ResurfacesBy(u + w + [], w, [], "**");
  }

  /** A match of `w` in `w[..k] + w + v` before index `k` shows a mask in `w` before index `k`. */
  lemma EarlierMatchShiftsMask(w: Secret, k: nat, j: nat)
    requires j < k && At(w, k, MASK) && At(w[..k] + w + w[k + 3..], j, w)
    ensures At(w, j, MASK)
  {
    var t := w[..k] + w + w[k + 3..];
    forall i | 0 <= i < 3 ensures w[j..j + 3][i] == MASK[i] {
      assert t[j..j + |w|][k + i] == t[j + k + i] == w[j + i];
      assert w[k..k + 3][i] == w[k + i];
    }
  }

  lemma MaskInside(w: Secret, k: nat)
    requires At(w, k, MASK)
    ensures w[..k] + MASK + w[k + 3..] == [] + w + []
  {
    assert w[k..k + 3] == MASK;
    assert w[..k] + w[k..k + 3] + w[k + 3..] == w;
  }

  lemma InnerMaskResurfaces(w: Secret)
    requires Contains(w, MASK)
    ensures var k := Find(w, MASK); 0 <= k <= |w| - 3 && Resurfaces(w[..k] + w + w[k + 3..], w)
  {
    var k := Find(w, MASK);
    ContainsIffFound(w, MASK);
    var u, v := w[..k], w[k + 3..];
    AtInMiddle(u, w, v, 0, w);
    var j := Find(u + w + v, w);
    if j < k {
      EarlierMatchShiftsMask(w, k, j);
    }
    ReplaceMiddle(u, w, v);
    MaskInside(w, k);
    ResurfacesBy(u + w + v, w, [], []);
  }

  lemma UncleanResurfaces(w: Secret) returns (t: string)
    requires !Clean(w)
    ensures Resurfaces(t, w)
  {
    if w[0] == '*' {
      LeadingStarResurfaces(w);
      t := [] + w + w[1..];
    } else if w[|w| - 1] == '*' {
      TrailingStarResurfaces(w);
      t := w[..|w| - 1] + w + [];
    } else {
      InnerMaskResurfaces(w);
      t := w[..Find(w, MASK)] + w + w[Find(w, MASK) + 3..];
    }
  }

  /** A secret is kept off the console whatever is printed and whatever it is listed with, iff it is clean. */
  lemma GuaranteeIffClean(w: Secret)
    ensures Clean(w) <==> (forall passes: seq<Secret>, text :: w in passes ==> !Contains(Redact(passes, text), w))
  {
    if Clean(w) {
      forall passes: seq<Secret>, text | w in passes ensures !Contains(Redact(passes, text), w) {
        if Contains(Redact(passes, text), w) {
          CleanSecretNeverWritten(passes, text, w);
        }
      }
    } else {
      var t := UncleanResurfaces(w);
      var passes: seq<Secret> := [w];
      assert passes[..0] == [];
      assert Redact(passes, t) == Replace(t, w, MASK);
    }
  }

  /** An unclean secret printed twice in a row, overlapping, comes out once. */
  lemma StarredSecretIsShown()
    ensures Redact(["*a"], "*aa") == "***a" && Contains("***a", "*a")
  {
    var passes: seq<Secret> := ["*a"];
    assert passes[..0] == [];
    assert Redact([], "*aa") == "*aa";
    ReplaceMiddle([], "*a", "a") by {
      assert [] + "*a" + "a" == "*aa";
      assert At("*aa", 0, "*a");
    }
    assert [] + "*a" + "a" == "*aa" && [] + MASK + "a" == "***a";
    assert "***a"[2..4] == "*a";
    assert At("***a", 2, "*a");
  }

  /** Even an unclean secret stays hidden when a clean listed secret occurs in it. */
  lemma HiddenByPart(passes: seq<Secret>, text: string, w: string, part: Secret)
    requires part in passes && Clean(part) && Contains(w, part)
    ensures !Contains(Redact(passes, text), w)
  {
    if Contains(Redact(passes, text), w) {
      ContainsTransitive(Redact(passes, text), w, part);
      CleanSecretNeverWritten(passes, text, part);
    }
  }

  // ---------------------------------------------------------------- the output as a masking of the input

  lemma {:induction false} MarkTextSecrets(t: string, s: Secret, ss: seq<string>)
    requires s in ss
    ensures SecretsFrom(MarkText(t, s), ss)
    decreases |t|
  {
    hide Find;
    if Find(t, s) >= 0 {
      MarkTextSecrets(t[Find(t, s) + |s|..], s, ss);
    }
  }

  /** The leftmost match of a clean text beside a mask. */
  lemma FindAcrossMask(p: string, r: string, s: Secret)
    requires Clean(s)
    ensures var i := Find(p + MASK + r, s);
            i == if Find(p, s) >= 0 then Find(p, s)
                 else if Find(r, s) >= 0 then |p| + 3 + Find(r, s) else -1
  {
    hide Find, Clean;
    var t := p + MASK + r;
    assert [] + p + (MASK + r) == t && (p + MASK) + r + [] == t;
    forall j | 0 <= j <= |t| ensures At(t, j, s) <==> At(p, j, s) || At(r, j - |p| - 3, s) {
      AtInMiddle([], p, MASK + r, j, s);
      AtInMiddle(p + MASK, r, [], j - |p| - 3, s);
      if At(t, j, s) {
        CleanMissesMask(p, r, j, s);
      }
    }
    if Find(p, s) >= 0 {
      assert At(t, Find(p, s), s);
    } else if Find(r, s) >= 0 {
      assert At(r, (|p| + 3 + Find(r, s)) - |p| - 3, s);
      assert At(t, |p| + 3 + Find(r, s), s);
    }
  }

  /** A clean secret is replaced on each side of a mask separately. */
  lemma {:induction false} ReplaceAcrossMask(p: string, r: string, s: Secret)
    requires Clean(s)
    ensures Replace(p + MASK + r, s, MASK) == Replace(p, s, MASK) + MASK + Replace(r, s, MASK)
    decreases |p|
  {
    hide Find, At, Contains, Clean;
    var t := p + MASK + r;
    var i := Find(t, s);
    FindAcrossMask(p, r, s);
    if Find(p, s) >= 0 {
      var p' := p[i + |s|..];
      assert t[i + |s|..] == p' + MASK + r && t[..i] == p[..i];
      ReplaceAcrossMask(p', r, s);
      ConcatFive(p[..i], Replace(p', s, MASK), Replace(r, s, MASK));
    } else if Find(r, s) >= 0 {
      var j := Find(r, s);
      assert t[i + |s|..] == r[j + |s|..] && t[..i] == p + MASK + r[..j];
      ConcatFive'(p, r[..j], Replace(r[j + |s|..], s, MASK));
    }
  }

  lemma ConcatFive(a: string, b: string, c: string)
    ensures a + MASK + (b + MASK + c) == (a + MASK + b) + MASK + c
  {
  }

  lemma ConcatFive'(a: string, b: string, c: string)
    ensures (a + MASK + b) + MASK + c == a + MASK + (b + MASK + c)
  {
  }

  lemma {:induction false} MarkPassFacts(m: Marked, s: Secret)
    ensures Source(MarkPass(m, s)) == Source(m)
    ensures Clean(s) ==> Render(MarkPass(m, s)) == Replace(Render(m), s, MASK)
    ensures PlainFree(MarkPass(m, s), s)
  {
    match m
    case End(t) =>
      MarkTextFacts(t, s);
    case Then(p, s', rest) =>
      MarkPassFacts(rest, s);
      MarkTextFacts(p, s);
      ChainFacts(MarkText(p, s), s', MarkPass(rest, s));
      if Clean(s) {
        ReplaceAcrossMask(p, Render(rest), s);
      }
  }

  lemma {:induction false} MarkPassSecrets(m: Marked, s: Secret, ss: seq<string>)
    requires SecretsFrom(m, ss) && s in ss
    ensures SecretsFrom(MarkPass(m, s), ss)
  {
    match m
    case End(t) =>
      MarkTextSecrets(t, s, ss);
    case Then(p, s', rest) =>
      MarkTextSecrets(p, s, ss);
      MarkPassSecrets(rest, s, ss);
      ChainFacts(MarkText(p, s), s', MarkPass(rest, s));
  }

  lemma {:induction false} MarkPassKeepsFree(m: Marked, s: Secret, w: string)
    requires PlainFree(m, w)
    ensures PlainFree(MarkPass(m, s), w)
  {
    match m
    case End(t) =>
      MarkTextKeepsFree(t, s, w);
    case Then(p, s', rest) =>
      MarkTextKeepsFree(p, s, w);
      MarkPassKeepsFree(rest, s, w);
      ChainFacts(MarkText(p, s), s', MarkPass(rest, s));
  }

  lemma {:induction false} SecretsFromMore(m: Marked, ss: seq<string>, s: string)
    requires SecretsFrom(m, ss)
    ensures SecretsFrom(m, ss + [s])
  {
    match m
    case End(t) =>
    case Then(p, s', rest) => SecretsFromMore(rest, ss, s);
  }

  /**
   * Conservation: the output is the input with disjoint intervals, each exactly one secret,
   * turned into the mask; all other text is kept in order and contains no secret.
   */
  lemma {:induction false} OutputIsMaskedInput(passes: seq<Secret>, text: string)
    requires forall i :: 0 <= i < |passes| ==> Clean(passes[i])
    ensures var m := Marking(passes, text);
            && Source(m) == text
            && Render(m) == Redact(passes, text)
            && SecretsFrom(m, passes)
            && forall i :: 0 <= i < |passes| ==> PlainFree(m, passes[i])
  {
    if passes != [] {
      var n := |passes| - 1;
      var m := Marking(passes[..n], text);
      OutputIsMaskedInput(passes[..n], text);
      MarkPassFacts(m, passes[n]);
      SecretsFromMore(m, passes[..n], passes[n]);
      assert passes == passes[..n] + [passes[n]];
      MarkPassSecrets(m, passes[n], passes);
      forall i | 0 <= i < n ensures PlainFree(Marking(passes, text), passes[i]) {
        assert passes[i] == passes[..n][i];
        MarkPassKeepsFree(m, passes[n], passes[i]);
      }
    }
  }

  /** A write passes through unchanged exactly when it shows no secret. */
  lemma {:induction false} UnchangedIffNoSecret(passes: seq<Secret>, text: string)
    requires forall i :: 0 <= i < |passes| ==> Clean(passes[i])
    ensures Redact(passes, text) == text <==> forall i :: 0 <= i < |passes| ==> !Contains(text, passes[i])
  {
    if i :| 0 <= i < |passes| && Contains(text, passes[i]) {
      if Redact(passes, text) == text {
        CleanSecretNeverWritten(passes, text, passes[i]);
      }
    } else {
      NoSecretNoChange(passes, text);
    }
  }

  lemma {:induction false} NoSecretNoChange(passes: seq<Secret>, text: string)
    requires forall i :: 0 <= i < |passes| ==> !Contains(text, passes[i])
    ensures Redact(passes, text) == text
  {
    if passes != [] {
      var n := |passes| - 1;
      NoSecretNoChange(passes[..n], text);
      ContainsIffFound(text, passes[n]);
    }
  }

  // ---------------------------------------------------------------- longest first

  /** The interval [i, i + n) of the source is plain so far. */
  predicate InPlain(m: Marked, i: int, n: nat) {
    match m
    case End(t) => 0 <= i && i + n <= |t|
    case Then(p, s, rest) =>
      (0 <= i && i + n <= |p|) || InPlain(rest, i - |p| - |s|, n)
  }

  /** Source index `i` is where one masked secret `w` begins. */
  predicate MaskedAt(m: Marked, i: int, w: string) {
    match m
    case End(t) => false
    case Then(p, s, rest) => (i == |p| && s == w) || MaskedAt(rest, i - |p| - |s|, w)
  }

  /** No occurrence of `s` in `t`, other than one at `except`, overlaps [i, i + n). */
  ghost predicate Undisturbed(t: string, s: string, i: int, n: nat, except: int) {
    forall j :: 0 <= j && At(t, j, s) && j < i + n && i < j + |s| ==> j == except
  }

  lemma UndisturbedPart(a: string, b: string, c: string, s: string, i: int, n: nat, except: int)
    requires Undisturbed(a + b + c, s, i, n, except)
    ensures Undisturbed(b, s, i - |a|, n, except - |a|)
  {
    forall j | 0 <= j && At(b, j, s) && j < i - |a| + n && i - |a| < j + |s|
      ensures j == except - |a|
    {
      AtInMiddle(a, b, c, j, s);
    }
  }

  /** Nothing at all disturbs the interval: so in any part of the text. */
  lemma UntouchedPart(a: string, b: string, c: string, s: string, i: int, n: nat)
    requires Undisturbed(a + b + c, s, i, n, -1)
    ensures Undisturbed(b, s, i - |a|, n, -1)
  {
    UndisturbedPart(a, b, c, s, i, n, -1);
  }

  lemma EarlierIsClear(t: string, w: string, i: int, k: int)
    requires 0 <= k < i && At(t, k, w) && Undisturbed(t, w, i, |w|, i)
    ensures k + |w| <= i
  {
  }

  lemma {:induction false} ChainInPlain(a: Marked, s: string, b: Marked, i: int, n: nat)
    ensures InPlain(a, i, n) ==> InPlain(Chain(a, s, b), i, n)
    ensures InPlain(b, i - |Source(a)| - |s|, n) ==> InPlain(Chain(a, s, b), i, n)
  {
    match a
    case End(t) =>
    case Then(p, s', rest) => ChainInPlain(rest, s, b, i - |p| - |s'|, n);
  }

  lemma {:induction false} ChainMaskedAt(a: Marked, s: string, b: Marked, i: int, w: string)
    ensures MaskedAt(a, i, w) ==> MaskedAt(Chain(a, s, b), i, w)
    ensures i == |Source(a)| && s == w ==> MaskedAt(Chain(a, s, b), i, w)
    ensures MaskedAt(b, i - |Source(a)| - |s|, w) ==> MaskedAt(Chain(a, s, b), i, w)
  {
    match a
    case End(t) =>
    case Then(p, s', rest) => ChainMaskedAt(rest, s, b, i - |p| - |s'|, w);
  }

  lemma {:induction false} MarkTextLeavesPlain(t: string, s: Secret, i: int, n: nat)
    requires 0 <= i && 0 < n && i + n <= |t| && Undisturbed(t, s, i, n, -1)
    ensures InPlain(MarkText(t, s), i, n)
    decreases |t|
  {
    hide Find;
    var k := Find(t, s);
    if k >= 0 {
      CutAtFind(t, s);
      if i + n > k {
        var rest := t[k + |s|..];
        assert t[..k] + s + rest + [] == t;
        UntouchedPart(t[..k] + s, rest, [], s, i, n);
        MarkTextLeavesPlain(rest, s, i - k - |s|, n);
      }
    }
  }

  lemma {:induction false} MarkTextMasks(t: string, w: Secret, i: int)
    requires At(t, i, w) && Undisturbed(t, w, i, |w|, i)
    ensures MaskedAt(MarkText(t, w), i, w)
    decreases |t|
  {
    hide Undisturbed, Find;
    var k := Find(t, w);
    CutAtFind(t, w);
    if k != i {
      var rest := t[k + |w|..];
      assert t[..k] + w + rest + [] == t;
      EarlierIsClear(t, w, i, k);
      UndisturbedPart(t[..k] + w, rest, [], w, i, |w|, i);
      AtInMiddle(t[..k] + w, rest, [], i - k - |w|, w);
      MarkTextMasks(rest, w, i - k - |w|);
    }
  }

  lemma {:induction false} MarkPassLeavesPlain(m: Marked, s: Secret, i: int, n: nat)
    requires 0 < n && InPlain(m, i, n) && Undisturbed(Source(m), s, i, n, -1)
    ensures InPlain(MarkPass(m, s), i, n)
  {
    hide Undisturbed, MarkText;
    match m
    case End(t) => MarkTextLeavesPlain(t, s, i, n);
    case Then(p, s', rest) =>
      MarkTextFacts(p, s);
      ChainInPlain(MarkText(p, s), s', MarkPass(rest, s), i, n);
      var t := Source(rest);
      assert [] + p + (s' + t) == Source(m) && (p + s') + t + [] == Source(m);
      if 0 <= i && i + n <= |p| {
        UntouchedPart([], p, s' + t, s, i, n);
        MarkTextLeavesPlain(p, s, i, n);
      } else {
        InPlainFrom(rest, i - |p| - |s'|, n);
        UntouchedPart(p + s', t, [], s, i, n);
        MarkPassLeavesPlain(rest, s, i - |p| - |s'|, n);
      }
  }

  lemma {:induction false} InPlainFrom(m: Marked, i: int, n: nat)
    requires InPlain(m, i, n)
    ensures 0 <= i && i + n <= |Source(m)|
  {
    match m
    case End(t) =>
    case Then(p, s, rest) => if !(0 <= i && i + n <= |p|) { InPlainFrom(rest, i - |p| - |s|, n); }
  }

  lemma AtAndUndisturbedPart(a: string, b: string, c: string, w: Secret, i: int)
    requires At(a + b + c, i, w) && Undisturbed(a + b + c, w, i, |w|, i)
    requires |a| <= i && i + |w| <= |a| + |b|
    ensures At(b, i - |a|, w) && Undisturbed(b, w, i - |a|, |w|, i - |a|)
  {
    UndisturbedPart(a, b, c, w, i, |w|, i);
    AtInMiddle(a, b, c, i - |a|, w);
  }

  lemma {:induction false} MarkPassMasks(m: Marked, w: Secret, i: int)
    requires InPlain(m, i, |w|) && At(Source(m), i, w) && Undisturbed(Source(m), w, i, |w|, i)
    ensures MaskedAt(MarkPass(m, w), i, w)
  {
    hide Undisturbed, MarkText, At;
    match m
    case End(t) => MarkTextMasks(t, w, i);
    case Then(p, s', rest) =>
      MarkTextFacts(p, w);
      ChainMaskedAt(MarkText(p, w), s', MarkPass(rest, w), i, w);
      var t := Source(rest);
      if 0 <= i && i + |w| <= |p| {
        assert [] + p + (s' + t) == Source(m);
        AtAndUndisturbedPart([], p, s' + t, w, i);
        MarkTextMasks(p, w, i);
      } else {
        InPlainFrom(rest, i - |p| - |s'|, |w|);
        assert (p + s') + t + [] == Source(m);
        AtAndUndisturbedPart(p + s', t, [], w, i);
        MarkPassMasks(rest, w, i - |p| - |s'|);
      }
  }

  lemma {:induction false} MarkPassKeepsMasks(m: Marked, s: Secret, i: int, w: Secret)
    requires MaskedAt(m, i, w)
    ensures MaskedAt(MarkPass(m, s), i, w)
  {
    match m
    case End(t) =>
    case Then(p, s', rest) =>
      MarkTextFacts(p, s);
      ChainMaskedAt(MarkText(p, s), s', MarkPass(rest, s), i, w);
      if !(i == |p| && s' == w) {
        MarkPassKeepsMasks(rest, s, i - |p| - |s'|, w);
      }
  }

  /** Every occurrence of a secret that overlaps the occurrence of `w` at `i` lies inside it. */
  ghost predicate Covers(passes: seq<Secret>, text: string, i: int, w: string) {
    forall k, j :: 0 <= k < |passes| && 0 <= j && At(text, j, passes[k]) && j < i + |w| && i < j + |passes[k]|
               ==> i <= j && j + |passes[k]| <= i + |w|
  }

  /** Longest first: an occurrence that covers all it overlaps is masked as one unit. */
  lemma {:induction false} CoveringOccurrenceIsOneMask(passes: seq<Secret>, secrets: set<string>, text: string, i: int, w: Secret)
    requires IsPassOrder(passes, secrets) && w in passes
    requires At(text, i, w) && Covers(passes, text, i, w)
    ensures MaskedAt(Marking(passes, text), i, w)
  {
    var k :| 0 <= k < |passes| && passes[k] == w;
    PlainBeforeOwnPass(passes, text, i, w, k, k);
    SourceOfMarking(passes[..k], text);
    forall j | 0 <= j && At(text, j, w) && j < i + |w| && i < j + |w| ensures j == i {
      assert At(text, j, passes[k]);
    }
    MarkPassMasks(Marking(passes[..k], text), w, i);
    assert passes[..k + 1][..k] == passes[..k];
    MaskedAfterOwnPass(passes, text, i, w, k + 1);
    assert passes[..|passes|] == passes;
  }

  lemma {:induction false} SourceOfMarking(passes: seq<Secret>, text: string)
    ensures Source(Marking(passes, text)) == text
  {
    if passes != [] {
      SourceOfMarking(passes[..|passes| - 1], text);
      MarkPassFacts(Marking(passes[..|passes| - 1], text), passes[|passes| - 1]);
    }
  }

  /** A secret at least as long that overlaps a covering occurrence is that secret, at that place. */
  lemma LongerInsideIsSame(passes: seq<Secret>, text: string, i: int, w: Secret, a: nat)
    requires a < |passes| && |passes[a]| >= |w| && At(text, i, w) && Covers(passes, text, i, w)
    ensures forall j :: 0 <= j && At(text, j, passes[a]) && j < i + |w| && i < j + |passes[a]|
                    ==> j == i && passes[a] == w
  {
  }

  /** No pass up to that of `w` itself touches the occurrence: longer secrets cannot lie inside it. */
  lemma {:induction false} PlainBeforeOwnPass(passes: seq<Secret>, text: string, i: int, w: Secret, k: nat, n: nat)
    requires n <= k < |passes| && passes[k] == w
    requires forall a, b :: 0 <= a < b < |passes| ==> passes[a] != passes[b] && |passes[a]| >= |passes[b]|
    requires At(text, i, w) && Covers(passes, text, i, w)
    ensures InPlain(Marking(passes[..n], text), i, |w|)
  {
    if n > 0 {
      var s := passes[n - 1];
      assert passes[..n][..n - 1] == passes[..n - 1];
      PlainBeforeOwnPass(passes, text, i, w, k, n - 1);
      SourceOfMarking(passes[..n - 1], text);
      LongerInsideIsSame(passes, text, i, w, n - 1);
      MarkPassLeavesPlain(Marking(passes[..n - 1], text), s, i, |w|);
    }
  }

  lemma {:induction false} MaskedAfterOwnPass(passes: seq<Secret>, text: string, i: int, w: Secret, n: nat)
    requires n <= |passes| && MaskedAt(Marking(passes[..n], text), i, w)
    ensures MaskedAt(Marking(passes[..|passes|], text), i, w)
    decreases |passes| - n
  {
    if n < |passes| {
      assert passes[..n + 1][..n] == passes[..n];
      MarkPassKeepsMasks(Marking(passes[..n], text), passes[n], i, w);
      MaskedAfterOwnPass(passes, text, i, w, n + 1);
    }
  }
}
