/** Which texts the console must hide: the credential collector and its encodings. */
module Credentials {
  import opened Text
  import opened Redaction

  /** A credential document. Scalars carry their `str(...)`; mapping keys are never collected. */
  datatype Credential =
    | Null
    | Boolean(flag: bool)
    | Scalar(text: string)
    | Mapping(values: seq<Credential>)
    | Items(children: seq<Credential>)

  function Parts(c: Credential): (cs: seq<Credential>)
    ensures forall i :: 0 <= i < |cs| ==> cs[i] < c
  {
    match c
    case Mapping(vs) => vs
    case Items(cs) => cs
    case _ => []
  }

  function Scalars(c: Credential): seq<string>
    decreases c, |Parts(c)| + 1
  {
    match c
    case Scalar(t) => if t == "" then [] else [t]
    case _ => ScalarsUpTo(c, |Parts(c)|)
  }

  /** The scalars of the first `k` parts. */
  function ScalarsUpTo(c: Credential, k: nat): seq<string>
    requires k <= |Parts(c)|
    decreases c, k
  {
    if k == 0 then [] else ScalarsUpTo(c, k - 1) + Scalars(Parts(c)[k - 1])
  }

  /** `_credential_scalar_values` */
  method CredentialScalarValues(c: Credential) returns (values: seq<string>)
    ensures values == Scalars(c)
    decreases c
  {
    if c.Mapping? || c.Items? {
      var children := Parts(c);
      values := [];
      for k := 0 to |children|
        invariant values == ScalarsUpTo(c, k)
      {
        var more := CredentialScalarValues(children[k]);
        values := values + more;
      }
      return;
    }
    if c.Null? || c.Boolean? {
      return [];
    }
    return if c.text != "" then [c.text] else [];
  }

  /** Following `path` through mappings and lists from `c` leads to the scalar `leaf`. */
  predicate Reaches(c: Credential, path: seq<nat>, leaf: string)
    decreases c
  {
    match c
    case Null => false
    case Boolean(_) => false
    case Scalar(text) => path == [] && text == leaf
    case Mapping(values) => path != [] && path[0] < |values| && Reaches(values[path[0]], path[1..], leaf)
    case Items(children) => path != [] && path[0] < |children| && Reaches(children[path[0]], path[1..], leaf)
  }

  ghost predicate Reachable(c: Credential, leaf: string) {
    exists path :: Reaches(c, path, leaf)
  }

  lemma {:induction false} CollectedIsReached(c: Credential, v: string) returns (path: seq<nat>)
    requires v in Scalars(c)
    ensures v != "" && Reaches(c, path, v)
    decreases c
  {
    if c.Scalar? {
      path := [];
    } else {
      var k := |Parts(c)|;
      while v !in Scalars(Parts(c)[k - 1])
        invariant 0 < k <= |Parts(c)| && v in ScalarsUpTo(c, k)
        decreases k
      {
        k := k - 1;
      }
      var rest := CollectedIsReached(Parts(c)[k - 1], v);
      path := [k - 1] + rest;
      assert path[1..] == rest;
    }
  }

  lemma {:induction false} ReachedIsCollected(c: Credential, path: seq<nat>, v: string)
    requires v != "" && Reaches(c, path, v)
    ensures v in Scalars(c)
    decreases c
  {
    if path != [] {
      ReachedIsCollected(Parts(c)[path[0]], path[1..], v);
      PartIsCollected(c, path[0], |Parts(c)|, v);
    }
  }

  lemma {:induction false} PartIsCollected(c: Credential, i: nat, k: nat, v: string)
    requires i < k <= |Parts(c)| && v in Scalars(Parts(c)[i])
    ensures v in ScalarsUpTo(c, k)
    decreases k
  {
    if i < k - 1 {
      PartIsCollected(c, i, k - 1, v);
    }
  }

  /** The collector returns exactly the non-empty scalars that some path reaches. */
  lemma CollectsExactlyTheLeaves(c: Credential, v: string)
    ensures v in Scalars(c) <==> v != "" && Reachable(c, v)
  {
    if v in Scalars(c) {
      var path := CollectedIsReached(c, v);
      assert Reaches(c, path, v);
    }
    if v != "" && Reachable(c, v) {
      var path :| Reaches(c, path, v);
      ReachedIsCollected(c, path, v);
    }
  }

  function RawValues(c: Credential): set<string> {
    set v | v in Scalars(c)
  }

  // ---------------------------------------------------------------- encodings

  /** `quote`, `quote_plus`, the JSON string body, and Base64 of `left:right`. */
  datatype Codec = Codec(
    quote: string -> string,
    quotePlus: string -> string,
    json: string -> string,
    basic: (string, string) -> string)

  const PAIR_LIMIT := 20

  /** `e` is one of the forms in which the raw values may be printed. */
  ghost predicate IsEncoding(e: string, raws: set<string>, codec: Codec) {
    || e in raws
    || (exists v :: v in raws && (e == codec.quote(v) || e == codec.quotePlus(v) || e == codec.json(v)))
    || (|raws| <= PAIR_LIMIT && exists l, r :: l in raws && r in raws && e == codec.basic(l, r))
  }

  /** `_credential_encodings` after collection */
  method CredentialEncodings(raws: set<string>, codec: Codec) returns (encodings: set<string>)
    ensures forall e :: e in encodings <==> e != "" && IsEncoding(e, raws, codec)
  {
    var all := raws;
    var todo := raws;
    while todo != {}
      invariant todo <= raws
      invariant forall e :: e in all <==>
        e in raws || exists v :: v in raws - todo && (e == codec.quote(v) || e == codec.quotePlus(v) || e == codec.json(v))
      decreases todo
    {
      var v :| v in todo;
      ghost var was, left := all, todo;
      all := all + {codec.quote(v), codec.quotePlus(v), codec.json(v)};
      todo := todo - {v};
      assert raws - todo == (raws - left) + {v};
    }
    assert raws - {} == raws;
    if |raws| <= PAIR_LIMIT {
      var pairs := AllPairs(raws, codec);
      all := all + pairs;
    }
    encodings := set e | e in all && e != "";
  }

  method AllPairs(raws: set<string>, codec: Codec) returns (pairs: set<string>)
    ensures forall e :: e in pairs <==> exists l, r :: l in raws && r in raws && e == codec.basic(l, r)
  {
    pairs := {};
    var lefts := raws;
    while lefts != {}
      invariant lefts <= raws
      invariant forall e :: e in pairs <==> exists l, r :: l in raws - lefts && r in raws && e == codec.basic(l, r)
      decreases lefts
    {
      var left :| left in lefts;
      ghost var before := pairs;
      var rights := raws;
      while rights != {}
        invariant rights <= raws
        invariant forall e :: e in pairs <==> e in before || exists r :: r in raws - rights && e == codec.basic(left, r)
        decreases rights
      {
        var right :| right in rights;
        ghost var open := rights;
        pairs := pairs + {codec.basic(left, right)};
        rights := rights - {right};
        assert raws - rights == (raws - open) + {right};
      }
      ghost var openLefts := lefts;
      lefts := lefts - {left};
      assert raws - {} == raws;
      assert raws - lefts == (raws - openLefts) + {left};
    }
    assert raws - {} == raws;
  }

  ghost function Image(s: set<string>, f: string -> string): set<string> {
    set a | a in s :: f(a)
  }

  ghost function PairImage(ls: set<string>, rs: set<string>, f: (string, string) -> string): set<string> {
    set l, r | l in ls && r in rs :: f(l, r)
  }

  lemma {:induction false} ImageSize(s: set<string>, f: string -> string)
    ensures |Image(s, f)| <= |s|
  {
    if s != {} {
      var a :| a in s;
      ImageSize(s - {a}, f);
      assert Image(s, f) == Image(s - {a}, f) + {f(a)};
    }
  }

  lemma OneMoreLeft(ls: set<string>, rs: set<string>, f: (string, string) -> string, a: string, row: string -> string)
    requires a in ls && forall x :: row(x) == f(a, x)
    ensures PairImage(ls, rs, f) == PairImage(ls - {a}, rs, f) + Image(rs, row)
  {
  }

  lemma {:induction false} PairImageSize(ls: set<string>, rs: set<string>, f: (string, string) -> string)
    ensures |PairImage(ls, rs, f)| <= |ls| * |rs|
  {
    if ls == {} {
      assert PairImage(ls, rs, f) == {};
    } else {
      hide PairImage, Image;
      var a :| a in ls;
      var row := x => f(a, x);
      PairImageSize(ls - {a}, rs, f);
      ImageSize(rs, row);
      OneMoreLeft(ls, rs, f, a, row);
      OneMoreRow(|ls| - 1, |rs|);
    }
  }

  lemma OneMoreRow(n: nat, m: nat)
    ensures (n + 1) * m == n * m + m
  {
  }

  /** n raw values give at most 4n texts to hide, and n * n more when there are at most 20. */
  lemma EncodingCount(raws: set<string>, codec: Codec, encodings: set<string>)
    requires forall e :: e in encodings ==> IsEncoding(e, raws, codec)
    ensures |encodings| <= 4 * |raws| + if |raws| <= PAIR_LIMIT then |raws| * |raws| else 0
  {
    ImageSize(raws, codec.quote);
    ImageSize(raws, codec.quotePlus);
    ImageSize(raws, codec.json);
    PairImageSize(raws, raws, codec.basic);
    var singles := raws + Image(raws, codec.quote) + Image(raws, codec.quotePlus) + Image(raws, codec.json);
    var all := if |raws| <= PAIR_LIMIT then singles + PairImage(raws, raws, codec.basic) else singles;
    assert encodings <= all;
    SubsetSize(encodings, all);
  }

  lemma {:induction false} SubsetSize(a: set<string>, b: set<string>)
    requires a <= b
    ensures |a| <= |b|
  {
    if a != {} {
      var x :| x in a;
      SubsetSize(a - {x}, b - {x});
    }
  }

  /**
   * `_redacted_console`, end to end: whatever is written, no clean non-empty credential scalar,
   * no clean encoding of one and (up to 20 values) no clean Base64 pair comes out.
   */
  lemma ConsoleHidesCredentials(c: Credential, codec: Codec, secrets: set<string>, order: seq<Secret>,
                                text: string, hidden: Secret)
    requires forall e :: e in secrets <==> e != "" && IsEncoding(e, RawValues(c), codec)
    requires IsPassOrder(order, secrets) && Clean(hidden)
    requires
      || Reachable(c, hidden)
      || (exists v :: v != "" && Reachable(c, v)
            && (hidden == codec.quote(v) || hidden == codec.quotePlus(v) || hidden == codec.json(v)))
      || (|RawValues(c)| <= PAIR_LIMIT
          && exists l, r :: l != "" && r != "" && Reachable(c, l) && Reachable(c, r) && hidden == codec.basic(l, r))
    ensures !Contains(Redact(order, text), hidden)
  {
    var raws := RawValues(c);
    forall v ensures v in raws <==> v != "" && Reachable(c, v) {
      CollectsExactlyTheLeaves(c, v);
    }
    assert IsEncoding(hidden, raws, codec);
    assert hidden in order;
    if Contains(Redact(order, text), hidden) {
      CleanSecretNeverWritten(order, text, hidden);
    }
  }
}
