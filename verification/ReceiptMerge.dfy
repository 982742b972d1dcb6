/** The receipt file of publish_statement_flows.py: an insertion-ordered merge, and the curl reply it reads. */
module ReceiptMerge {
  import opened Text

  /** A receipt; `body` stands for the fields beside the flow id. */
  datatype Receipt = Receipt(flowId: string, body: string)

  predicate Has(d: seq<Receipt>, id: string) {
    exists i :: 0 <= i < |d| && d[i].flowId == id
  }

  predicate KeysOnce(d: seq<Receipt>) {
    forall i, j :: 0 <= i < j < |d| ==> d[i].flowId != d[j].flowId
  }

  /** `merged[item["rpaFlowId"]] = item` on an insertion-ordered dictionary, as the list of its values. */
  function Put(d: seq<Receipt>, item: Receipt): (r: seq<Receipt>)
    ensures |r| == if Has(d, item.flowId) then |d| else |d| + 1
    ensures Has(d, item.flowId) ==>
      forall i :: 0 <= i < |d| ==> r[i] == if d[i].flowId == item.flowId then item else d[i]
    ensures !Has(d, item.flowId) ==> r == d + [item]
  {
    if Has(d, item.flowId)
    then seq(|d|, i requires 0 <= i < |d| => if d[i].flowId == item.flowId then item else d[i])
    else d + [item]
  }

  function PutAll(d: seq<Receipt>, items: seq<Receipt>): seq<Receipt>
    decreases |items|
  {
    if items == [] then d else Put(PutAll(d, items[..|items| - 1]), items[|items| - 1])
  }

  /** What `main` writes: the old file read into a dictionary, then the new results. */
  function Merge(kept: seq<Receipt>, results: seq<Receipt>): seq<Receipt> {
    PutAll(PutAll([], kept), results)
  }

  method MergeReceipts(file: Option<seq<Receipt>>, results: seq<Receipt>) returns (merged: seq<Receipt>)
    ensures merged == Merge(if file.Some? then file.value else [], results)
  {
    merged := [];
    if file.Some? {
      var items := file.value;
      for k := 0 to |items|
        invariant merged == PutAll([], items[..k])
      {
        assert items[..k + 1][..k] == items[..k];
        merged := Put(merged, items[k]);
      }
      assert items[..|items|] == items;
    }
    ghost var base := merged;
    for k := 0 to |results|
      invariant merged == PutAll(base, results[..k])
    {
      assert results[..k + 1][..k] == results[..k];
      merged := Put(merged, results[k]);
    }
    assert results[..|results|] == results;
  }

  // ---------------------------------------------------------------- the result, described directly

  /** The ids of a list, each at its first appearance. */
  function FirstIds(items: seq<Receipt>): seq<string> {
    if items == [] then []
    else
      var n := |items| - 1;
      if items[n].flowId in FirstIds(items[..n]) then FirstIds(items[..n])
      else FirstIds(items[..n]) + [items[n].flowId]
  }

  /** The newest receipt of an id. */
  function Newest(items: seq<Receipt>, id: string): Option<Receipt> {
    if items == [] then None
    else if items[|items| - 1].flowId == id then Some(items[|items| - 1])
    else Newest(items[..|items| - 1], id)
  }

  function Ids(d: seq<Receipt>): (r: seq<string>)
    ensures |r| == |d| && forall i :: 0 <= i < |d| ==> r[i] == d[i].flowId
  {
    seq(|d|, i requires 0 <= i < |d| => d[i].flowId)
  }

  /** `d` lists `items` one receipt per id: ids by first appearance, receipts by last. */
  ghost predicate Describes(d: seq<Receipt>, items: seq<Receipt>) {
    && Ids(d) == FirstIds(items)
    && forall i :: 0 <= i < |d| ==> Newest(items, d[i].flowId) == Some(d[i])
  }

  lemma {:induction false} ListedIffNewest(items: seq<Receipt>, id: string)
    ensures id in FirstIds(items) <==> Newest(items, id).Some?
  {
    if items != [] {
      ListedIffNewest(items[..|items| - 1], id);
    }
  }

  predicate AllOnce(ids: seq<string>) {
    forall i, j :: 0 <= i < j < |ids| ==> ids[i] != ids[j]
  }

  lemma OnceMore(ids: seq<string>, id: string)
    requires AllOnce(ids) && id !in ids
    ensures AllOnce(ids + [id])
  {
    forall i, j | 0 <= i < j < |ids + [id]| ensures (ids + [id])[i] != (ids + [id])[j] {
      assert ids[i] in ids;
    }
  }

  lemma {:induction false} FirstIdsFacts(items: seq<Receipt>)
    ensures AllOnce(FirstIds(items))
    ensures forall id :: id in FirstIds(items) <==> Newest(items, id).Some?
  {
    if items != [] {
      var n := |items| - 1;
      FirstIdsFacts(items[..n]);
      if items[n].flowId !in FirstIds(items[..n]) {
        OnceMore(FirstIds(items[..n]), items[n].flowId);
      }
    }
    forall id ensures id in FirstIds(items) <==> Newest(items, id).Some? {
      ListedIffNewest(items, id);
    }
  }

  lemma PutDescribes(d: seq<Receipt>, items: seq<Receipt>, item: Receipt)
    requires Describes(d, items)
    ensures Describes(Put(d, item), items + [item])
  {
    var all := items + [item];
    assert all[..|all| - 1] == items;
    FirstIdsFacts(items);
    var r := Put(d, item);
    assert forall i :: 0 <= i < |d| ==> Ids(d)[i] == d[i].flowId;
    if Has(d, item.flowId) {
      var i :| 0 <= i < |d| && d[i].flowId == item.flowId;
      assert Ids(d)[i] in FirstIds(items);
      assert Ids(r) == Ids(d);
    } else {
      assert item.flowId !in Ids(d);
      assert Ids(r) == Ids(d) + [item.flowId];
    }
  }

  lemma {:induction false} PutAllDescribes(d: seq<Receipt>, base: seq<Receipt>, items: seq<Receipt>)
    requires Describes(d, base)
    ensures Describes(PutAll(d, items), base + items)
    decreases |items|
  {
    if items == [] {
      assert base + items == base;
    } else {
      var n := |items| - 1;
      PutAllDescribes(d, base, items[..n]);
      PutDescribes(PutAll(d, items[..n]), base + items[..n], items[n]);
      assert (base + items[..n]) + [items[n]] == base + items;
    }
  }

  /**
   * The merged list has one receipt per flow id: old ids in first-appearance order, then new ids in
   * package order; for each the newest receipt.
   */
  lemma MergeDescribes(kept: seq<Receipt>, results: seq<Receipt>)
    ensures Describes(Merge(kept, results), kept + results) && KeysOnce(Merge(kept, results))
    ensures FirstIds(kept) <= Ids(Merge(kept, results))
  {
    PutAllDescribes([], [], kept);
    assert [] + kept == kept;
    PutAllDescribes(PutAll([], kept), kept, results);
    FirstIdsFacts(kept + results);
    FirstIdsOfConcat(kept, results);
    var d := Merge(kept, results);
    assert forall i :: 0 <= i < |d| ==> Ids(d)[i] == d[i].flowId;
  }

  lemma {:induction false} NewestOfConcat(a: seq<Receipt>, b: seq<Receipt>, id: string)
    ensures Newest(a + b, id) == if Newest(b, id).Some? then Newest(b, id) else Newest(a, id)
    decreases |b|
  {
    if b == [] {
      assert a + b == a;
    } else {
      assert (a + b)[..|a + b| - 1] == a + b[..|b| - 1];
      NewestOfConcat(a, b[..|b| - 1], id);
    }
  }

  /** The newest receipt wins for a flow published in this run; all others keep their old receipt. */
  lemma PublishedWins(kept: seq<Receipt>, results: seq<Receipt>, i: nat)
    requires i < |Merge(kept, results)|
    ensures var r := Merge(kept, results)[i];
      Some(r) == if Newest(results, r.flowId).Some? then Newest(results, r.flowId) else Newest(kept, r.flowId)
  {
    MergeDescribes(kept, results);
    NewestOfConcat(kept, results, Merge(kept, results)[i].flowId);
  }

  lemma {:induction false} FirstIdsOfConcat(a: seq<Receipt>, b: seq<Receipt>)
    ensures FirstIds(a) <= FirstIds(a + b)
    ensures (forall r :: r in b ==> r.flowId in FirstIds(a)) ==> FirstIds(a + b) == FirstIds(a)
    decreases |b|
  {
    if b == [] {
      assert a + b == a;
    } else {
      assert (a + b)[..|a + b| - 1] == a + b[..|b| - 1];
      FirstIdsOfConcat(a, b[..|b| - 1]);
    }
  }

  lemma {:induction false} FirstIdsOfDistinct(d: seq<Receipt>)
    requires KeysOnce(d)
    ensures FirstIds(d) == Ids(d)
    ensures forall i :: 0 <= i < |d| ==> Newest(d, d[i].flowId) == Some(d[i])
  {
    if d != [] {
      var n := |d| - 1;
      FirstIdsOfDistinct(d[..n]);
      assert Ids(d) == Ids(d[..n]) + [d[n].flowId];
      forall i | 0 <= i < n ensures Newest(d, d[i].flowId) == Some(d[i]) {
        assert d[..n][i] == d[i] && d[i].flowId != d[n].flowId;
      }
      assert forall i :: 0 <= i < n ==> Ids(d[..n])[i] != d[n].flowId;
    }
  }

  /** A list is determined by what it describes. */
  lemma DescribedOnce(a: seq<Receipt>, b: seq<Receipt>, x: seq<Receipt>, y: seq<Receipt>)
    requires Describes(a, x) && Describes(b, y) && FirstIds(x) == FirstIds(y)
    requires forall id :: id in FirstIds(x) ==> Newest(x, id) == Newest(y, id)
    ensures a == b
  {
    assert |a| == |Ids(a)| == |Ids(b)| == |b|;
    forall i | 0 <= i < |a| ensures a[i] == b[i] {
      assert Ids(a)[i] == Ids(b)[i] && Ids(a)[i] in FirstIds(x);
    }
  }

  /** Merging the same results again changes nothing. */
  lemma MergeAgain(kept: seq<Receipt>, results: seq<Receipt>)
    ensures Merge(Merge(kept, results), results) == Merge(kept, results)
  {
    var once := Merge(kept, results);
    MergeDescribes(kept, results);
    MergeDescribes(once, results);
    FirstIdsOfDistinct(once);
    FirstIdsFacts(kept + results);
    forall r | r in results ensures r.flowId in FirstIds(once) {
      NewestOfConcat(kept, results, r.flowId);
      HasNewest(results, r);
    }
    FirstIdsOfConcat(once, results);
    forall id | id in FirstIds(once + results) ensures Newest(once + results, id) == Newest(kept + results, id) {
      NewestOfConcat(kept, results, id);
      NewestOfConcat(once, results, id);
      var i :| 0 <= i < |once| && Ids(once)[i] == id;
      assert Newest(once, once[i].flowId) == Some(once[i]);
    }
    DescribedOnce(Merge(once, results), once, once + results, kept + results);
  }

  lemma {:induction false} HasNewest(items: seq<Receipt>, r: Receipt)
    requires r in items
    ensures Newest(items, r.flowId).Some?
  {
    if items[|items| - 1].flowId != r.flowId {
      HasNewest(items[..|items| - 1], r);
    }
  }
}
