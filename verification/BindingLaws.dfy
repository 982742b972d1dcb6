/** Laws of the shared bind loop, for every plan: frame, uniqueness, rerun, independence. */
module BindingLaws {
  import opened Text
  import opened BindingStore

  /** The whole run of the loop over all portals. */
  function BoundRows(plan: Plan, portals: seq<Portal>, rows: seq<Binding>, ids: nat -> string): seq<Binding> {
    Bound(plan, portals, |portals|, rows, ids)
  }

  predicate TakenId(plan: Plan, portals: seq<Portal>, id: string) {
    TakenBefore(plan, portals, |portals|, id)
  }

  /**
   * Frame: existing rows keep their place; a row changes only if it is a live binding of the
   * plan's template on a taken portal; every further row belongs to such a portal.
   */
  lemma BindFrame(plan: Plan, portals: seq<Portal>, rows: seq<Binding>, ids: nat -> string)
    ensures var after := BoundRows(plan, portals, rows, ids);
      && |rows| <= |after|
      && (forall i :: 0 <= i < |rows| ==>
            after[i] == if Touched(plan, portals, |portals|, rows[i]) then Update(plan, rows[i]) else rows[i])
      && (forall i :: |rows| <= i < |after| ==>
            after[i].live && after[i].templateId == plan.template.id && TakenId(plan, portals, after[i].portalId))
  {
    hide BindingsFor;
    var n := |portals|;
    var after := BoundRows(plan, portals, rows, ids);
    var source := CreatedFacts(plan, portals, n, rows, ids);
    var made := Created(plan, portals, n, rows, ids);
    forall i | |rows| <= i < |after|
      ensures after[i].live && after[i].templateId == plan.template.id && TakenId(plan, portals, after[i].portalId)
    {
      var c := i - |rows|;
      assert after[i] == made[c];
      assert InsertedFor(plan, portals, rows, ids, made[c], source[c]);
      assert Taken(plan, portals[source[c]]) && portals[source[c]].id == after[i].portalId;
    }
  }

  /** `after` is `rows` but for row `h`, which may have changed or be the one appended. */
  ghost predicate OnlyRowChanged(rows: seq<Binding>, after: seq<Binding>, h: int) {
    && 0 <= h < |after| && |rows| <= |after| <= |rows| + 1
    && forall i :: 0 <= i < |after| && i != h ==> i < |rows| && after[i] == rows[i]
  }

  /** Row `h` is enabled on the receipt; in all columns but its config it is else the row it was. */
  ghost predicate OnReceipt(rows: seq<Binding>, after: seq<Binding>, h: nat, receipt: Receipt)
    requires h < |after|
  {
    var b := after[h];
    && b.flowId == receipt.flowId && b.flowVersion == receipt.version && b.flowVersionId == receipt.versionId
    && b.checksum == receipt.checksum && b.status == "ENABLED"
    && (h < |rows| ==>
          b == rows[h].(flowId := b.flowId, flowVersion := b.flowVersion, flowVersionId := b.flowVersionId,
                        checksum := b.checksum, status := b.status, config := b.config))
  }

  /** A row that a bind inserts, in the columns beside the receipt and the config. */
  predicate IsNewFor(b: Binding, p: Portal, template: Template, id: string) {
    && b.id == id && b.portalId == p.id && b.templateId == template.id && b.live
    && b.templateVersion == (if template.version == "" then "1.0.0" else template.version)
    && b.engineType == "PLAYWRIGHT_CDP" && b.createdBy == p.createdBy
  }

  /** The config keys of row `h` before it was written; none for a new row. */
  function FieldsBefore(rows: seq<Binding>, h: nat): map<string, Json> {
    if h < |rows| then ConfigFields(rows[h].config) else map[]
  }

  /** The loop keeps at most one live binding per (portal, template) pair. */
  lemma BindKeepsOneLive(plan: Plan, portals: seq<Portal>, rows: seq<Binding>, ids: nat -> string)
    requires PortalKeys(portals) && OneLiveEach(rows)
    ensures OneLiveEach(BoundRows(plan, portals, rows, ids))
  {
    hide BindingsFor;
    var n := |portals|;
    var after := BoundRows(plan, portals, rows, ids);
    var source := CreatedFacts(plan, portals, n, rows, ids);
    var made := Created(plan, portals, n, rows, ids);
    forall i, j | 0 <= i < j < |after| && after[i].live && after[j].live
      ensures after[i].portalId != after[j].portalId || after[i].templateId != after[j].templateId
    {
      if j >= |rows| {
        var d := j - |rows|;
        assert InsertedFor(plan, portals, rows, ids, made[d], source[d]);
        var p := portals[source[d]];
        if i >= |rows| {
          assert InsertedFor(plan, portals, rows, ids, made[i - |rows|], source[i - |rows|]);
          assert source[i - |rows|] < source[d];
        } else {
          assert !IsFor(rows[i], p.id, plan.template.id);
        }
      }
    }
  }

  /** The rows that the loop appends, seen from one portal. */
  lemma AppendedFor(plan: Plan, portals: seq<Portal>, rows: seq<Binding>, ids: nat -> string, i: nat) returns (j: nat)
    requires |rows| <= i < |BoundRows(plan, portals, rows, ids)|
    ensures InsertedFor(plan, portals, rows, ids, BoundRows(plan, portals, rows, ids)[i], j)
  {
    hide BindingsFor;
    var source := CreatedFacts(plan, portals, |portals|, rows, ids);
    j := source[i - |rows|];
  }

  /** A binding with everything the plan sets, its config computed from some earlier one. */
  ghost predicate Carries(plan: Plan, b: Binding) {
    && b == Update(plan, b).(config := b.config)
    && exists was: Stored :: b.config == plan.config(was)
  }

  lemma UpdateCarries(plan: Plan, b: Binding)
    ensures Carries(plan, Update(plan, b))
  {
    assert Update(plan, b).config == plan.config(b.config);
  }

  lemma CreateCarries(plan: Plan, p: Portal, id: string)
    ensures Carries(plan, Create(plan, p, id))
  {
    assert Create(plan, p, id).config == plan.config(Unreadable);
  }

  /** After the loop every taken portal has exactly one live binding, and it carries the plan. */
  lemma TakenIsBound(plan: Plan, portals: seq<Portal>, rows: seq<Binding>, ids: nat -> string, j: nat) returns (h: nat)
    requires PortalKeys(portals) && Offence(plan, portals, |portals|, rows) == None
    requires j < |portals| && Taken(plan, portals[j])
    ensures var after := BoundRows(plan, portals, rows, ids);
      h < |after| && BindingsFor(after, portals[j].id, plan.template.id) == [h] && Carries(plan, after[h])
  {
    hide BindingsFor;
    NoDuplicateHits(plan, portals, |portals|, rows, j);
    if BindingsFor(rows, portals[j].id, plan.template.id) == [] {
      h := MissingIsInserted(plan, portals, rows, ids, j);
    } else {
      h := PresentIsUpdated(plan, portals, rows, ids, j);
    }
  }

  lemma AppendedPortalsDiffer(plan: Plan, portals: seq<Portal>, rows: seq<Binding>, ids: nat -> string, i: nat, h: nat)
    requires PortalKeys(portals) && i != h
    requires |rows| <= i < |BoundRows(plan, portals, rows, ids)| && |rows| <= h < |BoundRows(plan, portals, rows, ids)|
    ensures var after := BoundRows(plan, portals, rows, ids); after[i].portalId != after[h].portalId
  {
    hide BindingsFor;
    var source := CreatedFacts(plan, portals, |portals|, rows, ids);
    var made := Created(plan, portals, |portals|, rows, ids);
    var c, d := i - |rows|, h - |rows|;
    assert InsertedFor(plan, portals, rows, ids, made[c], source[c]);
    assert InsertedFor(plan, portals, rows, ids, made[d], source[d]);
    assert if c < d then source[c] < source[d] else source[d] < source[c];
  }

  lemma MissingIsInserted(plan: Plan, portals: seq<Portal>, rows: seq<Binding>, ids: nat -> string, j: nat) returns (h: nat)
    requires PortalKeys(portals) && j < |portals| && Taken(plan, portals[j])
    requires BindingsFor(rows, portals[j].id, plan.template.id) == []
    ensures var after := BoundRows(plan, portals, rows, ids);
      && h < |after| && BindingsFor(after, portals[j].id, plan.template.id) == [h]
      && after[h] == Create(plan, portals[j], ids(j)) && Carries(plan, after[h])
  {
    hide BindingsFor;
    var t, id := plan.template.id, portals[j].id;
    var after := BoundRows(plan, portals, rows, ids);
    var c := CreatedComplete(plan, portals, |portals|, rows, ids, j);
    h := |rows| + c;
    CreateCarries(plan, portals[j], ids(j));
    BindFrame(plan, portals, rows, ids);
    forall i | 0 <= i < |after| && i != h ensures !IsFor(after[i], id, t) {
      if i >= |rows| {
        AppendedPortalsDiffer(plan, portals, rows, ids, i, h);
      } else {
        assert !IsFor(rows[i], id, t);
      }
    }
    OnlyHit(after, id, t, h);
  }

  lemma SingleHit(rows: seq<Binding>, portalId: string, templateId: string)
    requires |BindingsFor(rows, portalId, templateId)| == 1
    ensures forall i :: 0 <= i < |rows| && IsFor(rows[i], portalId, templateId)
                    ==> i == BindingsFor(rows, portalId, templateId)[0]
  {
    var hits := BindingsFor(rows, portalId, templateId);
    assert forall i :: 0 <= i < |rows| && IsFor(rows[i], portalId, templateId) ==> i in hits;
  }

  lemma PresentIsUpdated(plan: Plan, portals: seq<Portal>, rows: seq<Binding>, ids: nat -> string, j: nat) returns (h: nat)
    requires PortalKeys(portals) && j < |portals| && Taken(plan, portals[j])
    requires |BindingsFor(rows, portals[j].id, plan.template.id)| == 1
    ensures var after := BoundRows(plan, portals, rows, ids);
      && h < |rows| && BindingsFor(after, portals[j].id, plan.template.id) == [h]
      && after[h] == Update(plan, rows[h]) && Carries(plan, after[h])
  {
    hide BindingsFor;
    var t, id := plan.template.id, portals[j].id;
    var after := BoundRows(plan, portals, rows, ids);
    h := BindingsFor(rows, id, t)[0];
    SingleHit(rows, id, t);
    UpdateCarries(plan, rows[h]);
    assert TakenBefore(plan, portals, |portals|, id);
    assert Touched(plan, portals, |portals|, rows[h]);
    BindFrame(plan, portals, rows, ids);
    forall i | 0 <= i < |after| && i != h ensures !IsFor(after[i], id, t) {
      if i >= |rows| {
        var k := AppendedFor(plan, portals, rows, ids, i);
        SameIdSamePortal(portals, k, j);
      }
    }
    OnlyHit(after, id, t, h);
  }

  lemma SameIdSamePortal(portals: seq<Portal>, k: nat, j: nat)
    requires PortalKeys(portals) && k < |portals| && j < |portals|
    ensures portals[k].id == portals[j].id ==> k == j
  {
  }

  lemma {:induction false} NoHits(rows: seq<Binding>, portalId: string, templateId: string)
    requires forall i :: 0 <= i < |rows| ==> !IsFor(rows[i], portalId, templateId)
    ensures BindingsFor(rows, portalId, templateId) == []
  {
    if rows != [] {
      NoHits(rows[..|rows| - 1], portalId, templateId);
    }
  }

  lemma {:induction false} OnlyHit(rows: seq<Binding>, portalId: string, templateId: string, h: nat)
    requires h < |rows| && IsFor(rows[h], portalId, templateId)
    requires forall i :: 0 <= i < |rows| && i != h ==> !IsFor(rows[i], portalId, templateId)
    ensures BindingsFor(rows, portalId, templateId) == [h]
  {
    var n := |rows| - 1;
    if h < n {
      OnlyHit(rows[..n], portalId, templateId, h);
    } else {
      NoHits(rows[..n], portalId, templateId);
    }
  }

  lemma {:induction false} NoDuplicateHits(plan: Plan, portals: seq<Portal>, k: nat, rows: seq<Binding>, j: nat)
    requires j < k <= |portals| && Offence(plan, portals, k, rows) == None && Taken(plan, portals[j])
    ensures |BindingsFor(rows, portals[j].id, plan.template.id)| <= 1
    decreases k
  {
    hide BindingsFor;
    if j < k - 1 {
      NoDuplicateHits(plan, portals, k - 1, rows, j);
    }
  }

  /** The one row of a taken portal after the loop: the row it had, updated, or a new one. */
  lemma WrittenRow(plan: Plan, portals: seq<Portal>, rows: seq<Binding>, ids: nat -> string, j: nat, h: nat)
    requires PortalKeys(portals) && j < |portals| && Taken(plan, portals[j])
    requires BindingsFor(BoundRows(plan, portals, rows, ids), portals[j].id, plan.template.id) == [h]
    ensures var after := BoundRows(plan, portals, rows, ids);
      && h < |after| && IsFor(after[h], portals[j].id, plan.template.id)
      && after[h] == if h < |rows| then Update(plan, rows[h]) else Create(plan, portals[j], ids(j))
  {
    hide BindingsFor;
    var after := BoundRows(plan, portals, rows, ids);
    assert BindingsFor(after, portals[j].id, plan.template.id)[0] == h;
    BindFrame(plan, portals, rows, ids);
    if h < |rows| {
      assert TakenBefore(plan, portals, |portals|, portals[j].id);
      assert Touched(plan, portals, |portals|, rows[h]);
    } else {
      var k := AppendedFor(plan, portals, rows, ids, h);
      SameIdSamePortal(portals, k, j);
    }
  }

  /** A portal that does not stop the loop: not refused, and if taken, with no two rows to choose from. */
  ghost predicate Acceptable(plan: Plan, p: Portal, rows: seq<Binding>) {
    p.live ==> !plan.judge(p).Refuse? && (plan.judge(p).Take? ==> |BindingsFor(rows, p.id, plan.template.id)| <= 1)
  }

  /** The loop runs to its end exactly when every portal is acceptable. */
  lemma {:induction false} NoOffenceIff(plan: Plan, portals: seq<Portal>, k: nat, rows: seq<Binding>)
    requires k <= |portals|
    ensures Offence(plan, portals, k, rows) == None <==> forall i :: 0 <= i < k ==> Acceptable(plan, portals[i], rows)
  {
    hide BindingsFor;
    if k > 0 {
      NoOffenceIff(plan, portals, k - 1, rows);
    }
  }

  /** The reason for which an unacceptable portal stops the loop. */
  function StopReason(plan: Plan, p: Portal): Reason {
    if plan.judge(p).Refuse? then plan.judge(p).reason else MultipleRows
  }

  /** The loop stops at its first unacceptable portal, with the reason of that one. */
  lemma {:induction false} StopsAtFirst(plan: Plan, portals: seq<Portal>, k: nat, rows: seq<Binding>, j: nat)
    requires j < k <= |portals| && !Acceptable(plan, portals[j], rows)
    requires forall i :: 0 <= i < j ==> Acceptable(plan, portals[i], rows)
    ensures Offence(plan, portals, k, rows) == Some(StopReason(plan, portals[j]))
    decreases k
  {
    hide BindingsFor;
    NoOffenceIff(plan, portals, j, rows);
    if j < k - 1 {
      StopsAtFirst(plan, portals, k - 1, rows, j);
    }
  }

  lemma {:induction false} FirstUnacceptable(plan: Plan, portals: seq<Portal>, k: nat, rows: seq<Binding>) returns (j: nat)
    requires k <= |portals| && Offence(plan, portals, k, rows).Some?
    ensures j < k && !Acceptable(plan, portals[j], rows) && forall i :: 0 <= i < j ==> Acceptable(plan, portals[i], rows)
    decreases k
  {
    hide BindingsFor;
    if Offence(plan, portals, k - 1, rows).Some? {
      j := FirstUnacceptable(plan, portals, k - 1, rows);
    } else {
      j := k - 1;
      NoOffenceIff(plan, portals, k - 1, rows);
    }
  }

  /** With at most one live binding per pair the loop never finds two rows to choose from. */
  lemma {:induction false} NoTwoRows(plan: Plan, portals: seq<Portal>, k: nat, rows: seq<Binding>)
    requires k <= |portals| && OneLiveEach(rows) && forall p: Portal :: plan.judge(p) != Refuse(MultipleRows)
    ensures Offence(plan, portals, k, rows) != Some(MultipleRows)
  {
    hide BindingsFor, OneLiveEach;
    if k > 0 {
      NoTwoRows(plan, portals, k - 1, rows);
      OneLiveLookup(rows, portals[k - 1].id, plan.template.id);
    }
  }

  /** Rows that keep their keys keep their uniqueness. */
  lemma KeysKeepOneLive(rows: seq<Binding>, after: seq<Binding>)
    requires OneLiveEach(rows) && |after| == |rows|
    requires forall i :: 0 <= i < |rows| ==>
      after[i].live == rows[i].live && after[i].portalId == rows[i].portalId && after[i].templateId == rows[i].templateId
    ensures OneLiveEach(after)
  {
    forall i, j | 0 <= i < j < |after| && after[i].live && after[j].live
      ensures after[i].portalId != after[j].portalId || after[i].templateId != after[j].templateId
    {
      assert rows[i].live && rows[j].live;
    }
  }

  // ---------------------------------------------------------------- rerun

  /** Applying the plan's config twice is applying it once. */
  ghost predicate SettledConfig(plan: Plan) {
    forall c: Stored :: plan.config(plan.config(c)) == plan.config(c)
  }

  lemma {:induction false} NoOffenceAfter(plan: Plan, portals: seq<Portal>, rows: seq<Binding>, ids: nat -> string, k: nat)
    requires PortalKeys(portals) && Offence(plan, portals, |portals|, rows) == None && k <= |portals|
    ensures Offence(plan, portals, k, BoundRows(plan, portals, rows, ids)) == None
  {
    hide BindingsFor;
    if k > 0 {
      NoOffenceAfter(plan, portals, rows, ids, k - 1);
      NoOffenceUpTo(plan, portals, rows, k);
      if Taken(plan, portals[k - 1]) {
        var h := TakenIsBound(plan, portals, rows, ids, k - 1);
      }
    }
  }

  lemma {:induction false} NoOffenceUpTo(plan: Plan, portals: seq<Portal>, rows: seq<Binding>, k: nat)
    requires k <= |portals| && Offence(plan, portals, |portals|, rows) == None
    ensures Offence(plan, portals, k, rows) == None
  {
    if Offence(plan, portals, k, rows).Some? {
      OffenceStays(plan, portals, k, rows);
    }
  }

  ghost predicate AllBound(plan: Plan, portals: seq<Portal>, rows: seq<Binding>) {
    forall j :: 0 <= j < |portals| && Taken(plan, portals[j]) ==> BindingsFor(rows, portals[j].id, plan.template.id) != []
  }

  lemma {:induction false} NothingMissing(plan: Plan, portals: seq<Portal>, k: nat, rows: seq<Binding>, ids: nat -> string)
    requires k <= |portals| && AllBound(plan, portals, rows)
    ensures Created(plan, portals, k, rows, ids) == []
  {
    hide BindingsFor;
    if k > 0 {
      NothingMissing(plan, portals, k - 1, rows, ids);
    }
  }

  lemma AllBoundAfter(plan: Plan, portals: seq<Portal>, rows: seq<Binding>, ids: nat -> string)
    requires PortalKeys(portals) && Offence(plan, portals, |portals|, rows) == None
    ensures AllBound(plan, portals, BoundRows(plan, portals, rows, ids))
  {
    hide BindingsFor;
    forall j | 0 <= j < |portals| && Taken(plan, portals[j])
      ensures BindingsFor(BoundRows(plan, portals, rows, ids), portals[j].id, plan.template.id) != []
    {
      var h := TakenIsBound(plan, portals, rows, ids, j);
    }
  }

  /** Rerunning a successful bind, with any new ids, is a no-op. */
  lemma RebindIsNoOp(plan: Plan, portals: seq<Portal>, rows: seq<Binding>, ids: nat -> string, again: nat -> string)
    requires PortalKeys(portals) && SettledConfig(plan)
    requires BoundAll(plan, portals, rows, ids).Going?
    ensures BoundAll(plan, portals, BoundRows(plan, portals, rows, ids), again) == BoundAll(plan, portals, rows, ids)
  {
    hide BindingsFor;
    var n := |portals|;
    var after := BoundRows(plan, portals, rows, ids);
    NoOffenceAfter(plan, portals, rows, ids, n);
    AllBoundAfter(plan, portals, rows, ids);
    NothingMissing(plan, portals, n, after, again);
    forall i | 0 <= i < |after| ensures Updated(plan, portals, n, after)[i] == after[i] {
      if i >= |rows| {
        var j := AppendedFor(plan, portals, rows, ids, i);
      } else {
        assert after[i] == Updated(plan, portals, n, rows)[i];
      }
    }
    assert Updated(plan, portals, n, after) == after;
  }

  // ---------------------------------------------------------------- independence

  function MapRows(f: Binding -> Binding, rows: seq<Binding>): (r: seq<Binding>)
    ensures |r| == |rows| && forall i :: 0 <= i < |rows| ==> r[i] == f(rows[i])
  {
    seq(|rows|, i requires 0 <= i < |rows| => f(rows[i]))
  }

  /** A row change that keeps what lookups see. */
  ghost predicate KeepsKeys(f: Binding -> Binding) {
    forall b: Binding :: f(b).live == b.live && f(b).portalId == b.portalId && f(b).templateId == b.templateId
  }

  /** A row change that keeps what lookups see, and leaves the portals of the plan alone. */
  ghost predicate Independent(plan: Plan, portals: seq<Portal>, f: Binding -> Binding) {
    KeepsKeys(f) && forall b: Binding :: TakenId(plan, portals, b.portalId) ==> f(b) == b
  }

  lemma HitsOfMap(f: Binding -> Binding, rows: seq<Binding>, portalId: string, templateId: string)
    requires KeepsKeys(f)
    ensures BindingsFor(MapRows(f, rows), portalId, templateId) == BindingsFor(rows, portalId, templateId)
  {
    HitsByKeys(MapRows(f, rows), rows, portalId, templateId);
  }

  lemma {:induction false} OffenceOfMap(plan: Plan, portals: seq<Portal>, k: nat, rows: seq<Binding>, f: Binding -> Binding)
    requires k <= |portals| && KeepsKeys(f)
    ensures Offence(plan, portals, k, MapRows(f, rows)) == Offence(plan, portals, k, rows)
  {
    hide BindingsFor, KeepsKeys, MapRows;
    if k > 0 {
      OffenceOfMap(plan, portals, k - 1, rows, f);
      HitsOfMap(f, rows, portals[k - 1].id, plan.template.id);
    }
  }

  lemma {:induction false} CreatedOfMap(plan: Plan, portals: seq<Portal>, k: nat, rows: seq<Binding>, ids: nat -> string,
                                        f: Binding -> Binding)
    requires k <= |portals| && KeepsKeys(f)
    ensures Created(plan, portals, k, MapRows(f, rows), ids) == Created(plan, portals, k, rows, ids)
  {
    hide BindingsFor, KeepsKeys, MapRows, Create, Taken;
    if k > 0 {
      CreatedOfMap(plan, portals, k - 1, rows, ids, f);
      HitsOfMap(f, rows, portals[k - 1].id, plan.template.id);
    }
  }

  /** An independent change and the bind loop commute, the loop's refusals included. */
  lemma BindCommutes(plan: Plan, portals: seq<Portal>, rows: seq<Binding>, ids: nat -> string, f: Binding -> Binding)
    requires Independent(plan, portals, f)
    ensures BoundAll(plan, portals, MapRows(f, rows), ids)
         == match BoundAll(plan, portals, rows, ids)
            case Stopped(reason) => Stopped(reason)
            case Going(after, updated) => Going(MapRows(f, after), updated)
  {
    hide BindingsFor;
    var n := |portals|;
    OffenceOfMap(plan, portals, n, rows, f);
    CreatedOfMap(plan, portals, n, rows, ids, f);
    var a, b := BoundRows(plan, portals, MapRows(f, rows), ids), MapRows(f, BoundRows(plan, portals, rows, ids));
    BindFrame(plan, portals, rows, ids);
    BindFrame(plan, portals, MapRows(f, rows), ids);
    forall i | 0 <= i < |a| ensures a[i] == b[i] {
      if i < |rows| {
        assert MapRows(f, rows)[i] == f(rows[i]);
      }
    }
    assert a == b;
  }
}
