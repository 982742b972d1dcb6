/**
 * The tables that the binding scripts read and change, and the one shape most of them share:
 * for every portal that a script takes, update its one live binding or insert one.
 */
module BindingStore {
  import opened Text

  // ---------------------------------------------------------------- rows

  datatype Json =
    | JNull
    | JBool(flag: bool)
    | JText(text: string)
    | JNumber(digits: string)
    | JList(items: seq<Json>)
    | JObject(fields: map<string, Json>)

  /** A config column: text that is empty or not JSON, or the document it holds. */
  datatype Stored = Unreadable | Document(value: Json)

  /** `loads_json(raw, {})`, and an empty object when the result is no object. */
  function ConfigFields(raw: Stored): map<string, Json> {
    if raw.Document? && raw.value.JObject? then raw.value.fields else map[]
  }

  /** Reading back what `dumps_json` wrote gives the same fields; anything that is no object reads as an empty one. */
  lemma ConfigRoundTrip(fields: map<string, Json>, other: Stored)
    ensures ConfigFields(Document(JObject(fields))) == fields
    ensures (forall f :: other != Document(JObject(f))) ==> ConfigFields(other) == map[]
  {
  }

  datatype Portal = Portal(id: string, tenant: string, name: string, url: string, createdBy: string, live: bool)

  datatype Template = Template(id: string, tenant: string, code: string, version: string, createdBy: string, live: bool)

  datatype Binding = Binding(
    id: string, portalId: string, templateId: string, templateVersion: string, engineType: string,
    flowId: string, flowVersion: string, flowVersionId: string, checksum: string,
    status: string, config: Stored, createdBy: string, live: bool)

  datatype Job = Job(id: string, bindingId: string, enabled: bool, live: bool)

  datatype Tables = Tables(portals: seq<Portal>, templates: seq<Template>, bindings: seq<Binding>, jobs: seq<Job>)

  /** A publish receipt; the checksum is already normalised. */
  datatype Receipt = Receipt(flowId: string, version: string, versionId: string, checksum: string, engine: string)

  datatype Reason =
    | WrongDatabase | ReceiptMismatch | LocalVersion | WrongEngine
    | TemplateMissing | PortalMissing | NoSampleTemplate | DuplicateKey | MultipleRows
    | ProductionName | UnexpectedUrl | NoneUpdated | NotExactlyOne

  datatype Outcome = Committed(tables: Tables) | Aborted(reason: Reason)

  /** What a database holds after a script: a session that does not commit leaves no trace. */
  function After(outcome: Outcome, before: Tables): Tables {
    match outcome
    case Committed(tables) => tables
    case Aborted(_) => before
  }

  class Database {
    var portals: seq<Portal>
    var templates: seq<Template>
    var bindings: seq<Binding>
    var jobs: seq<Job>

    constructor (tables: Tables)
      ensures Contents() == tables
    {
      portals, templates, bindings, jobs := tables.portals, tables.templates, tables.bindings, tables.jobs;
    }

    function Contents(): Tables
      reads this
    {
      Tables(portals, templates, bindings, jobs)
    }
  }

  // ---------------------------------------------------------------- selections

  predicate IsFor(b: Binding, portalId: string, templateId: string) {
    b.live && b.portalId == portalId && b.templateId == templateId
  }

  predicate Increasing(s: seq<int>) {
    forall i, j :: 0 <= i < j < |s| ==> s[i] < s[j]
  }

  /** The rows of `select(WorkflowBinding)` for one portal and template, as row numbers. */
  function BindingsFor(rows: seq<Binding>, portalId: string, templateId: string): (hits: seq<int>)
    ensures forall j :: 0 <= j < |hits| ==> 0 <= hits[j] < |rows| && IsFor(rows[hits[j]], portalId, templateId)
    ensures forall i :: 0 <= i < |rows| && IsFor(rows[i], portalId, templateId) ==> i in hits
    ensures Increasing(hits)
  {
    if rows == [] then []
    else
      var n := |rows| - 1;
      var before := BindingsFor(rows[..n], portalId, templateId);
      if IsFor(rows[n], portalId, templateId) then before + [n] else before
  }

  function LiveTemplates(rows: seq<Template>, code: string): (hits: seq<int>)
    ensures forall j :: 0 <= j < |hits| ==> 0 <= hits[j] < |rows| && rows[hits[j]].live && rows[hits[j]].code == code
    ensures forall i :: 0 <= i < |rows| && rows[i].live && rows[i].code == code ==> i in hits
    ensures Increasing(hits)
  {
    if rows == [] then []
    else
      var n := |rows| - 1;
      var before := LiveTemplates(rows[..n], code);
      if rows[n].live && rows[n].code == code then before + [n] else before
  }

  /** Looking a portal up by primary key. */
  function PortalOf(rows: seq<Portal>, id: string): (r: Option<Portal>)
    ensures r.Some? ==> r.value in rows && r.value.id == id
    ensures r.None? ==> forall i :: 0 <= i < |rows| ==> rows[i].id != id
  {
    if rows == [] then None
    else if rows[0].id == id then Some(rows[0])
    else PortalOf(rows[1..], id)
  }

  function TemplateOf(rows: seq<Template>, id: string): (r: Option<Template>)
    ensures r.Some? ==> r.value in rows && r.value.id == id
    ensures r.None? ==> forall i :: 0 <= i < |rows| ==> rows[i].id != id
  {
    if rows == [] then None
    else if rows[0].id == id then Some(rows[0])
    else TemplateOf(rows[1..], id)
  }

  ghost predicate PortalKeys(rows: seq<Portal>) {
    forall i, j :: 0 <= i < j < |rows| ==> rows[i].id != rows[j].id
  }

  ghost predicate TemplateKeys(rows: seq<Template>) {
    forall i, j :: 0 <= i < j < |rows| ==> rows[i].id != rows[j].id
  }

  lemma {:induction false} PortalByKey(rows: seq<Portal>, k: nat)
    requires PortalKeys(rows) && k < |rows|
    ensures PortalOf(rows, rows[k].id) == Some(rows[k])
  {
    if k > 0 {
      PortalByKey(rows[1..], k - 1);
    }
  }

  lemma {:induction false} TemplateByKey(rows: seq<Template>, k: nat)
    requires TemplateKeys(rows) && k < |rows|
    ensures TemplateOf(rows, rows[k].id) == Some(rows[k])
  {
    if k > 0 {
      TemplateByKey(rows[1..], k - 1);
    }
  }

  /** Each (portal, template) pair has at most one live binding. No index of the table enforces this. */
  ghost predicate OneLiveEach(rows: seq<Binding>) {
    forall i, j :: 0 <= i < j < |rows| && rows[i].live && rows[j].live
               ==> rows[i].portalId != rows[j].portalId || rows[i].templateId != rows[j].templateId
  }

  /** With at most one live binding per pair, no lookup finds two rows. */
  lemma OneLiveLookup(rows: seq<Binding>, portalId: string, templateId: string)
    ensures OneLiveEach(rows) ==> |BindingsFor(rows, portalId, templateId)| <= 1
  {
    var hits := BindingsFor(rows, portalId, templateId);
    if |hits| > 1 {
      assert hits[0] < hits[1];
    }
  }

  // ---------------------------------------------------------------- binding every taken portal

  datatype Verdict = Skip | Take | Refuse(reason: Reason)

  /** What a script binds, which portals it takes, and the config it leaves. */
  datatype Plan = Plan(template: Template, receipt: Receipt, judge: Portal -> Verdict, config: Stored -> Stored)

  function Update(plan: Plan, b: Binding): Binding {
    b.(flowId := plan.receipt.flowId,
       flowVersion := plan.receipt.version,
       flowVersionId := plan.receipt.versionId,
       checksum := plan.receipt.checksum,
       status := "ENABLED",
       config := plan.config(b.config))
  }

  function Create(plan: Plan, p: Portal, id: string): Binding {
    Binding(id, p.id, plan.template.id, if plan.template.version == "" then "1.0.0" else plan.template.version,
            "PLAYWRIGHT_CDP", plan.receipt.flowId, plan.receipt.version, plan.receipt.versionId,
            plan.receipt.checksum, "ENABLED", plan.config(Unreadable), p.createdBy, true)
  }

  predicate Taken(plan: Plan, p: Portal) {
    p.live && plan.judge(p) == Take
  }

  /** The first reason, in portal order, for which the loop stops. */
  function Offence(plan: Plan, portals: seq<Portal>, k: nat, rows: seq<Binding>): Option<Reason>
    requires k <= |portals|
  {
    if k == 0 then None
    else
      var p := portals[k - 1];
      var earlier := Offence(plan, portals, k - 1, rows);
      if earlier.Some? || !p.live then earlier
      else if plan.judge(p).Refuse? then Some(plan.judge(p).reason)
      else if plan.judge(p).Take? && |BindingsFor(rows, p.id, plan.template.id)| > 1 then Some(MultipleRows)
      else None
  }

  predicate TakenBefore(plan: Plan, portals: seq<Portal>, k: nat, id: string)
    requires k <= |portals|
  {
    exists j :: 0 <= j < k && Taken(plan, portals[j]) && portals[j].id == id
  }

  /** An existing binding that the first `k` portals update. */
  predicate Touched(plan: Plan, portals: seq<Portal>, k: nat, b: Binding)
    requires k <= |portals|
  {
    b.live && b.templateId == plan.template.id && TakenBefore(plan, portals, k, b.portalId)
  }

  function Updated(plan: Plan, portals: seq<Portal>, k: nat, rows: seq<Binding>): (r: seq<Binding>)
    requires k <= |portals|
    ensures |r| == |rows|
    ensures forall i :: 0 <= i < |rows| ==>
      r[i] == if Touched(plan, portals, k, rows[i]) then Update(plan, rows[i]) else rows[i]
  {
    seq(|rows|, i requires 0 <= i < |rows| =>
      if Touched(plan, portals, k, rows[i]) then Update(plan, rows[i]) else rows[i])
  }

  function Created(plan: Plan, portals: seq<Portal>, k: nat, rows: seq<Binding>, ids: nat -> string): seq<Binding>
    requires k <= |portals|
  {
    if k == 0 then []
    else
      var p := portals[k - 1];
      Created(plan, portals, k - 1, rows, ids)
      + if Taken(plan, p) && BindingsFor(rows, p.id, plan.template.id) == [] then [Create(plan, p, ids(k - 1))] else []
  }

  function CountTaken(plan: Plan, portals: seq<Portal>, k: nat): nat
    requires k <= |portals|
  {
    if k == 0 then 0 else CountTaken(plan, portals, k - 1) + if Taken(plan, portals[k - 1]) then 1 else 0
  }

  /** The rows after the first `k` portals: matching rows updated in place, missing ones appended. */
  function Bound(plan: Plan, portals: seq<Portal>, k: nat, rows: seq<Binding>, ids: nat -> string): seq<Binding>
    requires k <= |portals|
  {
    Updated(plan, portals, k, rows) + Created(plan, portals, k, rows, ids)
  }

  datatype Step = Going(rows: seq<Binding>, updated: nat) | Stopped(reason: Reason)

  /** The outcome of the loop in closed form. */
  function BoundAll(plan: Plan, portals: seq<Portal>, rows: seq<Binding>, ids: nat -> string): Step {
    var n := |portals|;
    match Offence(plan, portals, n, rows)
    case Some(reason) => Stopped(reason)
    case None => Going(Bound(plan, portals, n, rows, ids), CountTaken(plan, portals, n))
  }

  /** `b` is the row that portal `j` inserts. */
  ghost predicate InsertedFor(plan: Plan, portals: seq<Portal>, rows: seq<Binding>, ids: nat -> string, b: Binding, j: nat) {
    && j < |portals| && Taken(plan, portals[j])
    && BindingsFor(rows, portals[j].id, plan.template.id) == []
    && b == Create(plan, portals[j], ids(j))
  }

  lemma {:induction false} CreatedFacts(plan: Plan, portals: seq<Portal>, k: nat, rows: seq<Binding>, ids: nat -> string)
      returns (source: seq<nat>)
    requires k <= |portals|
    ensures var made := Created(plan, portals, k, rows, ids);
      && |source| == |made|
      && (forall c :: 0 <= c < |made| ==> source[c] < k && InsertedFor(plan, portals, rows, ids, made[c], source[c]))
      && (forall c, d :: 0 <= c < d < |made| ==> source[c] < source[d])
  {
    hide BindingsFor, Taken, Create, InsertedFor;
    if k == 0 {
      source := [];
    } else {
      var before := Created(plan, portals, k - 1, rows, ids);
      source := CreatedFacts(plan, portals, k - 1, rows, ids);
      if Taken(plan, portals[k - 1]) && BindingsFor(rows, portals[k - 1].id, plan.template.id) == [] {
        InsertsCreated(plan, portals, rows, ids, k - 1);
        assert Created(plan, portals, k, rows, ids) == before + [Create(plan, portals[k - 1], ids(k - 1))];
        source := source + [k - 1];
      } else {
        assert Created(plan, portals, k, rows, ids) == before + [] == before;
      }
    }
  }

  lemma InsertsCreated(plan: Plan, portals: seq<Portal>, rows: seq<Binding>, ids: nat -> string, j: nat)
    requires j < |portals| && Taken(plan, portals[j]) && BindingsFor(rows, portals[j].id, plan.template.id) == []
    ensures InsertedFor(plan, portals, rows, ids, Create(plan, portals[j], ids(j)), j)
  {
  }

  lemma {:induction false} CreatedComplete(plan: Plan, portals: seq<Portal>, k: nat, rows: seq<Binding>, ids: nat -> string, j: nat)
      returns (c: nat)
    requires j < k <= |portals| && Taken(plan, portals[j]) && BindingsFor(rows, portals[j].id, plan.template.id) == []
    ensures c < |Created(plan, portals, k, rows, ids)|
    ensures Created(plan, portals, k, rows, ids)[c] == Create(plan, portals[j], ids(j))
    decreases k
  {
    if j < k - 1 {
      c := CreatedComplete(plan, portals, k - 1, rows, ids, j);
    } else {
      c := |Created(plan, portals, k - 1, rows, ids)|;
    }
  }

  // ---------------------------------------------------------------- the loop

  lemma {:induction false} OffenceStays(plan: Plan, portals: seq<Portal>, k: nat, rows: seq<Binding>)
    requires k <= |portals| && Offence(plan, portals, k, rows).Some?
    ensures Offence(plan, portals, |portals|, rows) == Offence(plan, portals, k, rows)
    decreases |portals| - k
  {
    if k < |portals| {
      OffenceStays(plan, portals, k + 1, rows);
    }
  }

  /** Rows with the same keys have the same hits; further rows for other pairs add none. */
  lemma {:induction false} HitsByKeys(a: seq<Binding>, b: seq<Binding>, portalId: string, templateId: string)
    requires |b| <= |a|
    requires forall i :: 0 <= i < |b| ==> (IsFor(a[i], portalId, templateId) <==> IsFor(b[i], portalId, templateId))
    requires forall i :: |b| <= i < |a| ==> !IsFor(a[i], portalId, templateId)
    ensures BindingsFor(a, portalId, templateId) == BindingsFor(b, portalId, templateId)
    decreases |a|
  {
    if |b| < |a| {
      HitsByKeys(a[..|a| - 1], b, portalId, templateId);
    } else if a != [] {
      HitsByKeys(a[..|a| - 1], b[..|b| - 1], portalId, templateId);
    }
  }

  /** The first `k` portals leave the lookup of a portal with another id as it was. */
  lemma SameHits(plan: Plan, portals: seq<Portal>, k: nat, rows: seq<Binding>, ids: nat -> string, id: string)
    requires k <= |portals| && !TakenBefore(plan, portals, k, id)
    ensures BindingsFor(Bound(plan, portals, k, rows, ids), id, plan.template.id)
         == BindingsFor(rows, id, plan.template.id)
  {
    var source := CreatedFacts(plan, portals, k, rows, ids);
    var made := Created(plan, portals, k, rows, ids);
    var work := Bound(plan, portals, k, rows, ids);
    forall i | |rows| <= i < |work| ensures !IsFor(work[i], id, plan.template.id) {
      assert work[i] == made[i - |rows|];
      assert InsertedFor(plan, portals, rows, ids, made[i - |rows|], source[i - |rows|]);
      assert work[i].portalId == portals[source[i - |rows|]].id;
    }
    HitsByKeys(work, rows, id, plan.template.id);
  }

  lemma SameUpdated(plan: Plan, portals: seq<Portal>, k: nat, rows: seq<Binding>)
    requires k < |portals|
    requires Taken(plan, portals[k]) ==> BindingsFor(rows, portals[k].id, plan.template.id) == []
    ensures Updated(plan, portals, k + 1, rows) == Updated(plan, portals, k, rows)
  {
    hide BindingsFor;
    forall i | 0 <= i < |rows|
      ensures Touched(plan, portals, k + 1, rows[i]) <==> Touched(plan, portals, k, rows[i])
    {
      assert Taken(plan, portals[k]) ==> !IsFor(rows[i], portals[k].id, plan.template.id);
    }
  }

  lemma AppendLast(a: seq<Binding>, b: seq<Binding>, row: Binding)
    ensures a + (b + [row]) == (a + b) + [row]
  {
  }

  lemma OneMoreInserted(plan: Plan, portals: seq<Portal>, k: nat, rows: seq<Binding>, ids: nat -> string)
    requires k < |portals| && Taken(plan, portals[k])
    requires BindingsFor(rows, portals[k].id, plan.template.id) == []
    ensures Bound(plan, portals, k + 1, rows, ids) == Bound(plan, portals, k, rows, ids) + [Create(plan, portals[k], ids(k))]
  {
    hide BindingsFor, Updated, Taken;
    SameUpdated(plan, portals, k, rows);
    AppendLast(Updated(plan, portals, k, rows), Created(plan, portals, k, rows, ids), Create(plan, portals[k], ids(k)));
  }

  lemma OneMoreTouched(plan: Plan, portals: seq<Portal>, k: nat, rows: seq<Binding>, h: int)
    requires k < |portals| && Taken(plan, portals[k]) && !TakenBefore(plan, portals, k, portals[k].id)
    requires 0 <= h < |rows| && BindingsFor(rows, portals[k].id, plan.template.id) == [h]
    ensures !Touched(plan, portals, k, rows[h])
    ensures Updated(plan, portals, k + 1, rows) == Updated(plan, portals, k, rows)[h := Update(plan, rows[h])]
  {
    var hits := BindingsFor(rows, portals[k].id, plan.template.id);
    assert hits[0] == h;
    forall i | 0 <= i < |rows|
      ensures Touched(plan, portals, k + 1, rows[i]) <==> i == h || Touched(plan, portals, k, rows[i])
    {
      if IsFor(rows[i], portals[k].id, plan.template.id) {
        assert i in hits;
      }
    }
  }

  lemma SameCreated(plan: Plan, portals: seq<Portal>, k: nat, rows: seq<Binding>, ids: nat -> string)
    requires k < |portals| && BindingsFor(rows, portals[k].id, plan.template.id) != []
    ensures Created(plan, portals, k + 1, rows, ids) == Created(plan, portals, k, rows, ids)
  {
  }

  lemma OneMoreUpdated(plan: Plan, portals: seq<Portal>, k: nat, rows: seq<Binding>, ids: nat -> string, h: int)
    requires k < |portals| && Taken(plan, portals[k]) && !TakenBefore(plan, portals, k, portals[k].id)
    requires 0 <= h < |rows| && BindingsFor(rows, portals[k].id, plan.template.id) == [h]
    ensures var work := Bound(plan, portals, k, rows, ids);
            Bound(plan, portals, k + 1, rows, ids) == work[h := Update(plan, work[h])]
  {
    OneMoreTouched(plan, portals, k, rows, h);
    SameCreated(plan, portals, k, rows, ids);
    var front, made := Updated(plan, portals, k, rows), Created(plan, portals, k, rows, ids);
    assert (front + made)[h] == front[h] == rows[h];
    UpdateInFront(front, made, h, Update(plan, rows[h]));
  }

  lemma UpdateInFront(a: seq<Binding>, b: seq<Binding>, h: int, row: Binding)
    requires 0 <= h < |a|
    ensures (a + b)[h := row] == a[h := row] + b
  {
  }

  lemma SkippedPortal(plan: Plan, portals: seq<Portal>, k: nat, rows: seq<Binding>, ids: nat -> string)
    requires k < |portals| && !Taken(plan, portals[k])
    ensures Bound(plan, portals, k + 1, rows, ids) == Bound(plan, portals, k, rows, ids)
  {
    hide BindingsFor, Updated, Taken;
    SameUpdated(plan, portals, k, rows);
  }

  lemma NoPortalYet(plan: Plan, portals: seq<Portal>, rows: seq<Binding>, ids: nat -> string)
    ensures Bound(plan, portals, 0, rows, ids) == rows
  {
  }

  /** The loop of the bind scripts: per taken portal look up, then update in place or insert. */
  method BindAll(plan: Plan, portals: seq<Portal>, rows: seq<Binding>, ids: nat -> string) returns (step: Step)
    requires PortalKeys(portals)
    ensures step == BoundAll(plan, portals, rows, ids)
  {
    hide BindingsFor, Bound;
    var work, updated := rows, 0;
    NoPortalYet(plan, portals, rows, ids);
    for k := 0 to |portals|
      invariant Offence(plan, portals, k, rows) == None
      invariant work == Bound(plan, portals, k, rows, ids)
      invariant updated == CountTaken(plan, portals, k)
    {
      var p := portals[k];
      if p.live && plan.judge(p).Refuse? {
        OffenceStays(plan, portals, k + 1, rows);
        return Stopped(plan.judge(p).reason);
      }
      if p.live && plan.judge(p).Take? {
        var hits := BindingsFor(work, p.id, plan.template.id);
        SameHits(plan, portals, k, rows, ids, p.id);
        if |hits| > 1 {
          OffenceStays(plan, portals, k + 1, rows);
          return Stopped(MultipleRows);
        }
        if hits == [] {
          OneMoreInserted(plan, portals, k, rows, ids);
          work := work + [Create(plan, p, ids(k))];
        } else {
          assert hits == [hits[0]];
          OneMoreUpdated(plan, portals, k, rows, ids, hits[0]);
          work := work[hits[0] := Update(plan, work[hits[0]])];
        }
        updated := updated + 1;
      } else {
        SkippedPortal(plan, portals, k, rows, ids);
      }
    }
    step := Going(work, updated);
  }
}
