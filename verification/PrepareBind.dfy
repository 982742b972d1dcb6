/** Binding the official portal to the prepare-order flow with the scan binding's config; its own jobs go. */
module PrepareBind {
  import opened Text
  import opened BindingStore
  import opened BindingLaws
  import opened OfficialPortal

  const PORTAL_NAME := "天地伟业-芯云-正式演练"
  const TEMPLATE_CODE := "srm_prepare_erp_order"
  const SCAN_CODE := "srm_scan_pending_orders"
  const FLOW_ID := "rpa_flow_supplier_portal_prepare_erp_order"
  const EXPECTED_VERSION := "1.2.20"

  /** The numbers of the rows that a selection keeps, in table order. */
  function Selected<T>(rows: seq<T>, keep: T -> bool): (hits: seq<int>)
    ensures forall j :: 0 <= j < |hits| ==> 0 <= hits[j] < |rows| && keep(rows[hits[j]])
    ensures forall i :: 0 <= i < |rows| && keep(rows[i]) ==> i in hits
    ensures Increasing(hits)
  {
    if rows == [] then []
    else
      var n := |rows| - 1;
      var before := Selected(rows[..n], keep);
      if keep(rows[n]) then before + [n] else before
  }

  function PortalsNamed(rows: seq<Portal>, name: string): (hits: seq<int>)
    ensures forall j :: 0 <= j < |hits| ==> 0 <= hits[j] < |rows| && rows[hits[j]].live && rows[hits[j]].name == name
  {
    Selected(rows, (p: Portal) => p.live && p.name == name)
  }

  function PortalsAt(rows: seq<Portal>, url: string): (hits: seq<int>)
    ensures forall j :: 0 <= j < |hits| ==> 0 <= hits[j] < |rows| && rows[hits[j]].live && Contains(rows[hits[j]].url, url)
  {
    Selected(rows, (p: Portal) => p.live && Contains(p.url, url))
  }

  function TenantTemplates(rows: seq<Template>, tenant: string, code: string): (hits: seq<int>)
    ensures forall j :: 0 <= j < |hits| ==>
      0 <= hits[j] < |rows| && rows[hits[j]].live && rows[hits[j]].tenant == tenant && rows[hits[j]].code == code
  {
    Selected(rows, (w: Template) => w.live && w.tenant == tenant && w.code == code)
  }

  datatype Found<T> = Got(row: T) | Lost(reason: Reason)

  /** The portal by exact name, otherwise by URL; either lookup refuses several rows. */
  function FindOfficial(portals: seq<Portal>): Found<Portal> {
    var named, at := PortalsNamed(portals, PORTAL_NAME), PortalsAt(portals, OFFICIAL_URL);
    if |named| > 1 then Lost(MultipleRows)
    else if |named| == 1 then
      var p := portals[named[0]];
      if Contains(p.url, OFFICIAL_URL) then Got(p) else Lost(UnexpectedUrl)
    else if |at| > 1 then Lost(MultipleRows)
    else if at == [] then Lost(PortalMissing)
    else Got(portals[at[0]])
  }

  /** The config of the scan binding of the portal, or an empty object. */
  function ScanFields(t: Tables, official: Portal): Found<map<string, Json>> {
    var scan := TenantTemplates(t.templates, official.tenant, SCAN_CODE);
    if |scan| > 1 then Lost(MultipleRows)
    else if scan == [] then Got(map[])
    else
      var hits := BindingsFor(t.bindings, official.id, t.templates[scan[0]].id);
      if |hits| > 1 then Lost(MultipleRows)
      else if hits == [] then Got(map[])
      else Got(ConfigFields(t.bindings[hits[0]].config))
  }

  function PrepareFields(scan: map<string, Json>): map<string, Json> {
    var fields := scan["portalUrl" := JText(OFFICIAL_URL)] - {"dryRun", "schedule"};
    if "browserSession" in fields then fields else fields["browserSession" := BROWSER]
  }

  /** One portal, one template: the shared loop over a single portal. */
  function PreparePlan(template: Template, receipt: Receipt, fields: map<string, Json>): Plan {
    Plan(template, receipt, p => Take, c => Document(JObject(fields)))
  }

  function JobRemoved(bindingId: string, j: Job): Job {
    if j.live && j.bindingId == bindingId then j.(enabled := false, live := false) else j
  }

  function WithoutJobs(jobs: seq<Job>, bindingId: string): (r: seq<Job>)
    ensures |r| == |jobs| && forall i :: 0 <= i < |jobs| ==> r[i] == JobRemoved(bindingId, jobs[i])
  {
    seq(|jobs|, i requires 0 <= i < |jobs| => JobRemoved(bindingId, jobs[i]))
  }

  /** What a run needs before it binds. */
  datatype Setup = Ready(official: Portal, template: Template, fields: map<string, Json>) | NotReady(reason: Reason)

  function SetUp(t: Tables, receipt: Receipt): Setup {
    if receipt.version != EXPECTED_VERSION || receipt.flowId != FLOW_ID then NotReady(ReceiptMismatch)
    else
      match FindOfficial(t.portals)
      case Lost(reason) => NotReady(reason)
      case Got(official) =>
        var hits := TenantTemplates(t.templates, official.tenant, TEMPLATE_CODE);
        if hits == [] then NotReady(TemplateMissing)
        else if |hits| > 1 then NotReady(MultipleRows)
        else
          match ScanFields(t, official)
          case Lost(reason) => NotReady(reason)
          case Got(scan) => Ready(official, t.templates[hits[0]], PrepareFields(scan))
  }

  function SameId(id: string): nat -> string {
    k => id
  }

  /** The tables to commit: the rows as bound, and no live job left for the binding just written. */
  function WithBinding(t: Tables, official: Portal, template: Template, rows: seq<Binding>): Tables {
    var hits := BindingsFor(rows, official.id, template.id);
    t.(bindings := rows, jobs := if hits == [] then t.jobs else WithoutJobs(t.jobs, rows[hits[0]].id))
  }

  /** What one run of the script does to the tables; `id` is the uuid for a new binding. */
  function Prepare(t: Tables, receipt: Receipt, id: string): Outcome {
    match SetUp(t, receipt)
    case NotReady(reason) => Aborted(reason)
    case Ready(official, template, fields) =>
      match BoundAll(PreparePlan(template, receipt, fields), [official], t.bindings, SameId(id))
      case Stopped(reason) => Aborted(reason)
      case Going(rows, _) => Committed(WithBinding(t, official, template, rows))
  }

  method RemoveJobs(before: seq<Job>, bindingId: string) returns (jobs: seq<Job>)
    ensures jobs == WithoutJobs(before, bindingId)
  {
    jobs := before;
    for i := 0 to |jobs|
      invariant |jobs| == |before|
      invariant forall j :: 0 <= j < |jobs| ==> jobs[j] == if j < i then JobRemoved(bindingId, before[j]) else before[j]
    {
      if jobs[i].live && jobs[i].bindingId == bindingId {
        jobs := jobs[i := jobs[i].(enabled := false, live := false)];
      }
    }
  }

  method BindPrepare(database: Database, receipt: Receipt, id: string) returns (stopped: Option<Reason>)
    modifies database
    ensures var outcome := Prepare(old(database.Contents()), receipt, id);
      && database.Contents() == After(outcome, old(database.Contents()))
      && stopped == if outcome.Aborted? then Some(outcome.reason) else None
  {
    var t := database.Contents();
    var setup := SetUp(t, receipt);
    if setup.NotReady? {
      return Some(setup.reason);
    }
    var plan := PreparePlan(setup.template, receipt, setup.fields);
    var step := BindAll(plan, [setup.official], t.bindings, SameId(id));
    if step.Stopped? {
      return Some(step.reason);
    }
    var hits := BindingsFor(step.rows, setup.official.id, setup.template.id);
    var jobs := t.jobs;
    if hits != [] {
      jobs := RemoveJobs(jobs, step.rows[hits[0]].id);
    }
    database.bindings, database.jobs := step.rows, jobs;
    assert database.Contents() == WithBinding(t, setup.official, setup.template, step.rows);
    return None;
  }

  // ---------------------------------------------------------------- properties

  lemma SelectedOnce<T>(rows: seq<T>, keep: T -> bool, k: nat)
    requires k < |rows| && keep(rows[k])
    ensures |Selected(rows, keep)| == 1 <==> forall i :: 0 <= i < |rows| && keep(rows[i]) ==> i == k
    ensures |Selected(rows, keep)| == 1 ==> Selected(rows, keep) == [k]
    ensures Selected(rows, keep) != []
  {
    var hits := Selected(rows, keep);
    assert k in hits;
    if |hits| > 1 {
      assert hits[0] < hits[1] && keep(rows[hits[0]]) && keep(rows[hits[1]]);
    }
  }

  lemma SelectedNone<T>(rows: seq<T>, keep: T -> bool)
    ensures Selected(rows, keep) == [] <==> forall i :: 0 <= i < |rows| ==> !keep(rows[i])
  {
    if Selected(rows, keep) != [] {
      assert keep(rows[Selected(rows, keep)[0]]);
    }
  }

  predicate IsNamed(p: Portal) {
    p.live && p.name == PORTAL_NAME
  }

  predicate IsAtOfficial(p: Portal) {
    p.live && Contains(p.url, OFFICIAL_URL)
  }

  predicate IsOfTenant(w: Template, tenant: string, code: string) {
    w.live && w.tenant == tenant && w.code == code
  }

  /** Portal `j` has the official URL, and is the one with the name, or where none has it the one with the URL. */
  ghost predicate TheOfficial(portals: seq<Portal>, j: nat) {
    && j < |portals| && IsAtOfficial(portals[j])
    && if exists i :: 0 <= i < |portals| && IsNamed(portals[i])
       then IsNamed(portals[j]) && forall i :: 0 <= i < |portals| && IsNamed(portals[i]) ==> i == j
       else forall i :: 0 <= i < |portals| && IsAtOfficial(portals[i]) ==> i == j
  }

  lemma OfficialIsFound(portals: seq<Portal>, j: nat)
    ensures TheOfficial(portals, j) ==> FindOfficial(portals) == Got(portals[j])
  {
    hide Contains;
    if TheOfficial(portals, j) {
      var named := (p: Portal) => p.live && p.name == PORTAL_NAME;
      var at := (p: Portal) => p.live && Contains(p.url, OFFICIAL_URL);
      SelectedOnce(portals, at, j);
      SelectedNone(portals, named);
      assert forall i :: 0 <= i < |portals| ==> named(portals[i]) == IsNamed(portals[i]) && at(portals[i]) == IsAtOfficial(portals[i]);
      if IsNamed(portals[j]) {
        SelectedOnce(portals, named, j);
        assert PortalsNamed(portals, PORTAL_NAME) == Selected(portals, named) == [j];
      } else {
        assert PortalsNamed(portals, PORTAL_NAME) == Selected(portals, named) == [];
        assert PortalsAt(portals, OFFICIAL_URL) == Selected(portals, at) == [j];
      }
    }
  }

  lemma FoundIsOfficial(portals: seq<Portal>) returns (j: nat)
    requires FindOfficial(portals).Got?
    ensures TheOfficial(portals, j) && FindOfficial(portals).row == portals[j]
  {
    hide Contains;
    var named := (p: Portal) => p.live && p.name == PORTAL_NAME;
    var at := (p: Portal) => p.live && Contains(p.url, OFFICIAL_URL);
    SelectedNone(portals, named);
    assert forall i :: 0 <= i < |portals| ==> named(portals[i]) == IsNamed(portals[i]) && at(portals[i]) == IsAtOfficial(portals[i]);
    assert PortalsNamed(portals, PORTAL_NAME) == Selected(portals, named);
    assert PortalsAt(portals, OFFICIAL_URL) == Selected(portals, at);
    if PortalsNamed(portals, PORTAL_NAME) != [] {
      j := PortalsNamed(portals, PORTAL_NAME)[0];
      SelectedOnce(portals, named, j);
    } else {
      j := PortalsAt(portals, OFFICIAL_URL)[0];
      SelectedOnce(portals, at, j);
    }
  }

  /** Template `k` is the one live template of the tenant with the code. */
  ghost predicate TheTemplate(templates: seq<Template>, tenant: string, code: string, k: nat) {
    && k < |templates| && IsOfTenant(templates[k], tenant, code)
    && forall i :: 0 <= i < |templates| && IsOfTenant(templates[i], tenant, code) ==> i == k
  }

  lemma TenantTemplateIff(templates: seq<Template>, tenant: string, code: string, k: nat)
    ensures TheTemplate(templates, tenant, code, k) <==> TenantTemplates(templates, tenant, code) == [k]
    ensures k < |templates| && IsOfTenant(templates[k], tenant, code) && !TheTemplate(templates, tenant, code, k)
            ==> |TenantTemplates(templates, tenant, code)| > 1
    ensures TenantTemplates(templates, tenant, code) == []
       <==> forall i :: 0 <= i < |templates| ==> !IsOfTenant(templates[i], tenant, code)
  {
    var keep := (w: Template) => w.live && w.tenant == tenant && w.code == code;
    assert TenantTemplates(templates, tenant, code) == Selected(templates, keep);
    assert forall i :: 0 <= i < |templates| ==> keep(templates[i]) == IsOfTenant(templates[i], tenant, code);
    SelectedNone(templates, keep);
    if k < |templates| && IsOfTenant(templates[k], tenant, code) {
      SelectedOnce(templates, keep, k);
    }
    var hits := TenantTemplates(templates, tenant, code);
    assert hits != [] ==> IsOfTenant(templates[hits[0]], tenant, code);
  }

  /** The scan template of the tenant, if any, is the only one, and the portal has at most one live binding of it. */
  ghost predicate ScanIsClear(t: Tables, official: Portal) {
    forall i :: 0 <= i < |t.templates| && IsOfTenant(t.templates[i], official.tenant, SCAN_CODE) ==>
      && TheTemplate(t.templates, official.tenant, SCAN_CODE, i)
      && |BindingsFor(t.bindings, official.id, t.templates[i].id)| <= 1
  }

  lemma ScanFieldsIff(t: Tables, official: Portal)
    ensures ScanFields(t, official).Got? <==> ScanIsClear(t, official)
  {
    hide BindingsFor, TenantTemplates, IsOfTenant;
    var scan := TenantTemplates(t.templates, official.tenant, SCAN_CODE);
    forall i: nat | i < |t.templates| && IsOfTenant(t.templates[i], official.tenant, SCAN_CODE)
      ensures TheTemplate(t.templates, official.tenant, SCAN_CODE, i) <==> scan == [i]
      ensures scan != [] && (!TheTemplate(t.templates, official.tenant, SCAN_CODE, i) ==> |scan| > 1)
    {
      TenantTemplateIff(t.templates, official.tenant, SCAN_CODE, i);
    }
    if |scan| == 1 {
      TenantTemplateIff(t.templates, official.tenant, SCAN_CODE, scan[0]);
      assert scan == [scan[0]];
    } else if |scan| > 1 {
      TenantTemplateIff(t.templates, official.tenant, SCAN_CODE, scan[0]);
    }
  }

  /** Portal `j`, template `k` and the lookups that the script makes for them are unambiguous. */
  ghost predicate MayPrepare(t: Tables, j: nat, k: nat) {
    && TheOfficial(t.portals, j) && TheTemplate(t.templates, t.portals[j].tenant, TEMPLATE_CODE, k)
    && ScanIsClear(t, t.portals[j])
    && |BindingsFor(t.bindings, t.portals[j].id, t.templates[k].id)| <= 1
  }

  /** It commits exactly on its own receipt, when portal, template, scan binding and own binding are unambiguous. */
  lemma CommitsIffClear(t: Tables, receipt: Receipt, id: string)
    ensures Prepare(t, receipt, id).Committed?
      <==> IsOwnReceipt(receipt) && exists j: nat, k: nat :: MayPrepare(t, j, k)
    ensures Prepare(t, receipt, id).Aborted? ==> After(Prepare(t, receipt, id), t) == t
  {
    hide BindingsFor, TenantTemplates, FindOfficial, ScanFields, ScanIsClear, Contains, IsOfTenant;
    if SetUp(t, receipt).Ready? {
      var s := SetUp(t, receipt);
      var j := FoundIsOfficial(t.portals);
      var k := TenantTemplates(t.templates, s.official.tenant, TEMPLATE_CODE)[0];
      assert TenantTemplates(t.templates, s.official.tenant, TEMPLATE_CODE) == [k];
      TenantTemplateIff(t.templates, s.official.tenant, TEMPLATE_CODE, k);
      ScanFieldsIff(t, s.official);
      OneLoopIff(t, s.official, s.template, receipt, s.fields, id);
      assert MayPrepare(t, j, k) <==> |BindingsFor(t.bindings, t.portals[j].id, t.templates[k].id)| <= 1;
    }
    if receipt.version == EXPECTED_VERSION && receipt.flowId == FLOW_ID {
      if j: nat, k: nat :| MayPrepare(t, j, k) {
        OfficialIsFound(t.portals, j);
        TenantTemplateIff(t.templates, t.portals[j].tenant, TEMPLATE_CODE, k);
        ScanFieldsIff(t, t.portals[j]);
        var s := SetUp(t, receipt);
        OneLoopIff(t, s.official, s.template, receipt, s.fields, id);
      }
    }
  }

  /**
   * Which refusal comes out. A receipt of another flow or version; a named portal elsewhere; no portal; no template;
   * and every other run that does not commit met two rows where it needed one.
   */
  lemma PrepareRefusals(t: Tables, receipt: Receipt, id: string)
    ensures Prepare(t, receipt, id) == Aborted(ReceiptMismatch) <==> !IsOwnReceipt(receipt)
    ensures Prepare(t, receipt, id) == Aborted(UnexpectedUrl)
       <==> IsOwnReceipt(receipt)
            && exists j: nat :: IsOnlyNamed(t.portals, j) && !Contains(t.portals[j].url, OFFICIAL_URL)
    ensures Prepare(t, receipt, id) == Aborted(PortalMissing)
       <==> IsOwnReceipt(receipt)
            && forall i :: 0 <= i < |t.portals| ==> !IsNamed(t.portals[i]) && !IsAtOfficial(t.portals[i])
    ensures Prepare(t, receipt, id) == Aborted(TemplateMissing)
       <==> IsOwnReceipt(receipt)
            && exists j: nat :: TheOfficial(t.portals, j)
                 && forall i :: 0 <= i < |t.templates| ==> !IsOfTenant(t.templates[i], t.portals[j].tenant, TEMPLATE_CODE)
    ensures Prepare(t, receipt, id).Aborted?
        ==> Prepare(t, receipt, id).reason in {ReceiptMismatch, UnexpectedUrl, PortalMissing, TemplateMissing, MultipleRows}
  {
    hide BindingsFor, Contains, TenantTemplates, ScanFields, FindOfficial, IsNamed, IsOfTenant;
    PortalRefusals(t.portals);
    ScanRefusals(t, if FindOfficial(t.portals).Got? then FindOfficial(t.portals).row else Portal("", "", "", "", "", false));
    if FindOfficial(t.portals).Got? {
      var j := FoundIsOfficial(t.portals);
      TenantTemplateIff(t.templates, t.portals[j].tenant, TEMPLATE_CODE, 0);
      forall i: nat | TheOfficial(t.portals, i) ensures t.portals[i] == t.portals[j] {
        OfficialIsFound(t.portals, i);
      }
    } else {
      forall i: nat ensures !TheOfficial(t.portals, i) {
        OfficialIsFound(t.portals, i);
      }
    }
    if SetUp(t, receipt).Ready? {
      var s := SetUp(t, receipt);
      OneLoopReason(t, PreparePlan(s.template, receipt, s.fields), s.official, id);
    }
  }

  predicate IsOwnReceipt(receipt: Receipt) {
    receipt.version == "1.2.20" && receipt.flowId == "rpa_flow_supplier_portal_prepare_erp_order"
  }

  ghost predicate IsOnlyNamed(portals: seq<Portal>, j: nat) {
    j < |portals| && IsNamed(portals[j]) && forall i :: 0 <= i < |portals| && IsNamed(portals[i]) ==> i == j
  }

  lemma PortalRefusals(portals: seq<Portal>)
    ensures FindOfficial(portals) == Lost(UnexpectedUrl)
       <==> exists j: nat :: IsOnlyNamed(portals, j) && !Contains(portals[j].url, OFFICIAL_URL)
    ensures FindOfficial(portals) == Lost(PortalMissing)
       <==> forall i :: 0 <= i < |portals| ==> !IsNamed(portals[i]) && !IsAtOfficial(portals[i])
    ensures FindOfficial(portals).Lost? ==> FindOfficial(portals).reason in {UnexpectedUrl, PortalMissing, MultipleRows}
  {
    hide Contains;
    var named := (p: Portal) => p.live && p.name == PORTAL_NAME;
    var at := (p: Portal) => p.live && Contains(p.url, OFFICIAL_URL);
    assert forall i :: 0 <= i < |portals| ==> named(portals[i]) == IsNamed(portals[i]) && at(portals[i]) == IsAtOfficial(portals[i]);
    assert PortalsNamed(portals, PORTAL_NAME) == Selected(portals, named);
    assert PortalsAt(portals, OFFICIAL_URL) == Selected(portals, at);
    SelectedNone(portals, named);
    SelectedNone(portals, at);
    if PortalsNamed(portals, PORTAL_NAME) != [] {
      SelectedOnce(portals, named, PortalsNamed(portals, PORTAL_NAME)[0]);
    }
    forall j: nat | IsOnlyNamed(portals, j) ensures PortalsNamed(portals, PORTAL_NAME) == [j] {
      SelectedOnce(portals, named, j);
    }
    if |PortalsNamed(portals, PORTAL_NAME)| == 1 {
      assert IsOnlyNamed(portals, PortalsNamed(portals, PORTAL_NAME)[0]);
    }
  }

  lemma ScanRefusals(t: Tables, official: Portal)
    ensures ScanFields(t, official).Lost? ==> ScanFields(t, official).reason == MultipleRows
  {
  }

  lemma OneLoopReason(t: Tables, plan: Plan, official: Portal, id: string)
    requires forall p :: plan.judge(p) == Take
    ensures var step := BoundAll(plan, [official], t.bindings, SameId(id)); step.Stopped? ==> step.reason == MultipleRows
  {
    hide BindingsFor;
    assert Offence(plan, [official], 0, t.bindings) == None;
  }

  lemma OneLoopIff(t: Tables, official: Portal, template: Template, receipt: Receipt, fields: map<string, Json>, id: string)
    ensures BoundAll(PreparePlan(template, receipt, fields), [official], t.bindings, SameId(id)).Going?
       <==> (official.live ==> |BindingsFor(t.bindings, official.id, template.id)| <= 1)
  {
    hide BindingsFor;
    var plan := PreparePlan(template, receipt, fields);
    NoOffenceIff(plan, [official], 1, t.bindings);
    assert Acceptable(plan, [official][0], t.bindings) <==> (official.live ==> |BindingsFor(t.bindings, official.id, template.id)| <= 1);
  }

  /** The new config: official URL, no dry run, no schedule, a browser session, all else as the scan has it. */
  lemma PreparedConfig(scan: map<string, Json>)
    ensures FromScan(PrepareFields(scan), scan)
  {
  }

  lemma OfficialIsLivePortal(portals: seq<Portal>)
    requires FindOfficial(portals).Got?
    ensures var p := FindOfficial(portals).row; p in portals && p.live && Contains(p.url, OFFICIAL_URL)
  {
  }

  /** The one live template of the tenant with the prepare code. */
  predicate IsTheTemplate(templates: seq<Template>, tenant: string, template: Template) {
    var hits := TenantTemplates(templates, tenant, TEMPLATE_CODE);
    |hits| == 1 && template == templates[hits[0]] && template in templates && template.code == TEMPLATE_CODE
  }

  lemma PreparedOutcome(t: Tables, receipt: Receipt, id: string) returns (plan: Plan, official: Portal)
    requires Prepare(t, receipt, id).Committed?
    ensures var s := SetUp(t, receipt);
      && s.Ready? && plan == PreparePlan(s.template, receipt, s.fields) && official == s.official
      && official in t.portals && Taken(plan, official) && Contains(official.url, OFFICIAL_URL)
      && receipt.version == EXPECTED_VERSION && receipt.flowId == FLOW_ID
      && IsTheTemplate(t.templates, official.tenant, plan.template)
      && BoundAll(plan, [official], t.bindings, SameId(id)).Going?
      && Prepare(t, receipt, id) == Committed(WithBinding(t, official, s.template, BoundRows(plan, [official], t.bindings, SameId(id))))
  {
    var s := SetUp(t, receipt);
    OfficialIsLivePortal(t.portals);
    plan, official := PreparePlan(s.template, receipt, s.fields), s.official;
  }

  /** A committed run wrote one binding; it alone changed or appeared, and exactly its live jobs went. */
  lemma PreparedExactly(t: Tables, receipt: Receipt, id: string) returns (h: nat)
    requires Prepare(t, receipt, id).Committed?
    ensures var s := SetUp(t, receipt);
      var after := Prepare(t, receipt, id).tables;
      && s.Ready? && h < |after.bindings|
      && BindingsFor(after.bindings, s.official.id, s.template.id) == [h]
      && after.bindings[h].config == Document(JObject(s.fields))
      && OnReceipt(t.bindings, after.bindings, h, receipt) && receipt.flowId == FLOW_ID && receipt.version == EXPECTED_VERSION
      && OnlyRowChanged(t.bindings, after.bindings, h)
      && after == t.(bindings := after.bindings, jobs := WithoutJobs(t.jobs, after.bindings[h].id))
  {
    var plan, official := PreparedOutcome(t, receipt, id);
    assert [official][0] == official;
    h := TakenIsBound(plan, [official], t.bindings, SameId(id), 0);
    WrittenRow(plan, [official], t.bindings, SameId(id), 0, h);
    OneAtMost(plan, official, t.bindings, SameId(id), h);
    assert BindingsFor(BoundRows(plan, [official], t.bindings, SameId(id)), official.id, plan.template.id)[0] == h;
  }

  /** Row `i` is a live binding of the portal and of a scan template of its tenant. */
  ghost predicate IsScanRow(t: Tables, official: Portal, i: int) {
    && 0 <= i < |t.bindings| && t.bindings[i].live && t.bindings[i].portalId == official.id
    && exists m :: 0 <= m < |t.templates| && IsOfTenant(t.templates[m], official.tenant, SCAN_CODE)
                   && t.templates[m].id == t.bindings[i].templateId
  }

  lemma ScanFieldsAre(t: Tables, official: Portal)
    requires ScanFields(t, official).Got?
    ensures forall i :: IsScanRow(t, official, i) ==> ScanFields(t, official).row == ConfigFields(t.bindings[i].config)
    ensures (forall i :: !IsScanRow(t, official, i)) ==> ScanFields(t, official).row == map[]
  {
    hide BindingsFor, TenantTemplates, IsOfTenant, ConfigFields;
    var scan := TenantTemplates(t.templates, official.tenant, SCAN_CODE);
    forall i | IsScanRow(t, official, i)
      ensures |scan| == 1
      ensures BindingsFor(t.bindings, official.id, t.templates[scan[0]].id) == [i]
    {
      var m :| 0 <= m < |t.templates| && IsOfTenant(t.templates[m], official.tenant, SCAN_CODE)
               && t.templates[m].id == t.bindings[i].templateId;
      TenantTemplateIff(t.templates, official.tenant, SCAN_CODE, m);
      assert IsFor(t.bindings[i], official.id, t.templates[m].id);
    }
    if |scan| == 1 && BindingsFor(t.bindings, official.id, t.templates[scan[0]].id) != [] {
      TenantTemplateIff(t.templates, official.tenant, SCAN_CODE, scan[0]);
      assert scan == [scan[0]];
      var h := BindingsFor(t.bindings, official.id, t.templates[scan[0]].id)[0];
      assert IsFor(t.bindings[h], official.id, t.templates[scan[0]].id);
      assert IsScanRow(t, official, h);
    }
  }

  /** The fields are those of the scan config but for four keys: no `dryRun`, no `schedule`, the official URL, and a browser. */
  ghost predicate FromScan(f: map<string, Json>, scan: map<string, Json>) {
    && "portalUrl" in f && f["portalUrl"] == JText(OFFICIAL_URL)
    && "dryRun" !in f && "schedule" !in f && "browserSession" in f
    && f["browserSession"] == (if "browserSession" in scan then scan["browserSession"] else BROWSER)
    && forall key :: key !in {"portalUrl", "dryRun", "schedule", "browserSession"}
         ==> (key in f <==> key in scan) && (key in scan ==> f[key] == scan[key])
  }

  /**
   * The whole effect of a committed run on the tables: the one row `h` of portal `j` and template `k`, on the
   * receipt; its config from the scan row where there is one; its live jobs removed; all else kept.
   */
  lemma PreparedRow(t: Tables, receipt: Receipt, id: string) returns (j: nat, k: nat, h: nat)
    requires Prepare(t, receipt, id).Committed?
    ensures var after := Prepare(t, receipt, id).tables;
      && MayPrepare(t, j, k) && h < |after.bindings| && after.bindings[h].config.Document? && after.bindings[h].config.value.JObject?
      && BindingsFor(after.bindings, t.portals[j].id, t.templates[k].id) == [h]
      && OnReceipt(t.bindings, after.bindings, h, receipt) && receipt.flowId == FLOW_ID && receipt.version == EXPECTED_VERSION
      && (h >= |t.bindings| ==> IsNewFor(after.bindings[h], t.portals[j], t.templates[k], id))
      && (forall i :: IsScanRow(t, t.portals[j], i) ==>
            FromScan(after.bindings[h].config.value.fields, ConfigFields(t.bindings[i].config)))
      && ((forall i :: !IsScanRow(t, t.portals[j], i)) ==>
            after.bindings[h].config.value.fields == map["portalUrl" := JText(OFFICIAL_URL), "browserSession" := BROWSER])
      && OnlyRowChanged(t.bindings, after.bindings, h)
      && after == t.(bindings := after.bindings, jobs := after.jobs) && |after.jobs| == |t.jobs|
      && forall i :: 0 <= i < |t.jobs| ==>
           after.jobs[i] == if t.jobs[i].live && t.jobs[i].bindingId == after.bindings[h].id
                            then t.jobs[i].(enabled := false, live := false) else t.jobs[i]
  {
    hide Prepare, SetUp, BindingsFor, ScanFields, BoundAll, Contains, OnReceipt, OnlyRowChanged, PrepareFields, MayPrepare;
    var s := SetUp(t, receipt);
    h := PreparedExactly(t, receipt, id);
    j, k := SetUpRows(t, receipt, id);
    NewRow(t, receipt, id, j, k, h);
    ScanFieldsAre(t, t.portals[j]);
    var scan := ScanFields(t, t.portals[j]).row;
    PreparedConfig(scan);
    if forall i :: !IsScanRow(t, t.portals[j], i) {
      EmptyScan();
    }
  }

  lemma EmptyScan()
    ensures PrepareFields(map[]) == map["portalUrl" := JText(OFFICIAL_URL), "browserSession" := BROWSER]
  {
  }

  /** The rows that a committed run found. */
  lemma SetUpRows(t: Tables, receipt: Receipt, id: string) returns (j: nat, k: nat)
    requires Prepare(t, receipt, id).Committed?
    ensures MayPrepare(t, j, k) && j < |t.portals| && k < |t.templates|
    ensures var s := SetUp(t, receipt);
      && s.Ready? && s.official == t.portals[j] && s.template == t.templates[k]
      && ScanFields(t, t.portals[j]).Got? && s.fields == PrepareFields(ScanFields(t, t.portals[j]).row)
  {
    hide BindingsFor, TenantTemplates, FindOfficial, ScanFields, ScanIsClear, Contains, IsOfTenant;
    CommitsIffClear(t, receipt, id);
    j, k :| MayPrepare(t, j, k);
    OfficialIsFound(t.portals, j);
    TenantTemplateIff(t.templates, t.portals[j].tenant, TEMPLATE_CODE, k);
  }

  lemma NewRow(t: Tables, receipt: Receipt, id: string, j: nat, k: nat, h: nat)
    requires Prepare(t, receipt, id).Committed? && j < |t.portals| && k < |t.templates|
    requires SetUp(t, receipt).official == t.portals[j] && SetUp(t, receipt).template == t.templates[k]
    requires h < |Prepare(t, receipt, id).tables.bindings|
    requires BindingsFor(Prepare(t, receipt, id).tables.bindings, t.portals[j].id, t.templates[k].id) == [h]
    ensures h >= |t.bindings| ==> IsNewFor(Prepare(t, receipt, id).tables.bindings[h], t.portals[j], t.templates[k], id)
  {
    hide Prepare, SetUp, BindingsFor, BoundAll, Contains;
    var plan, official := PreparedOutcome(t, receipt, id);
    WrittenRow(plan, [official], t.bindings, SameId(id), 0, h);
  }

  /** No live job is left for the written binding, and every job of another binding is as it was. */
  lemma OnlyItsJobsGo(t: Tables, receipt: Receipt, id: string, h: nat, j: nat)
    requires Prepare(t, receipt, id).Committed? && j < |t.jobs|
    requires var after := Prepare(t, receipt, id).tables;
      h < |after.bindings| && after.jobs == WithoutJobs(t.jobs, after.bindings[h].id)
    ensures var after := Prepare(t, receipt, id).tables;
      && (after.jobs[j].bindingId == after.bindings[h].id ==> !after.jobs[j].live)
      && (after.jobs[j] != t.jobs[j] <==> t.jobs[j].live && t.jobs[j].bindingId == after.bindings[h].id)
      && (after.jobs[j] != t.jobs[j] ==> after.jobs[j] == t.jobs[j].(enabled := false, live := false))
  {
  }

  lemma OneAtMost(plan: Plan, p: Portal, rows: seq<Binding>, ids: nat -> string, h: nat)
    requires Taken(plan, p) && BindingsFor(BoundRows(plan, [p], rows, ids), p.id, plan.template.id) == [h]
    ensures OnlyRowChanged(rows, BoundRows(plan, [p], rows, ids), h)
  {
    hide BindingsFor;
    var after := BoundRows(plan, [p], rows, ids);
    BindFrame(plan, [p], rows, ids);
    assert BindingsFor(after, p.id, plan.template.id)[0] == h;
    SingleHit(after, p.id, plan.template.id);
    assert |rows| < |after| ==> IsFor(after[|rows|], p.id, plan.template.id);
    assert |rows| + 1 < |after| ==> IsFor(after[|rows| + 1], p.id, plan.template.id);
    forall i | 0 <= i < |after| && i != h ensures i < |rows| && after[i] == rows[i] {
      assert !IsFor(after[i], p.id, plan.template.id);
    }
  }

  /** Rows of another template, and their lookups, are what they were. */
  lemma OtherTemplateSame(t: Tables, receipt: Receipt, id: string, portalId: string, templateId: string)
    requires Prepare(t, receipt, id).Committed? && templateId != SetUp(t, receipt).template.id
    ensures var after := Prepare(t, receipt, id).tables.bindings;
      && BindingsFor(after, portalId, templateId) == BindingsFor(t.bindings, portalId, templateId)
      && forall i :: 0 <= i < |t.bindings| && t.bindings[i].templateId == templateId ==> i < |after| && after[i] == t.bindings[i]
  {
    var plan, official := PreparedOutcome(t, receipt, id);
    BindFrame(plan, [official], t.bindings, SameId(id));
    HitsByKeys(BoundRows(plan, [official], t.bindings, SameId(id)), t.bindings, portalId, templateId);
  }

  lemma ScanTemplateDiffers(templates: seq<Template>, tenant: string, i: nat, j: nat)
    requires TemplateKeys(templates)
    requires i < |TenantTemplates(templates, tenant, SCAN_CODE)| && j < |TenantTemplates(templates, tenant, TEMPLATE_CODE)|
    ensures templates[TenantTemplates(templates, tenant, SCAN_CODE)[i]].id
         != templates[TenantTemplates(templates, tenant, TEMPLATE_CODE)[j]].id
  {
    assert TEMPLATE_CODE[4] != SCAN_CODE[4];
  }

  lemma ScanAgain(t: Tables, receipt: Receipt, id: string)
    requires TemplateKeys(t.templates) && Prepare(t, receipt, id).Committed?
    ensures var official := SetUp(t, receipt).official;
            ScanFields(Prepare(t, receipt, id).tables, official) == ScanFields(t, official)
  {
    hide Prepare, SetUp, BindingsFor, TenantTemplates, BoundAll;
    var plan, official := PreparedOutcome(t, receipt, id);
    var scan := TenantTemplates(t.templates, official.tenant, SCAN_CODE);
    if |scan| == 1 {
      ScanTemplateDiffers(t.templates, official.tenant, 0, 0);
      OtherTemplateSame(t, receipt, id, official.id, t.templates[scan[0]].id);
    }
  }

  lemma SetUpAgain(t: Tables, receipt: Receipt, id: string)
    requires TemplateKeys(t.templates) && Prepare(t, receipt, id).Committed?
    ensures SetUp(Prepare(t, receipt, id).tables, receipt) == SetUp(t, receipt)
  {
    hide Contains, BindingsFor, BoundAll, ScanFields;
    ScanAgain(t, receipt, id);
    var plan, official := PreparedOutcome(t, receipt, id);
  }

  lemma JobsSettled(t: Tables, official: Portal, template: Template, rows: seq<Binding>)
    ensures WithBinding(WithBinding(t, official, template, rows), official, template, rows) == WithBinding(t, official, template, rows)
  {
    var hits := BindingsFor(rows, official.id, template.id);
    if hits != [] {
      var gone := WithoutJobs(t.jobs, rows[hits[0]].id);
      assert WithoutJobs(gone, rows[hits[0]].id) == gone;
    }
  }

  /** Rerunning it changes nothing, jobs included. */
  lemma PrepareAgain(t: Tables, receipt: Receipt, id: string, again: string)
    requires TemplateKeys(t.templates) && Prepare(t, receipt, id).Committed?
    ensures Prepare(Prepare(t, receipt, id).tables, receipt, again) == Prepare(t, receipt, id)
  {
    var plan, official := PreparedOutcome(t, receipt, id);
    SetUpAgain(t, receipt, id);
    RebindOne(plan, official, t.bindings, SameId(id), SameId(again));
    JobsSettled(t, official, plan.template, BoundRows(plan, [official], t.bindings, SameId(id)));
  }

  lemma RebindOne(plan: Plan, p: Portal, rows: seq<Binding>, ids: nat -> string, again: nat -> string)
    requires SettledConfig(plan) && BoundAll(plan, [p], rows, ids).Going?
    ensures BoundAll(plan, [p], BoundRows(plan, [p], rows, ids), again) == BoundAll(plan, [p], rows, ids)
  {
    RebindIsNoOp(plan, [p], rows, ids, again);
  }

  // ---------------------------------------------------------------- the check after the commit

  /** A row for which the check after the commit stops: a demo portal on the new version. */
  predicate DemoChanged(t: Tables, b: Binding, fold: string -> string) {
    var p, w := PortalOf(t.portals, b.portalId), TemplateOf(t.templates, b.templateId);
    && b.live && p.Some? && p.value.live && w.Some? && w.value.live && w.value.code == TEMPLATE_CODE
    && IsDemo(p.value.name, p.value.url, fold) && b.flowVersion == EXPECTED_VERSION
  }

  ghost predicate CheckFails(t: Tables, fold: string -> string) {
    exists i :: 0 <= i < |t.bindings| && DemoChanged(t, t.bindings[i], fold)
  }

  /** On tables that pass it, the check fails after the run exactly when the portal found is itself a demo portal. */
  lemma CheckFailsIffPortalIsDemo(t: Tables, receipt: Receipt, id: string, fold: string -> string)
    requires PortalKeys(t.portals) && TemplateKeys(t.templates) && !CheckFails(t, fold)
    ensures Prepare(t, receipt, id).Committed? ==>
      var official := SetUp(t, receipt).official;
      CheckFails(Prepare(t, receipt, id).tables, fold) <==> IsDemo(official.name, official.url, fold)
  {
    hide Prepare, SetUp, BindingsFor, IsDemo, BoundAll, CheckFails, Contains;
    if Prepare(t, receipt, id).Committed? {
      var plan, official := PreparedOutcome(t, receipt, id);
      var after := Prepare(t, receipt, id).tables;
      var h := PreparedExactly(t, receipt, id);
      WrittenRowKeys(t, receipt, official, h, after);
      CheckAfterWrite(t, after, h, official, fold);
    }
  }

  /** Only the written row can newly fail the check, and it does so exactly on a demo portal. */
  lemma CheckAfterWrite(t: Tables, after: Tables, h: nat, official: Portal, fold: string -> string)
    requires after.portals == t.portals && after.templates == t.templates
    requires OnlyRowChanged(t.bindings, after.bindings, h) && !CheckFails(t, fold) && official.live
    requires var b := after.bindings[h];
      var w := TemplateOf(t.templates, b.templateId);
      && b.live && PortalOf(t.portals, b.portalId) == Some(official) && b.flowVersion == EXPECTED_VERSION
      && w.Some? && w.value.live && w.value.code == TEMPLATE_CODE
    ensures CheckFails(after, fold) <==> IsDemo(official.name, official.url, fold)
  {
    hide IsDemo, PortalOf, TemplateOf;
    forall i | 0 <= i < |after.bindings| && i != h ensures !DemoChanged(after, after.bindings[i], fold) {
      var b := after.bindings[i];
      assert !DemoChanged(t, t.bindings[i], fold);
    }
    assert DemoChanged(after, after.bindings[h], fold) <==> IsDemo(official.name, official.url, fold);
  }

  lemma WrittenRowKeys(t: Tables, receipt: Receipt, official: Portal, h: nat, after: Tables)
    requires PortalKeys(t.portals) && TemplateKeys(t.templates) && official in t.portals
    requires SetUp(t, receipt).Ready? && SetUp(t, receipt).official == official
    requires h < |after.bindings| && BindingsFor(after.bindings, official.id, SetUp(t, receipt).template.id) == [h]
    ensures var b := after.bindings[h];
      && b.live && PortalOf(t.portals, b.portalId) == Some(official)
      && TemplateOf(t.templates, b.templateId) == Some(SetUp(t, receipt).template)
      && SetUp(t, receipt).template.live && SetUp(t, receipt).template.code == TEMPLATE_CODE
  {
    hide Contains, FindOfficial, ScanFields, TenantTemplates, BindingsFor;
    var hits := TenantTemplates(t.templates, official.tenant, TEMPLATE_CODE);
    TemplateByKey(t.templates, hits[0]);
    var k :| 0 <= k < |t.portals| && t.portals[k] == official;
    PortalByKey(t.portals, k);
    assert BindingsFor(after.bindings, official.id, SetUp(t, receipt).template.id)[0] == h;
  }

  const A_PORTAL := Portal("p", "t", "test", OFFICIAL_URL, "u", true)
  const A_TEMPLATE := Template("w", "t", TEMPLATE_CODE, "1.0.0", "u", true)
  const A_RECEIPT := Receipt(FLOW_ID, EXPECTED_VERSION, "v", "c", "")
  const DEMO_AT_OFFICIAL := Tables([A_PORTAL], [A_TEMPLATE], [], [])

  /** Such a portal exists: the lookup by URL does not look at the name. The run commits, and only then the check fails. */
  lemma DemoPortalIsBound(fold: string -> string, id: string)
    requires fold("test") == "test"
    ensures var run := Prepare(DEMO_AT_OFFICIAL, A_RECEIPT, id);
      !CheckFails(DEMO_AT_OFFICIAL, fold) && run.Committed? && CheckFails(run.tables, fold)
  {
    hide Contains, Prepare, CheckFails;
    var t := DEMO_AT_OFFICIAL;
    assert Contains(OFFICIAL_URL, OFFICIAL_URL) && Contains("test", "test") by { ContainsItself(); }
    DemoPortalMayBePrepared();
    CommitsIffClear(t, A_RECEIPT, id);
    assert !CheckFails(t, fold) by { NoRowNoFailure(t, fold); }
    CheckFailsIffPortalIsDemo(t, A_RECEIPT, id, fold);
    OfficialIsFound(t.portals, 0);
    OfficialOfSetUp(t, A_RECEIPT, id);
  }

  lemma OfficialOfSetUp(t: Tables, receipt: Receipt, id: string)
    requires Prepare(t, receipt, id).Committed?
    ensures FindOfficial(t.portals) == Got(SetUp(t, receipt).official)
  {
  }

  lemma NoRowNoFailure(t: Tables, fold: string -> string)
    requires t.bindings == []
    ensures !CheckFails(t, fold)
  {
  }

  lemma ContainsItself()
    ensures Contains(OFFICIAL_URL, OFFICIAL_URL) && Contains("test", "test")
  {
    assert At(OFFICIAL_URL, 0, OFFICIAL_URL) && At("test", 0, "test");
  }

  lemma DemoPortalMayBePrepared()
    ensures MayPrepare(DEMO_AT_OFFICIAL, 0, 0)
  {
    ContainsItself();
    assert A_PORTAL.name[0] == 't' && PORTAL_NAME[0] == '天';
    assert TEMPLATE_CODE[4] != SCAN_CODE[4];
  }
}
