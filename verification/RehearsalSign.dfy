/** Binding every rehearsal portal to the sign flow, dry run only, in the test database. */
module RehearsalSign {
  import opened Text
  import opened BindingStore
  import opened BindingLaws
  import opened OfficialPortal

  const TEMPLATE_CODE := "srm_sign_order"
  const FLOW_ID := "rpa_flow_srm_sign_order"
  const EXPECTED_VERSION := "1.1.0"

  /** `is_rehearsal_official` */
  predicate IsRehearsalOfficial(p: Portal) {
    Contains(p.url, OFFICIAL_URL) && Contains(Trim(p.name), REHEARSAL_MARK)
  }

  function Judge(p: Portal, fold: string -> string): Verdict {
    if IsDemo(p.name, p.url, fold) then Skip
    else if !IsRehearsalOfficial(p) then Skip
    else if Trim(p.name) == PRODUCTION_NAME then Refuse(ProductionName)
    else Take
  }

  const DRY_RUN_CONFIG := Document(JObject(map[
    "portalUrl" := JText(OFFICIAL_URL),
    "browserSession" := BROWSER,
    "dryRun" := JBool(true)]))

  function SignPlan(template: Template, receipt: Receipt, fold: string -> string): Plan {
    Plan(template, receipt, p => Judge(p, fold), c => DRY_RUN_CONFIG)
  }

  function Guard(db: string, receipt: Receipt): Option<Reason> {
    if Contains(db, PRODUCT_DB) || !Contains(db, TEST_DB) then Some(WrongDatabase)
    else if receipt.version != EXPECTED_VERSION || receipt.flowId != FLOW_ID then Some(ReceiptMismatch)
    else if !Contains(receipt.engine, LOCAL_HOST) then Some(WrongEngine)
    else None
  }

  /** What one run of the script does to the tables. */
  function Rehearse(t: Tables, db: string, receipt: Receipt, fold: string -> string, ids: nat -> string): Outcome {
    var hits := LiveTemplates(t.templates, TEMPLATE_CODE);
    if Guard(db, receipt).Some? then Aborted(Guard(db, receipt).value)
    else if hits == [] then Aborted(TemplateMissing)
    else if |hits| > 1 then Aborted(MultipleRows)
    else
      match BoundAll(SignPlan(t.templates[hits[0]], receipt, fold), t.portals, t.bindings, ids)
      case Stopped(reason) => Aborted(reason)
      case Going(rows, updated) => if updated == 0 then Aborted(NoneUpdated) else Committed(t.(bindings := rows))
  }

  datatype Check = Passed | DemoChanged | BadConfig

  /** What the check after the commit says of one joined row. */
  function RowCheck(t: Tables, b: Binding, fold: string -> string): Check {
    var p, w := PortalOf(t.portals, b.portalId), TemplateOf(t.templates, b.templateId);
    if !b.live || p.None? || !p.value.live || w.None? || !w.value.live || w.value.code != TEMPLATE_CODE then Passed
    else if b.config.Document? && !b.config.value.JObject? then BadConfig
    else if IsDemo(p.value.name, p.value.url, fold) && StartsWith(b.flowVersion, "1.1") then DemoChanged
    else Passed
  }

  /** The check stops at the first bad row. */
  function CheckFrom(t: Tables, rows: seq<Binding>, fold: string -> string): Check {
    if rows == [] then Passed
    else if RowCheck(t, rows[0], fold) != Passed then RowCheck(t, rows[0], fold)
    else CheckFrom(t, rows[1..], fold)
  }

  function CheckAll(t: Tables, fold: string -> string): Check {
    CheckFrom(t, t.bindings, fold)
  }

  /** The script: guard, bind on a working copy, commit or leave, then check what was committed. */
  method BindRehearsal(database: Database, db: string, receipt: Receipt, fold: string -> string, ids: nat -> string)
      returns (stopped: Option<Reason>, check: Check)
    requires PortalKeys(database.portals)
    modifies database
    ensures var outcome := Rehearse(old(database.Contents()), db, receipt, fold, ids);
      && database.Contents() == After(outcome, old(database.Contents()))
      && (stopped.None? <==> outcome.Committed?)
      && (outcome.Aborted? ==> stopped == Some(outcome.reason) && check == Passed)
      && (outcome.Committed? ==> check == CheckAll(outcome.tables, fold))
  {
    check := Passed;
    stopped := Guard(db, receipt);
    if stopped.Some? {
      return;
    }
    var hits := LiveTemplates(database.templates, TEMPLATE_CODE);
    if hits == [] {
      return Some(TemplateMissing), Passed;
    }
    if |hits| > 1 {
      return Some(MultipleRows), Passed;
    }
    var plan := SignPlan(database.templates[hits[0]], receipt, fold);
    var step := BindAll(plan, database.portals, database.bindings, ids);
    if step.Stopped? {
      return Some(step.reason), Passed;
    }
    if step.updated == 0 {
      return Some(NoneUpdated), Passed;
    }
    database.bindings := step.rows;
    var committed := database.Contents();
    var rest := database.bindings;
    while rest != []
      invariant check == Passed && CheckFrom(committed, rest, fold) == CheckAll(committed, fold)
      decreases |rest|
    {
      check := RowCheck(committed, rest[0], fold);
      if check != Passed {
        return;
      }
      rest := rest[1..];
    }
  }

  // ---------------------------------------------------------------- properties

  /** The refusal of a production name can never fire: such a portal is not taken in the first place. */
  lemma ProductionNameNeverRefused(p: Portal, fold: string -> string)
    ensures !Judge(p, fold).Refuse?
  {
    ProductionIsNoRehearsal();
  }

  /** The plan of a run that passed its guards, and its outcome. */
  lemma RehearsalOutcome(t: Tables, db: string, receipt: Receipt, fold: string -> string, ids: nat -> string) returns (plan: Plan)
    requires Rehearse(t, db, receipt, fold, ids).Committed?
    ensures var hits := LiveTemplates(t.templates, TEMPLATE_CODE);
      && |hits| == 1 && plan == SignPlan(t.templates[hits[0]], receipt, fold)
      && plan.template.live && plan.template.code == TEMPLATE_CODE
      && BoundAll(plan, t.portals, t.bindings, ids).Going?
      && Rehearse(t, db, receipt, fold, ids) == Committed(t.(bindings := BoundRows(plan, t.portals, t.bindings, ids)))
  {
    plan := SignPlan(t.templates[LiveTemplates(t.templates, TEMPLATE_CODE)[0]], receipt, fold);
  }

  lemma {:induction false} SomeTakenIff(plan: Plan, portals: seq<Portal>, k: nat)
    requires k <= |portals|
    ensures CountTaken(plan, portals, k) > 0 <==> exists j :: 0 <= j < k && Taken(plan, portals[j])
  {
    if k > 0 {
      SomeTakenIff(plan, portals, k - 1);
    }
  }

  /** A live portal at the official URL with the rehearsal mark in its name, and neither `test` nor the demo host. */
  predicate IsRehearsed(p: Portal, fold: string -> string) {
    && p.live && Contains(p.url, OFFICIAL_URL) && Contains(Trim(p.name), REHEARSAL_MARK)
    && !Contains(fold(p.name), "test") && !Contains(p.url, DEMO_HOST)
  }

  predicate IsTestDatabase(db: string) {
    Contains(db, TEST_DB) && !Contains(db, PRODUCT_DB)
  }

  predicate IsOwnReceipt(receipt: Receipt) {
    receipt.version == "1.1.0" && receipt.flowId == "rpa_flow_srm_sign_order"
  }

  /** The test database, the receipt of this very flow and version, and an engine on this machine. */
  predicate IsAllowed(db: string, receipt: Receipt) {
    IsTestDatabase(db) && IsOwnReceipt(receipt) && Contains(receipt.engine, LOCAL_HOST)
  }

  /** It commits exactly when the guards pass, one template has the code, and some portal is to be rehearsed, none twice bound. */
  lemma CommitsIffSomeRehearsal(t: Tables, db: string, receipt: Receipt, fold: string -> string, ids: nat -> string)
    ensures var hits := LiveTemplates(t.templates, TEMPLATE_CODE);
      Rehearse(t, db, receipt, fold, ids).Committed?
      <==> IsAllowed(db, receipt) && |hits| == 1
           && (exists j :: 0 <= j < |t.portals| && IsRehearsed(t.portals[j], fold))
           && (forall j :: 0 <= j < |t.portals| && IsRehearsed(t.portals[j], fold)
                 ==> |BindingsFor(t.bindings, t.portals[j].id, t.templates[hits[0]].id)| <= 1)
  {
    hide LiveTemplates, BindingsFor, Contains, Trim;
    var hits := LiveTemplates(t.templates, TEMPLATE_CODE);
    if |hits| == 1 {
      var plan := SignPlan(t.templates[hits[0]], receipt, fold);
      NoOffenceIff(plan, t.portals, |t.portals|, t.bindings);
      SomeTakenIff(plan, t.portals, |t.portals|);
      forall j | 0 <= j < |t.portals|
        ensures Taken(plan, t.portals[j]) <==> IsRehearsed(t.portals[j], fold)
        ensures Acceptable(plan, t.portals[j], t.bindings)
                <==> (IsRehearsed(t.portals[j], fold) ==> |BindingsFor(t.bindings, t.portals[j].id, plan.template.id)| <= 1)
      {
        ProductionNameNeverRefused(t.portals[j], fold);
      }
    }
  }

  /** Two live templates with the code, or two live bindings of the one template on a portal to be rehearsed. */
  ghost predicate TwoToChooseFrom(t: Tables, fold: string -> string) {
    var hits := LiveTemplates(t.templates, TEMPLATE_CODE);
    || |hits| > 1
    || (|hits| == 1 && exists j :: 0 <= j < |t.portals| && IsRehearsed(t.portals[j], fold)
                          && |BindingsFor(t.bindings, t.portals[j].id, t.templates[hits[0]].id)| > 1)
  }

  /** Which refusal comes out: the database, the receipt, the engine, the template, then the portals. */
  lemma RehearsalRefusals(t: Tables, db: string, receipt: Receipt, fold: string -> string, ids: nat -> string)
    ensures Rehearse(t, db, receipt, fold, ids) == Aborted(WrongDatabase) <==> !IsTestDatabase(db)
    ensures Rehearse(t, db, receipt, fold, ids) == Aborted(ReceiptMismatch) <==> IsTestDatabase(db) && !IsOwnReceipt(receipt)
    ensures Rehearse(t, db, receipt, fold, ids) == Aborted(WrongEngine)
       <==> IsTestDatabase(db) && IsOwnReceipt(receipt) && !Contains(receipt.engine, LOCAL_HOST)
    ensures Rehearse(t, db, receipt, fold, ids) == Aborted(TemplateMissing)
       <==> IsAllowed(db, receipt) && LiveTemplates(t.templates, TEMPLATE_CODE) == []
    ensures Rehearse(t, db, receipt, fold, ids) == Aborted(NoneUpdated)
       <==> IsAllowed(db, receipt) && |LiveTemplates(t.templates, TEMPLATE_CODE)| == 1
            && forall j :: 0 <= j < |t.portals| ==> !IsRehearsed(t.portals[j], fold)
    ensures Rehearse(t, db, receipt, fold, ids) == Aborted(MultipleRows)
       <==> IsAllowed(db, receipt) && TwoToChooseFrom(t, fold)
  {
    hide LiveTemplates, BindingsFor, Contains, Trim, IsRehearsed, IsTestDatabase;
    var hits := LiveTemplates(t.templates, TEMPLATE_CODE);
    GuardIs(db, receipt);
    CommitsIffSomeRehearsal(t, db, receipt, fold, ids);
    if |hits| == 1 {
      LoopRefusals(t, SignPlan(t.templates[hits[0]], receipt, fold), receipt, fold, ids);
    }
  }

  lemma GuardIs(db: string, receipt: Receipt)
    ensures Guard(db, receipt)
      == if !IsTestDatabase(db) then Some(WrongDatabase)
         else if !IsOwnReceipt(receipt) then Some(ReceiptMismatch)
         else if !Contains(receipt.engine, LOCAL_HOST) then Some(WrongEngine) else None
  {
    hide Contains;
  }

  /** The loop stops for nothing but a second row; it counts nothing exactly when there is nothing to rehearse. */
  lemma LoopRefusals(t: Tables, plan: Plan, receipt: Receipt, fold: string -> string, ids: nat -> string)
    requires plan == SignPlan(plan.template, receipt, fold)
    ensures var step := BoundAll(plan, t.portals, t.bindings, ids);
      && (step.Stopped? ==> step.reason == MultipleRows)
      && (step.Stopped? <==> exists j :: 0 <= j < |t.portals| && IsRehearsed(t.portals[j], fold)
                               && |BindingsFor(t.bindings, t.portals[j].id, plan.template.id)| > 1)
      && (step.Going? ==> (step.updated == 0 <==> forall j :: 0 <= j < |t.portals| ==> !IsRehearsed(t.portals[j], fold)))
  {
    hide BindingsFor, Contains, Trim;
    var n := |t.portals|;
    NoOffenceIff(plan, t.portals, n, t.bindings);
    SomeTakenIff(plan, t.portals, n);
    forall j | 0 <= j < n
      ensures Taken(plan, t.portals[j]) <==> IsRehearsed(t.portals[j], fold)
      ensures !Acceptable(plan, t.portals[j], t.bindings)
              <==> IsRehearsed(t.portals[j], fold) && |BindingsFor(t.bindings, t.portals[j].id, plan.template.id)| > 1
      ensures StopReason(plan, t.portals[j]) == MultipleRows
    {
      ProductionNameNeverRefused(t.portals[j], fold);
    }
    if Offence(plan, t.portals, n, t.bindings).Some? {
      var j := FirstUnacceptable(plan, t.portals, n, t.bindings);
      StopsAtFirst(plan, t.portals, n, t.bindings, j);
    }
  }

  /** A portal id that the rehearsal bind takes belongs to a rehearsal portal that is no demo portal. */
  lemma TakenIsRehearsal(portals: seq<Portal>, template: Template, receipt: Receipt, fold: string -> string, id: string)
    requires PortalKeys(portals) && TakenId(SignPlan(template, receipt, fold), portals, id)
    ensures var p := PortalOf(portals, id);
      && p.Some? && p.value.live && IsRehearsalOfficial(p.value)
      && !IsDemo(p.value.name, p.value.url, fold)
  {
    var plan := SignPlan(template, receipt, fold);
    var j :| 0 <= j < |portals| && Taken(plan, portals[j]) && portals[j].id == id;
    PortalByKey(portals, j);
  }

  /** A rehearsal bind leaves every binding of a demo portal untouched, and inserts none there. */
  lemma DemoUntouched(t: Tables, db: string, receipt: Receipt, fold: string -> string, ids: nat -> string)
    requires PortalKeys(t.portals) && Rehearse(t, db, receipt, fold, ids).Committed?
    ensures var after := Rehearse(t, db, receipt, fold, ids).tables.bindings;
      && |t.bindings| <= |after|
      && forall i :: 0 <= i < |after| ==>
           var p := PortalOf(t.portals, after[i].portalId);
           (p.None? || IsDemo(p.value.name, p.value.url, fold)) ==> i < |t.bindings| && after[i] == t.bindings[i]
  {
    var plan := RehearsalOutcome(t, db, receipt, fold, ids);
    BindFrame(plan, t.portals, t.bindings, ids);
    var after := BoundRows(plan, t.portals, t.bindings, ids);
    forall i | 0 <= i < |after| && TakenId(plan, t.portals, after[i].portalId)
      ensures var p := PortalOf(t.portals, after[i].portalId); p.Some? && !IsDemo(p.value.name, p.value.url, fold)
    {
      TakenIsRehearsal(t.portals, plan.template, receipt, fold, after[i].portalId);
    }
  }

  /** Every rehearsal portal ends up with exactly one live sign binding, on this version, dry run true. */
  lemma RehearsalIsDryRun(t: Tables, db: string, receipt: Receipt, fold: string -> string, ids: nat -> string, p: Portal)
      returns (h: nat)
    requires PortalKeys(t.portals) && Rehearse(t, db, receipt, fold, ids).Committed?
    requires p in t.portals && p.live && IsRehearsalOfficial(p) && !IsDemo(p.name, p.url, fold)
    ensures var after := Rehearse(t, db, receipt, fold, ids).tables.bindings;
      var template := t.templates[LiveTemplates(t.templates, TEMPLATE_CODE)[0]];
      && h < |after| && BindingsFor(after, p.id, template.id) == [h]
      && after[h].config == DRY_RUN_CONFIG
      && ConfigFields(after[h].config) == map["portalUrl" := JText(OFFICIAL_URL), "browserSession" := BROWSER, "dryRun" := JBool(true)]
      && (h >= |t.bindings| ==> exists id :: IsNewFor(after[h], p, template, id))
      && after[h].flowVersion == EXPECTED_VERSION && after[h].flowId == FLOW_ID
      && after[h].flowVersionId == receipt.versionId && after[h].checksum == receipt.checksum
      && after[h].status == "ENABLED"
  {
    var plan := RehearsalOutcome(t, db, receipt, fold, ids);
    ProductionNameNeverRefused(p, fold);
    var j :| 0 <= j < |t.portals| && t.portals[j] == p;
    h := TakenIsBound(plan, t.portals, t.bindings, ids, j);
    WrittenRow(plan, t.portals, t.bindings, ids, j, h);
    assert IsNewFor(Create(plan, p, ids(j)), p, plan.template, ids(j));
  }

  /** Rerunning the bind on its own result changes nothing, whatever ids it draws. */
  lemma RehearseAgain(t: Tables, db: string, receipt: Receipt, fold: string -> string, ids: nat -> string, again: nat -> string)
    requires PortalKeys(t.portals) && Rehearse(t, db, receipt, fold, ids).Committed?
    ensures Rehearse(Rehearse(t, db, receipt, fold, ids).tables, db, receipt, fold, again)
         == Rehearse(t, db, receipt, fold, ids)
  {
    var plan := RehearsalOutcome(t, db, receipt, fold, ids);
    RebindIsNoOp(plan, t.portals, t.bindings, ids, again);
  }

  // ---------------------------------------------------------------- the check after the commit

  /** The rows with those of rehearsed portals switched off. */
  function Unrehearsed(plan: Plan, portals: seq<Portal>, b: Binding): Binding {
    if b.live && b.templateId == plan.template.id && TakenId(plan, portals, b.portalId) then b.(live := false) else b
  }

  lemma {:induction false} CheckByRows(t: Tables, a: seq<Binding>, b: seq<Binding>, fold: string -> string)
    requires |b| <= |a|
    requires forall i :: 0 <= i < |b| ==> RowCheck(t, a[i], fold) == RowCheck(t, b[i], fold)
    requires forall i :: |b| <= i < |a| ==> RowCheck(t, a[i], fold) == Passed
    ensures CheckFrom(t, a, fold) == CheckFrom(t, b, fold)
    decreases |a|
  {
    if b != [] {
      CheckByRows(t, a[1..], b[1..], fold);
    } else if a != [] {
      CheckByRows(t, a[1..], b, fold);
    }
  }

  /** A row that the rehearsal bind wrote passes the check. */
  lemma WrittenRowPasses(t: Tables, plan: Plan, receipt: Receipt, fold: string -> string, b: Binding)
    requires PortalKeys(t.portals) && plan == SignPlan(plan.template, receipt, fold)
    requires TakenId(plan, t.portals, b.portalId) && b.config == DRY_RUN_CONFIG
    ensures RowCheck(t, b, fold) == Passed
  {
    TakenIsRehearsal(t.portals, plan.template, receipt, fold, b.portalId);
  }

  /**
   * The check after the commit says what the same check would have said before the bind of all
   * rows outside the bind's own frame: the bind itself can neither cause nor hide a demo change.
   */
  lemma CheckJudgesTheRest(t: Tables, db: string, receipt: Receipt, fold: string -> string, ids: nat -> string)
    requires PortalKeys(t.portals) && Rehearse(t, db, receipt, fold, ids).Committed?
    ensures var plan := SignPlan(t.templates[LiveTemplates(t.templates, TEMPLATE_CODE)[0]], receipt, fold);
      CheckAll(Rehearse(t, db, receipt, fold, ids).tables, fold)
      == CheckFrom(t, MapRows(b => Unrehearsed(plan, t.portals, b), t.bindings), fold)
  {
    var plan := RehearsalOutcome(t, db, receipt, fold, ids);
    var after := Rehearse(t, db, receipt, fold, ids).tables;
    BindFrame(plan, t.portals, t.bindings, ids);
    var rest := MapRows(b => Unrehearsed(plan, t.portals, b), t.bindings);
    forall i | 0 <= i < |after.bindings|
      ensures RowCheck(t, after.bindings[i], fold) == if i < |rest| then RowCheck(t, rest[i], fold) else Passed
    {
      if i >= |rest| {
        var j := AppendedFor(plan, t.portals, t.bindings, ids, i);
        WrittenRowPasses(t, plan, receipt, fold, after.bindings[i]);
      } else if Touched(plan, t.portals, |t.portals|, t.bindings[i]) {
        WrittenRowPasses(t, plan, receipt, fold, after.bindings[i]);
      }
    }
    CheckByRows(t, after.bindings, rest, fold);
    SameCheckTables(t, after, after.bindings, fold);
  }

  lemma {:induction false} SameCheckTables(t: Tables, u: Tables, rows: seq<Binding>, fold: string -> string)
    requires t.portals == u.portals && t.templates == u.templates
    ensures CheckFrom(t, rows, fold) == CheckFrom(u, rows, fold)
  {
    if rows != [] {
      SameCheckTables(t, u, rows[1..], fold);
    }
  }

  /** Row `i` is where the check stops. */
  ghost predicate StopsAt(t: Tables, rows: seq<Binding>, fold: string -> string, i: int) {
    && 0 <= i < |rows| && RowCheck(t, rows[i], fold) != Passed
    && forall j :: 0 <= j < i ==> RowCheck(t, rows[j], fold) == Passed
  }

  lemma {:induction false} WhereItStops(t: Tables, rows: seq<Binding>, fold: string -> string) returns (i: int)
    ensures CheckFrom(t, rows, fold) != Passed ==> StopsAt(t, rows, fold, i) && CheckFrom(t, rows, fold) == RowCheck(t, rows[i], fold)
    ensures CheckFrom(t, rows, fold) == Passed ==> forall j :: 0 <= j < |rows| ==> RowCheck(t, rows[j], fold) == Passed
  {
    i := 0;
    if rows != [] && RowCheck(t, rows[0], fold) == Passed {
      var k := WhereItStops(t, rows[1..], fold);
      i := k + 1;
      assert forall j :: 1 <= j < |rows| ==> rows[j] == rows[1..][j - 1];
    }
  }

  lemma {:induction false} StopsThere(t: Tables, rows: seq<Binding>, fold: string -> string, i: int)
    requires StopsAt(t, rows, fold, i)
    ensures CheckFrom(t, rows, fold) == RowCheck(t, rows[i], fold)
  {
    if i > 0 {
      assert forall j :: 1 <= j < |rows| ==> rows[j] == rows[1..][j - 1];
      StopsThere(t, rows[1..], fold, i - 1);
    }
  }

  /** Row `b` is read by the check: live, of a live template with the code, on a live portal. */
  ghost predicate IsJoined(t: Tables, b: Binding, p: int, w: int) {
    && b.live && 0 <= p < |t.portals| && t.portals[p].live && t.portals[p].id == b.portalId
    && 0 <= w < |t.templates| && t.templates[w].live && t.templates[w].id == b.templateId && t.templates[w].code == TEMPLATE_CODE
  }

  /** A row for which the check stops: its config is JSON but no object, or its portal is a demo one and its version 1.1. */
  ghost predicate IsOffending(t: Tables, fold: string -> string, b: Binding) {
    exists p, w :: IsJoined(t, b, p, w)
      && (NonObject(b.config)
          || ((Contains(fold(t.portals[p].name), "test") || Contains(t.portals[p].url, DEMO_HOST)) && StartsWith(b.flowVersion, "1.1")))
  }

  lemma RowCheckIs(t: Tables, fold: string -> string, b: Binding)
    requires PortalKeys(t.portals) && TemplateKeys(t.templates)
    ensures RowCheck(t, b, fold) == if !IsOffending(t, fold, b) then Passed else if NonObject(b.config) then BadConfig else DemoChanged
  {
    hide Contains, StartsWith;
    forall p, w | IsJoined(t, b, p, w)
      ensures PortalOf(t.portals, b.portalId) == Some(t.portals[p]) && TemplateOf(t.templates, b.templateId) == Some(t.templates[w])
    {
      PortalByKey(t.portals, p);
      TemplateByKey(t.templates, w);
    }
    var p, w := PortalOf(t.portals, b.portalId), TemplateOf(t.templates, b.templateId);
    if p.Some? && w.Some? {
      var i :| 0 <= i < |t.portals| && t.portals[i] == p.value;
      var k :| 0 <= k < |t.templates| && t.templates[k] == w.value;
      assert b.live && p.value.live && w.value.live && w.value.code == TEMPLATE_CODE ==> IsJoined(t, b, i, k);
    }
  }

  /** The verdict of the check: that of the first offending row, and none when no row offends. */
  lemma CheckVerdict(t: Tables, fold: string -> string)
    requires PortalKeys(t.portals) && TemplateKeys(t.templates)
    ensures CheckAll(t, fold) == Passed <==> forall i :: 0 <= i < |t.bindings| ==> !IsOffending(t, fold, t.bindings[i])
    ensures forall i :: 0 <= i < |t.bindings| && IsOffending(t, fold, t.bindings[i])
                        && (forall j :: 0 <= j < i ==> !IsOffending(t, fold, t.bindings[j]))
              ==> CheckAll(t, fold) == if NonObject(t.bindings[i].config) then BadConfig else DemoChanged
  {
    hide RowCheck, IsOffending, CheckFrom;
    forall i | 0 <= i < |t.bindings|
      ensures RowCheck(t, t.bindings[i], fold)
           == if !IsOffending(t, fold, t.bindings[i]) then Passed else if NonObject(t.bindings[i].config) then BadConfig else DemoChanged
    {
      RowCheckIs(t, fold, t.bindings[i]);
    }
    var k := WhereItStops(t, t.bindings, fold);
    forall i | 0 <= i < |t.bindings| && IsOffending(t, fold, t.bindings[i])
               && (forall j :: 0 <= j < i ==> !IsOffending(t, fold, t.bindings[j]))
      ensures CheckAll(t, fold) == RowCheck(t, t.bindings[i], fold)
    {
      StopsThere(t, t.bindings, fold, i);
    }
  }

  /** A rehearsed row can only fail the check for its config, and the bind repairs that. */
  lemma RehearsedRowCheck(t: Tables, plan: Plan, receipt: Receipt, fold: string -> string, b: Binding)
    requires PortalKeys(t.portals) && plan == SignPlan(plan.template, receipt, fold)
    ensures Unrehearsed(plan, t.portals, b) != b ==> RowCheck(t, b, fold) != DemoChanged
    ensures Unrehearsed(plan, t.portals, b) != b ==> RowCheck(t, Unrehearsed(plan, t.portals, b), fold) == Passed
  {
    if Unrehearsed(plan, t.portals, b) != b {
      TakenIsRehearsal(t.portals, plan.template, receipt, fold, b.portalId);
    }
  }

  /** A config column that holds JSON but no object. */
  predicate NonObject(c: Stored) {
    c.Document? && !c.value.JObject?
  }

  /** A live binding that the bind rewrites: of the one sign template, on a portal to be rehearsed. */
  predicate InFrame(t: Tables, b: Binding, fold: string -> string) {
    var hits, p := LiveTemplates(t.templates, TEMPLATE_CODE), PortalOf(t.portals, b.portalId);
    && |hits| == 1 && b.live && b.templateId == t.templates[hits[0]].id
    && p.Some? && IsRehearsed(p.value, fold)
  }

  /** Row `k` is the first row outside the frame for which the check would stop. */
  ghost predicate FirstOutside(t: Tables, fold: string -> string, k: int) {
    && 0 <= k < |t.bindings| && !InFrame(t, t.bindings[k], fold) && RowCheck(t, t.bindings[k], fold) != Passed
    && forall j :: 0 <= j < k && !InFrame(t, t.bindings[j], fold) ==> RowCheck(t, t.bindings[j], fold) == Passed
  }

  /** The rows switched off are those of the frame. */
  lemma UnrehearsedIffInFrame(t: Tables, plan: Plan, receipt: Receipt, fold: string -> string, b: Binding)
    requires PortalKeys(t.portals) && |LiveTemplates(t.templates, TEMPLATE_CODE)| == 1
    requires plan == SignPlan(t.templates[LiveTemplates(t.templates, TEMPLATE_CODE)[0]], receipt, fold)
    ensures Unrehearsed(plan, t.portals, b) != b <==> InFrame(t, b, fold)
  {
    hide LiveTemplates, Contains, Trim;
    if InFrame(t, b, fold) {
      var p := PortalOf(t.portals, b.portalId).value;
      var j :| 0 <= j < |t.portals| && t.portals[j] == p;
      ProductionNameNeverRefused(p, fold);
      assert Taken(plan, t.portals[j]) && t.portals[j].id == b.portalId;
    } else if Unrehearsed(plan, t.portals, b) != b {
      TakenIsRehearsal(t.portals, plan.template, receipt, fold, b.portalId);
    }
  }

  /** A row stops the check for its config exactly when it is an offending row without an object. */
  lemma BadConfigIff(t: Tables, b: Binding, fold: string -> string)
    ensures RowCheck(t, b, fold) == BadConfig <==> RowCheck(t, b, fold) != Passed && NonObject(b.config)
  {
  }

  /**
   * The verdict changes exactly when the first offending row is in the frame and holds JSON that is no
   * object, and the first offending row outside the frame, if any, does not.
   */
  lemma CheckChangedIff(t: Tables, db: string, receipt: Receipt, fold: string -> string, ids: nat -> string)
    requires PortalKeys(t.portals) && Rehearse(t, db, receipt, fold, ids).Committed?
    ensures CheckAll(Rehearse(t, db, receipt, fold, ids).tables, fold) != CheckAll(t, fold)
      <==> (exists i :: StopsAt(t, t.bindings, fold, i)
                        && InFrame(t, t.bindings[i], fold) && NonObject(t.bindings[i].config))
           && !(exists k :: FirstOutside(t, fold, k) && NonObject(t.bindings[k].config))
  {
    var plan := RehearsalOutcome(t, db, receipt, fold, ids);
    CheckJudgesTheRest(t, db, receipt, fold, ids);
    hide Rehearse, RowCheck, Unrehearsed, SignPlan, InFrame, LiveTemplates;
    var rest := MapRows(b => Unrehearsed(plan, t.portals, b), t.bindings);
    forall i | 0 <= i < |rest|
      ensures rest[i] != t.bindings[i] <==> InFrame(t, t.bindings[i], fold)
      ensures rest[i] != t.bindings[i] ==> RowCheck(t, rest[i], fold) == Passed && RowCheck(t, t.bindings[i], fold) != DemoChanged
    {
      UnrehearsedIffInFrame(t, plan, receipt, fold, t.bindings[i]);
      RehearsedRowCheck(t, plan, receipt, fold, t.bindings[i]);
    }
    VerdictsDifferIff(t, fold, rest);
  }

  lemma VerdictsDifferIff(t: Tables, fold: string -> string, rest: seq<Binding>)
    requires |rest| == |t.bindings|
    requires forall i :: 0 <= i < |rest| ==> (rest[i] != t.bindings[i] <==> InFrame(t, t.bindings[i], fold))
    requires forall i :: 0 <= i < |rest| && rest[i] != t.bindings[i] ==>
      RowCheck(t, rest[i], fold) == Passed && RowCheck(t, t.bindings[i], fold) != DemoChanged
    ensures CheckFrom(t, rest, fold) != CheckFrom(t, t.bindings, fold)
      <==> (exists i :: StopsAt(t, t.bindings, fold, i)
                        && InFrame(t, t.bindings[i], fold) && NonObject(t.bindings[i].config))
           && !(exists k :: FirstOutside(t, fold, k) && NonObject(t.bindings[k].config))
  {
    hide RowCheck, InFrame, NonObject, CheckFrom;
    forall i | 0 <= i < |rest|
      ensures RowCheck(t, t.bindings[i], fold) == BadConfig
              <==> RowCheck(t, t.bindings[i], fold) != Passed && NonObject(t.bindings[i].config)
    {
      BadConfigIff(t, t.bindings[i], fold);
    }
    var i := WhereItStops(t, t.bindings, fold);
    var k := WhereItStops(t, rest, fold);
    if CheckFrom(t, rest, fold) != Passed {
      assert FirstOutside(t, fold, k);
    }
    if i' :| StopsAt(t, t.bindings, fold, i') {
      StopsThere(t, t.bindings, fold, i');
      if !InFrame(t, t.bindings[i'], fold) {
        assert FirstOutside(t, fold, i') && StopsAt(t, rest, fold, i');
        StopsThere(t, rest, fold, i');
      }
    }
    if k' :| FirstOutside(t, fold, k') {
      assert StopsAt(t, rest, fold, k');
      StopsThere(t, rest, fold, k');
    }
  }

  /** What a caller can see to: with no such config in the frame the verdict is the one from before the bind. */
  lemma CheckUnchanged(t: Tables, db: string, receipt: Receipt, fold: string -> string, ids: nat -> string)
    requires PortalKeys(t.portals) && Rehearse(t, db, receipt, fold, ids).Committed?
    requires forall i :: 0 <= i < |t.bindings| && InFrame(t, t.bindings[i], fold) ==> !NonObject(t.bindings[i].config)
    ensures CheckAll(Rehearse(t, db, receipt, fold, ids).tables, fold) == CheckAll(t, fold)
  {
    CheckChangedIff(t, db, receipt, fold, ids);
  }

  const A_PORTAL := Portal("p", "t", REHEARSAL_MARK, OFFICIAL_URL, "u", true)
  const A_TEMPLATE := Template("w", "t", TEMPLATE_CODE, "1.0.0", "u", true)
  const A_RECEIPT := Receipt(FLOW_ID, EXPECTED_VERSION, "v", "c", LOCAL_HOST)
  const NULL_BINDING := Binding("b", "p", "w", "1.0.0", "PLAYWRIGHT_CDP", FLOW_ID, "1.0.0", "v", "c", "ENABLED",
                                Document(JNull), "u", true)
  const NULL_CONFIG := Tables([A_PORTAL], [A_TEMPLATE], [NULL_BINDING], [])

  /** The exception is real: a rehearsal binding whose config is `null` stops the check before the bind, not after. */
  lemma BadConfigIsRepaired(fold: string -> string, ids: nat -> string)
    requires !Contains(fold(REHEARSAL_MARK), "test")
    ensures var run := Rehearse(NULL_CONFIG, TEST_DB, A_RECEIPT, fold, ids);
      CheckAll(NULL_CONFIG, fold) == BadConfig && run.Committed? && CheckAll(run.tables, fold) == Passed
  {
    hide Contains, Rehearse;
    var plan := SignPlan(A_TEMPLATE, A_RECEIPT, fold);
    NullConfigIsBound(fold, ids);
    CheckJudgesTheRest(NULL_CONFIG, TEST_DB, A_RECEIPT, fold, ids);
    var rest := MapRows(b => Unrehearsed(plan, [A_PORTAL], b), [NULL_BINDING]);
    assert Taken(plan, [A_PORTAL][0]);
    assert rest == [NULL_BINDING.(live := false)] && rest[1..] == [];
  }

  lemma NullConfigIsBound(fold: string -> string, ids: nat -> string)
    requires !Contains(fold(REHEARSAL_MARK), "test")
    ensures Rehearse(NULL_CONFIG, TEST_DB, A_RECEIPT, fold, ids).Committed?
    ensures LiveTemplates(NULL_CONFIG.templates, TEMPLATE_CODE) == [0]
    ensures Judge(A_PORTAL, fold) == Take
  {
    hide Contains, Judge, BindingsFor, LiveTemplates;
    var plan := SignPlan(A_TEMPLATE, A_RECEIPT, fold);
    NullConfigLookups();
    RehearsalPortalIsTaken(A_PORTAL, fold);
    TestDatabaseIsAccepted();
    OnePortalGoing(plan, A_PORTAL, NULL_CONFIG.bindings, ids);
  }

  lemma NullConfigLookups()
    ensures LiveTemplates([A_TEMPLATE], TEMPLATE_CODE) == [0]
    ensures BindingsFor([NULL_BINDING], A_PORTAL.id, A_TEMPLATE.id) == [0]
  {
    assert [A_TEMPLATE][..0] == [] && [NULL_BINDING][..0] == [];
  }

  lemma OnePortalGoing(plan: Plan, p: Portal, rows: seq<Binding>, ids: nat -> string)
    requires Taken(plan, p) && |BindingsFor(rows, p.id, plan.template.id)| <= 1
    ensures BoundAll(plan, [p], rows, ids).Going? && BoundAll(plan, [p], rows, ids).updated == 1
  {
    assert Offence(plan, [p], 0, rows) == None && CountTaken(plan, [p], 0) == 0;
  }

  lemma RehearsalPortalIsTaken(p: Portal, fold: string -> string)
    requires p.name == REHEARSAL_MARK && p.url == OFFICIAL_URL && !Contains(fold(REHEARSAL_MARK), "test")
    ensures Judge(p, fold) == Take
  {
    ProductionNameNeverRefused(p, fold);
    assert At(OFFICIAL_URL, 0, OFFICIAL_URL) && At(REHEARSAL_MARK, 0, REHEARSAL_MARK);
    ContainedIsMadeOf(OFFICIAL_URL, DEMO_HOST, 0);
  }

  lemma TestDatabaseIsAccepted()
    ensures Contains(TEST_DB, TEST_DB) && !Contains(TEST_DB, PRODUCT_DB) && Contains(LOCAL_HOST, LOCAL_HOST)
  {
    ContainedIsMadeOf(TEST_DB, PRODUCT_DB, 0);
    assert At(TEST_DB, 0, TEST_DB) && At(LOCAL_HOST, 0, LOCAL_HOST);
  }
}
