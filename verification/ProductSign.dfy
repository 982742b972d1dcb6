/** Binding the one production portal to the sign flow, never as a dry run. */
module ProductSign {
  import opened Text
  import opened BindingStore
  import opened BindingLaws
  import opened OfficialPortal

  const TEMPLATE_CODE := "srm_sign_order"
  const TEMPLATE_ID := "4540f066-5e1b-4ef6-90f4-31f0efe54bc0"
  const FLOW_ID := "rpa_flow_srm_sign_order"
  const EXPECTED_VERSION := "1.1.5"
  const LOCAL_VERSION_IDS := {"5314dfe8-34e7-4918-a461-69bc236305ae"}

  function Judge(p: Portal): Verdict {
    var name := Trim(p.name);
    if Contains(name, REHEARSAL_MARK) then Skip
    else if name != PRODUCTION_NAME then Skip
    else if !Contains(p.url, OFFICIAL_URL) then Refuse(UnexpectedUrl)
    else Take
  }

  /** The config of the existing binding without `dryRun`, with the official URL and browser. */
  function RealConfig(was: Stored): Stored {
    Document(JObject((ConfigFields(was) - {"dryRun"})["portalUrl" := JText(OFFICIAL_URL)]["browserSession" := BROWSER]))
  }

  function SignPlan(template: Template, receipt: Receipt): Plan {
    Plan(template, receipt, p => Judge(p), c => RealConfig(c))
  }

  function Guard(db: string, receipt: Receipt): Option<Reason> {
    if !Contains(db, PRODUCT_DB) || Contains(db, TEST_DB) then Some(WrongDatabase)
    else if receipt.version != EXPECTED_VERSION || receipt.flowId != FLOW_ID then Some(ReceiptMismatch)
    else if receipt.versionId in LOCAL_VERSION_IDS then Some(LocalVersion)
    else if receipt.engine != PRODUCT_ENGINE then Some(WrongEngine)
    else None
  }

  function AnyLive(rows: seq<Template>): Option<Template> {
    if rows == [] then None else if rows[0].live then Some(rows[0]) else AnyLive(rows[1..])
  }

  /** The template table with the sign template, seeded from some live template when missing. */
  datatype Seeded = Seeded(templates: seq<Template>, template: Template) | NotSeeded(reason: Reason)

  function SeedTemplate(templates: seq<Template>): Seeded {
    var hits := LiveTemplates(templates, TEMPLATE_CODE);
    if |hits| > 1 then NotSeeded(MultipleRows)
    else if |hits| == 1 then Seeded(templates, templates[hits[0]])
    else if AnyLive(templates).None? then NotSeeded(NoSampleTemplate)
    else if TemplateOf(templates, TEMPLATE_ID).Some? then NotSeeded(DuplicateKey)
    else
      var sample := AnyLive(templates).value;
      var made := Template(TEMPLATE_ID, sample.tenant, TEMPLATE_CODE, "1.0.0", sample.createdBy, true);
      Seeded(templates + [made], made)
  }

  /** What one run of the script does to the tables. */
  function BindProduction(t: Tables, db: string, receipt: Receipt, ids: nat -> string): Outcome {
    if Guard(db, receipt).Some? then Aborted(Guard(db, receipt).value)
    else
      match SeedTemplate(t.templates)
      case NotSeeded(reason) => Aborted(reason)
      case Seeded(templates, template) =>
        match BoundAll(SignPlan(template, receipt), t.portals, t.bindings, ids)
        case Stopped(reason) => Aborted(reason)
        case Going(rows, updated) =>
          if updated != 1 then Aborted(NotExactlyOne)
          else Committed(t.(templates := templates, bindings := rows))
  }

  /** A row that the check after the commit reads, for the production portal. */
  predicate IsProductionRow(t: Tables, b: Binding) {
    var p, w := PortalOf(t.portals, b.portalId), TemplateOf(t.templates, b.templateId);
    && b.live && p.Some? && p.value.live && w.Some? && w.value.live && w.value.code == TEMPLATE_CODE
    && p.value.name == PRODUCTION_NAME
  }

  /** The check after the commit fires on this row. */
  predicate StillDryRun(t: Tables, b: Binding) {
    IsProductionRow(t, b) && "dryRun" in ConfigFields(b.config) && ConfigFields(b.config)["dryRun"] == JBool(true)
  }

  method BindProductionSign(database: Database, db: string, receipt: Receipt, ids: nat -> string)
      returns (stopped: Option<Reason>)
    requires PortalKeys(database.portals)
    modifies database
    ensures var outcome := BindProduction(old(database.Contents()), db, receipt, ids);
      && database.Contents() == After(outcome, old(database.Contents()))
      && stopped == if outcome.Aborted? then Some(outcome.reason) else None
  {
    stopped := Guard(db, receipt);
    if stopped.Some? {
      return;
    }
    var templates := database.templates;
    var template;
    var hits := LiveTemplates(templates, TEMPLATE_CODE);
    if |hits| > 1 {
      return Some(MultipleRows);
    }
    if |hits| == 1 {
      template := templates[hits[0]];
    } else {
      var sample := AnyLive(templates);
      if sample.None? {
        return Some(NoSampleTemplate);
      }
      if TemplateOf(templates, TEMPLATE_ID).Some? {
        return Some(DuplicateKey);
      }
      template := Template(TEMPLATE_ID, sample.value.tenant, TEMPLATE_CODE, "1.0.0", sample.value.createdBy, true);
      templates := templates + [template];
    }
    var step := BindAll(SignPlan(template, receipt), database.portals, database.bindings, ids);
    if step.Stopped? {
      return Some(step.reason);
    }
    if step.updated != 1 {
      return Some(NotExactlyOne);
    }
    database.templates, database.bindings := templates, step.rows;
    return None;
  }

  // ---------------------------------------------------------------- properties

  lemma ProductionOutcome(t: Tables, db: string, receipt: Receipt, ids: nat -> string) returns (plan: Plan)
    requires BindProduction(t, db, receipt, ids).Committed?
    ensures var seeded := SeedTemplate(t.templates);
      && seeded.Seeded? && plan == SignPlan(seeded.template, receipt)
      && BoundAll(plan, t.portals, t.bindings, ids).Going?
      && BoundAll(plan, t.portals, t.bindings, ids).updated == 1
      && receipt.version == EXPECTED_VERSION && receipt.flowId == FLOW_ID
      && BindProduction(t, db, receipt, ids)
         == Committed(t.(templates := seeded.templates, bindings := BoundRows(plan, t.portals, t.bindings, ids)))
  {
    plan := SignPlan(SeedTemplate(t.templates).template, receipt);
  }

  /** Committing needs exactly one live portal with the production name, and it is the one taken. */
  lemma {:induction false} ExactlyOneTaken(plan: Plan, portals: seq<Portal>, k: nat) returns (j: nat)
    requires k <= |portals| && CountTaken(plan, portals, k) == 1
    ensures j < k && Taken(plan, portals[j]) && forall i :: 0 <= i < k && Taken(plan, portals[i]) ==> i == j
    decreases k
  {
    if Taken(plan, portals[k - 1]) {
      j := k - 1;
      NoneTaken(plan, portals, k - 1);
    } else {
      j := ExactlyOneTaken(plan, portals, k - 1);
    }
  }

  lemma {:induction false} NoneTaken(plan: Plan, portals: seq<Portal>, k: nat)
    requires k <= |portals| && CountTaken(plan, portals, k) == 0
    ensures forall i :: 0 <= i < k ==> !Taken(plan, portals[i])
    decreases k
  {
    if k > 0 {
      NoneTaken(plan, portals, k - 1);
    }
  }

  lemma {:induction false} OneIsCounted(plan: Plan, portals: seq<Portal>, k: nat, j: nat)
    requires j < k <= |portals| && Taken(plan, portals[j])
    requires forall i :: 0 <= i < k && Taken(plan, portals[i]) ==> i == j
    ensures CountTaken(plan, portals, k) == 1
    decreases k
  {
    if j < k - 1 {
      OneIsCounted(plan, portals, k - 1, j);
    } else {
      NoneIsCounted(plan, portals, k - 1);
    }
  }

  lemma {:induction false} NoneIsCounted(plan: Plan, portals: seq<Portal>, k: nat)
    requires k <= |portals| && forall i :: 0 <= i < k ==> !Taken(plan, portals[i])
    ensures CountTaken(plan, portals, k) == 0
    decreases k
  {
    if k > 0 {
      NoneIsCounted(plan, portals, k - 1);
    }
  }

  /** Which portals the script takes, and that it refuses every other production one. */
  lemma TakenIsProduction(template: Template, receipt: Receipt, p: Portal)
    ensures Taken(SignPlan(template, receipt), p)
            <==> p.live && Trim(p.name) == PRODUCTION_NAME && Contains(p.url, OFFICIAL_URL)
    ensures SignPlan(template, receipt).judge(p).Refuse?
            <==> Trim(p.name) == PRODUCTION_NAME && !Contains(p.url, OFFICIAL_URL)
  {
    hide Contains, Trim;
    ProductionIsNoRehearsal();
  }

  /** Config keys of a production binding: the official URL and browser, no `dryRun`, all others as they were. */
  predicate RealFields(fields: map<string, Json>, was: map<string, Json>) {
    && "portalUrl" in fields && fields["portalUrl"] == JText(OFFICIAL_URL)
    && "browserSession" in fields && fields["browserSession"] == BROWSER
    && "dryRun" !in fields
    && (forall key :: key in fields && key !in {"portalUrl", "browserSession"} ==> key in was && fields[key] == was[key])
    && (forall key :: key in was && key !in {"portalUrl", "browserSession", "dryRun"} ==> key in fields)
  }

  lemma RealConfigFields(c: Stored)
    ensures RealFields(ConfigFields(RealConfig(c)), ConfigFields(c))
  {
  }

  /**
   * The one production portal: after a commit exactly one live portal carries the production name,
   * its one live sign binding carries the whole receipt and no `dryRun`, and only it changed.
   */
  lemma ProductionIsReal(t: Tables, db: string, receipt: Receipt, ids: nat -> string) returns (j: nat, h: nat)
    requires PortalKeys(t.portals) && BindProduction(t, db, receipt, ids).Committed?
    ensures var after := BindProduction(t, db, receipt, ids).tables;
      var template := SeedTemplate(t.templates).template;
      && j < |t.portals| && t.portals[j].live && Trim(t.portals[j].name) == PRODUCTION_NAME
      && Contains(t.portals[j].url, OFFICIAL_URL)
      && (forall i :: 0 <= i < |t.portals| && t.portals[i].live && Trim(t.portals[i].name) == PRODUCTION_NAME ==> i == j)
      && h < |after.bindings| && BindingsFor(after.bindings, t.portals[j].id, template.id) == [h]
      && OnReceipt(t.bindings, after.bindings, h, receipt) && receipt.flowId == FLOW_ID && receipt.version == EXPECTED_VERSION
      && (h >= |t.bindings| ==> IsNewFor(after.bindings[h], t.portals[j], template, ids(j)))
      && RealFields(ConfigFields(after.bindings[h].config), FieldsBefore(t.bindings, h))
      && OnlyRowChanged(t.bindings, after.bindings, h)
  {
    hide BindingsFor, Contains, Trim, Taken, Judge;
    var plan := ProductionOutcome(t, db, receipt, ids);
    j, h := ProductionLoop(plan, t.portals, t.bindings, ids);
  }

  lemma ProductionLoop(plan: Plan, portals: seq<Portal>, rows: seq<Binding>, ids: nat -> string) returns (j: nat, h: nat)
    requires PortalKeys(portals) && plan == SignPlan(plan.template, plan.receipt)
    requires BoundAll(plan, portals, rows, ids).Going? && BoundAll(plan, portals, rows, ids).updated == 1
    ensures var after := BoundRows(plan, portals, rows, ids);
      && j < |portals| && portals[j].live && Trim(portals[j].name) == PRODUCTION_NAME
      && Contains(portals[j].url, OFFICIAL_URL)
      && (forall i :: 0 <= i < |portals| && portals[i].live && Trim(portals[i].name) == PRODUCTION_NAME ==> i == j)
      && h < |after| && BindingsFor(after, portals[j].id, plan.template.id) == [h]
      && (h >= |rows| ==> IsNewFor(after[h], portals[j], plan.template, ids(j)))
      && OnReceipt(rows, after, h, plan.receipt) && RealFields(ConfigFields(after[h].config), FieldsBefore(rows, h))
      && OnlyRowChanged(rows, after, h)
  {
    hide BindingsFor, Contains, Trim, Taken, Judge;
    j := ExactlyOneTaken(plan, portals, |portals|);
    TakenIsProduction(plan.template, plan.receipt, portals[j]);
    h := TakenIsBound(plan, portals, rows, ids, j);
    NoOffenceIff(plan, portals, |portals|, rows);
    forall i | 0 <= i < |portals| && portals[i].live && Trim(portals[i].name) == PRODUCTION_NAME ensures i == j {
      assert Acceptable(plan, portals[i], rows);
      TakenIsProduction(plan.template, plan.receipt, portals[i]);
    }
    WrittenRow(plan, portals, rows, ids, j, h);
    RealConfigFields(if h < |rows| then rows[h].config else Unreadable);
    OnlyTakenChanges(plan, portals, rows, ids, j, h);
  }

  /** Portal `j` is the one live portal with the production name; it has the official URL and no duplicate binding. */
  ghost predicate OnlyProduction(t: Tables, templateId: string, j: nat) {
    && j < |t.portals| && Contains(t.portals[j].url, OFFICIAL_URL)
    && t.portals[j].live && Trim(t.portals[j].name) == PRODUCTION_NAME
    && (forall i :: 0 <= i < |t.portals| && t.portals[i].live && Trim(t.portals[i].name) == PRODUCTION_NAME ==> i == j)
    && |BindingsFor(t.bindings, t.portals[j].id, templateId)| <= 1
  }

  predicate IsProductDatabase(db: string) {
    Contains(db, PRODUCT_DB) && !Contains(db, TEST_DB)
  }

  predicate IsOwnReceipt(receipt: Receipt) {
    receipt.version == "1.1.5" && receipt.flowId == "rpa_flow_srm_sign_order"
  }

  /** The product database, the receipt of this very flow and version, from the product engine and not a local one. */
  predicate IsAllowed(db: string, receipt: Receipt) {
    && IsProductDatabase(db) && IsOwnReceipt(receipt)
    && receipt.versionId !in LOCAL_VERSION_IDS && receipt.engine == PRODUCT_ENGINE
  }

  /** The guards refuse the database, the receipt, a local version, then the engine. */
  lemma GuardRefusals(t: Tables, db: string, receipt: Receipt, ids: nat -> string)
    ensures BindProduction(t, db, receipt, ids) == Aborted(WrongDatabase) <==> !IsProductDatabase(db)
    ensures BindProduction(t, db, receipt, ids) == Aborted(ReceiptMismatch) <==> IsProductDatabase(db) && !IsOwnReceipt(receipt)
    ensures BindProduction(t, db, receipt, ids) == Aborted(LocalVersion)
       <==> IsProductDatabase(db) && IsOwnReceipt(receipt) && receipt.versionId in LOCAL_VERSION_IDS
    ensures BindProduction(t, db, receipt, ids) == Aborted(WrongEngine)
       <==> IsProductDatabase(db) && IsOwnReceipt(receipt) && receipt.versionId !in LOCAL_VERSION_IDS
            && receipt.engine != PRODUCT_ENGINE
  {
    hide Contains, LiveTemplates, BindingsFor, Trim;
    SeedingReasons(t.templates);
    if SeedTemplate(t.templates).Seeded? {
      LoopReasons(t, SignPlan(SeedTemplate(t.templates).template, receipt), ids);
    }
  }

  lemma SeedingReasons(templates: seq<Template>)
    ensures SeedTemplate(templates).NotSeeded? ==> SeedTemplate(templates).reason in {MultipleRows, NoSampleTemplate, DuplicateKey}
  {
  }

  /** A live portal with the production name that stops the run: not at the official URL, or with two live bindings. */
  ghost predicate IsBadProduction(t: Tables, templateId: string, j: int) {
    && 0 <= j < |t.portals| && t.portals[j].live && Trim(t.portals[j].name) == PRODUCTION_NAME
    && (!Contains(t.portals[j].url, OFFICIAL_URL) || |BindingsFor(t.bindings, t.portals[j].id, templateId)| > 1)
  }

  lemma LoopReasons(t: Tables, plan: Plan, ids: nat -> string)
    requires plan == SignPlan(plan.template, plan.receipt)
    ensures var step := BoundAll(plan, t.portals, t.bindings, ids);
      && (step.Going? <==> forall j :: !IsBadProduction(t, plan.template.id, j))
      && (step.Stopped? ==> step.reason in {UnexpectedUrl, MultipleRows})
      && forall j :: IsBadProduction(t, plan.template.id, j) && (forall i :: 0 <= i < j ==> !IsBadProduction(t, plan.template.id, i))
           ==> step == Stopped(if Contains(t.portals[j].url, OFFICIAL_URL) then MultipleRows else UnexpectedUrl)
  {
    hide Contains, BindingsFor, Trim;
    var n := |t.portals|;
    NoOffenceIff(plan, t.portals, n, t.bindings);
    forall j | 0 <= j < n
      ensures !Acceptable(plan, t.portals[j], t.bindings) <==> IsBadProduction(t, plan.template.id, j)
      ensures IsBadProduction(t, plan.template.id, j)
              ==> StopReason(plan, t.portals[j]) == if Contains(t.portals[j].url, OFFICIAL_URL) then MultipleRows else UnexpectedUrl
    {
      TakenIsProduction(plan.template, plan.receipt, t.portals[j]);
      NoRehearsalMark(t.portals[j]);
    }
    if Offence(plan, t.portals, n, t.bindings).Some? {
      var j := FirstUnacceptable(plan, t.portals, n, t.bindings);
      StopsAtFirst(plan, t.portals, n, t.bindings, j);
      assert IsBadProduction(t, plan.template.id, j);
    }
  }

  lemma NoRehearsalMark(p: Portal)
    ensures Trim(p.name) == PRODUCTION_NAME ==> !Contains(Trim(p.name), REHEARSAL_MARK)
  {
    ProductionIsNoRehearsal();
  }

  /** With the guards passed: no template, the first bad production portal, or not exactly one. */
  lemma ProductionRefusals(t: Tables, db: string, receipt: Receipt, ids: nat -> string)
    requires IsAllowed(db, receipt)
    ensures var seeded, run := SeedTemplate(t.templates), BindProduction(t, db, receipt, ids);
      if seeded.NotSeeded? then run == Aborted(seeded.reason)
      else if exists j :: IsBadProduction(t, seeded.template.id, j) then
        forall j :: IsBadProduction(t, seeded.template.id, j) && (forall i :: 0 <= i < j ==> !IsBadProduction(t, seeded.template.id, i))
          ==> run == Aborted(if Contains(t.portals[j].url, OFFICIAL_URL) then MultipleRows else UnexpectedUrl)
      else run.Committed? || run == Aborted(NotExactlyOne)
  {
    hide Contains, SeedTemplate, BindingsFor, Trim;
    if SeedTemplate(t.templates).Seeded? {
      LoopReasons(t, SignPlan(SeedTemplate(t.templates).template, receipt), ids);
    }
  }

  /** The bind commits exactly when its guards pass, a template can be had, and there is one production portal. */
  lemma CommitsIffOneProduction(t: Tables, db: string, receipt: Receipt, ids: nat -> string)
    requires PortalKeys(t.portals)
    ensures BindProduction(t, db, receipt, ids).Committed?
      <==> IsAllowed(db, receipt) && SeedTemplate(t.templates).Seeded?
           && exists j: nat :: OnlyProduction(t, SeedTemplate(t.templates).template.id, j)
    ensures BindProduction(t, db, receipt, ids).Aborted? ==> After(BindProduction(t, db, receipt, ids), t) == t
  {
    hide SeedTemplate, Contains;
    if IsAllowed(db, receipt) && SeedTemplate(t.templates).Seeded? {
      OneUpdateIff(t, SignPlan(SeedTemplate(t.templates).template, receipt), ids);
    }
  }

  lemma OneUpdateIff(t: Tables, plan: Plan, ids: nat -> string)
    requires PortalKeys(t.portals) && plan == SignPlan(plan.template, plan.receipt)
    ensures var step := BoundAll(plan, t.portals, t.bindings, ids);
      step.Going? && step.updated == 1 <==> exists j: nat :: OnlyProduction(t, plan.template.id, j)
  {
    hide BindingsFor, Contains, Trim, Judge;
    var n := |t.portals|;
    NoOffenceIff(plan, t.portals, n, t.bindings);
    if BoundAll(plan, t.portals, t.bindings, ids).Going? && CountTaken(plan, t.portals, n) == 1 {
      var j, h := ProductionLoop(plan, t.portals, t.bindings, ids);
      TakenIsProduction(plan.template, plan.receipt, t.portals[j]);
      assert Acceptable(plan, t.portals[j], t.bindings);
      assert OnlyProduction(t, plan.template.id, j);
    }
    if j: nat :| OnlyProduction(t, plan.template.id, j) {
      forall i | 0 <= i < n ensures Acceptable(plan, t.portals[i], t.bindings) && (Taken(plan, t.portals[i]) <==> i == j) {
        TakenIsProduction(plan.template, plan.receipt, t.portals[i]);
      }
      OneIsCounted(plan, t.portals, n, j);
    }
  }

  /** With one taken portal, one binding at most changes or appears. */
  lemma OnlyTakenChanges(plan: Plan, portals: seq<Portal>, rows: seq<Binding>, ids: nat -> string, j: nat, h: nat)
    requires PortalKeys(portals) && j < |portals| && Taken(plan, portals[j])
    requires forall i :: 0 <= i < |portals| && Taken(plan, portals[i]) ==> i == j
    requires BindingsFor(BoundRows(plan, portals, rows, ids), portals[j].id, plan.template.id) == [h]
    ensures OnlyRowChanged(rows, BoundRows(plan, portals, rows, ids), h)
  {
    var after := BoundRows(plan, portals, rows, ids);
    BindFrame(plan, portals, rows, ids);
    assert BindingsFor(after, portals[j].id, plan.template.id)[0] == h;
    SingleHit(after, portals[j].id, plan.template.id);
    forall i | 0 <= i < |after| && i != h ensures i < |rows| && after[i] == rows[i] {
      assert !IsFor(after[i], portals[j].id, plan.template.id);
    }
    assert |rows| < |after| ==> h == |rows|;
    assert |rows| + 1 < |after| ==> h == |rows| + 1;
  }

  /** Every row that the check reads for the production portal is the one just written: it never fires. */
  lemma CheckNeverFires(t: Tables, db: string, receipt: Receipt, ids: nat -> string, i: nat)
    requires PortalKeys(t.portals) && TemplateKeys(t.templates)
    requires BindProduction(t, db, receipt, ids).Committed?
    requires var after := BindProduction(t, db, receipt, ids).tables;
             i < |after.bindings| && IsProductionRow(after, after.bindings[i])
    ensures var after := BindProduction(t, db, receipt, ids).tables;
            !StillDryRun(after, after.bindings[i]) && after.bindings[i].flowVersionId == receipt.versionId
  {
    hide BindProduction, SeedTemplate, BindingsFor;
    var after := BindProduction(t, db, receipt, ids).tables;
    var plan := ProductionOutcome(t, db, receipt, ids);
    var j, h := ProductionIsReal(t, db, receipt, ids);
    var b := after.bindings[i];
    TrimOfProduction();
    var p := PortalOf(t.portals, b.portalId).value;
    var k :| 0 <= k < |t.portals| && t.portals[k] == p;
    SeededHasOne(t.templates, b.templateId);
    assert BindingsFor(after.bindings, t.portals[j].id, SeedTemplate(t.templates).template.id)[0] == h;
    SingleHit(after.bindings, t.portals[j].id, SeedTemplate(t.templates).template.id);
  }

  /** When a template can be had, which one, and what is wrong otherwise. */
  lemma SeedingIs(templates: seq<Template>)
    ensures SeedTemplate(templates) == NotSeeded(MultipleRows) <==> |LiveTemplates(templates, TEMPLATE_CODE)| > 1
    ensures SeedTemplate(templates) == NotSeeded(NoSampleTemplate) <==> forall i :: 0 <= i < |templates| ==> !templates[i].live
    ensures SeedTemplate(templates) == NotSeeded(DuplicateKey)
       <==> LiveTemplates(templates, TEMPLATE_CODE) == []
            && (exists i :: 0 <= i < |templates| && templates[i].live)
            && (exists i :: 0 <= i < |templates| && templates[i].id == TEMPLATE_ID)
    ensures |LiveTemplates(templates, TEMPLATE_CODE)| == 1
        ==> SeedTemplate(templates) == Seeded(templates, templates[LiveTemplates(templates, TEMPLATE_CODE)[0]])
    ensures LiveTemplates(templates, TEMPLATE_CODE) == [] && SeedTemplate(templates).Seeded?
        ==> SeedTemplate(templates).templates == templates + [SeedTemplate(templates).template]
            && exists i :: IsFirstLive(templates, i) && IsSeedFrom(SeedTemplate(templates).template, templates[i])
  {
    var hits := LiveTemplates(templates, TEMPLATE_CODE);
    FirstLive(templates);
    if i :| 0 <= i < |templates| && templates[i].id == TEMPLATE_ID {
      assert TemplateOf(templates, TEMPLATE_ID).Some?;
    }
    if TemplateOf(templates, TEMPLATE_ID).Some? {
      var i :| 0 <= i < |templates| && templates[i] == TemplateOf(templates, TEMPLATE_ID).value;
    }
  }

  /** The template put in: the fixed id, code and version, with tenant and creator of the sample. */
  predicate IsSeedFrom(w: Template, sample: Template) {
    w == Template("4540f066-5e1b-4ef6-90f4-31f0efe54bc0", sample.tenant, "srm_sign_order", "1.0.0", sample.createdBy, true)
  }

  ghost predicate IsFirstLive(templates: seq<Template>, i: int) {
    0 <= i < |templates| && templates[i].live && forall k :: 0 <= k < i ==> !templates[k].live
  }

  lemma {:induction false} FirstLive(templates: seq<Template>)
    ensures AnyLive(templates) == None <==> forall i :: 0 <= i < |templates| ==> !templates[i].live
    ensures AnyLive(templates).Some? ==> exists i :: IsFirstLive(templates, i) && AnyLive(templates) == Some(templates[i])
  {
    if templates != [] && !templates[0].live {
      FirstLive(templates[1..]);
      if i :| IsFirstLive(templates[1..], i) && AnyLive(templates[1..]) == Some(templates[1..][i]) {
        assert IsFirstLive(templates, i + 1);
      }
    } else if templates != [] {
      assert IsFirstLive(templates, 0);
    }
  }

  lemma TrimOfProduction()
    ensures Trim(PRODUCTION_NAME) == PRODUCTION_NAME
  {
  }

  lemma SoleTemplate(rows: seq<Template>, k: nat)
    requires k < |rows| && rows[k].live && rows[k].code == TEMPLATE_CODE && |LiveTemplates(rows, TEMPLATE_CODE)| <= 1
    ensures LiveTemplates(rows, TEMPLATE_CODE) == [k]
  {
    assert k in LiveTemplates(rows, TEMPLATE_CODE);
  }

  /** Seeding leaves the table as it is, or appends the template when none has the code. */
  lemma SeededCases(templates: seq<Template>)
    requires SeedTemplate(templates).Seeded?
    ensures var s := SeedTemplate(templates);
      || (LiveTemplates(templates, TEMPLATE_CODE) == [] && s.templates == templates + [s.template]
          && TemplateOf(templates, s.template.id) == None && s.template.live && s.template.code == TEMPLATE_CODE)
      || (|LiveTemplates(templates, TEMPLATE_CODE)| == 1 && s.templates == templates
          && s.template == templates[LiveTemplates(templates, TEMPLATE_CODE)[0]])
  {
  }

  /** After seeding, every live template with the sign code is the seeded one. */
  lemma SeededHasOne(templates: seq<Template>, id: string)
    requires SeedTemplate(templates).Seeded?
    requires var w := TemplateOf(SeedTemplate(templates).templates, id); w.Some? && w.value.live && w.value.code == TEMPLATE_CODE
    ensures id == SeedTemplate(templates).template.id
  {
    var s := SeedTemplate(templates);
    SeededCases(templates);
    var w := TemplateOf(s.templates, id).value;
    var k :| 0 <= k < |s.templates| && s.templates[k] == w;
    if s.templates == templates {
      SoleTemplate(templates, k);
    } else {
      assert k < |templates| ==> k in LiveTemplates(templates, TEMPLATE_CODE);
    }
  }

  /** Rerunning the production bind changes nothing. */
  lemma BindProductionAgain(t: Tables, db: string, receipt: Receipt, ids: nat -> string, again: nat -> string)
    requires PortalKeys(t.portals) && BindProduction(t, db, receipt, ids).Committed?
    ensures BindProduction(BindProduction(t, db, receipt, ids).tables, db, receipt, again) == BindProduction(t, db, receipt, ids)
  {
    var plan := ProductionOutcome(t, db, receipt, ids);
    forall c: Stored ensures RealConfig(RealConfig(c)) == RealConfig(c) {
      RealConfigSettles(c);
    }
    RebindIsNoOp(plan, t.portals, t.bindings, ids, again);
    SeedAgain(t.templates);
  }

  lemma RealConfigSettles(c: Stored)
    ensures RealConfig(RealConfig(c)) == RealConfig(c)
  {
    var once := ConfigFields(RealConfig(c));
    assert (once - {"dryRun"})["portalUrl" := JText(OFFICIAL_URL)]["browserSession" := BROWSER] == once;
  }

  lemma SeedAgain(templates: seq<Template>)
    requires SeedTemplate(templates).Seeded?
    ensures SeedTemplate(SeedTemplate(templates).templates) == SeedTemplate(templates)
  {
    var hits := LiveTemplates(templates, TEMPLATE_CODE);
    if hits == [] {
      var all := SeedTemplate(templates).templates;
      assert all[..|all| - 1] == templates;
    }
  }
}
