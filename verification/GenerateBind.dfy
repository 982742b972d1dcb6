/** Binding production to the statement-generate flow: exactly one binding, or nothing at all. */
module GenerateBind {
  import opened Text
  import opened BindingStore
  import opened OfficialPortal

  const TEMPLATE_CODE := "srm_stmt_generate"
  const FLOW_ID := "rpa_flow_srm_stmt_generate"
  const EXPECTED_VERSION := "1.1.3"
  const LOCAL_VERSION_IDS := {
    "55637e52-a893-4f29-a5c8-89235effbd10",
    "b16ead16-a4ab-4b68-a002-ed3bcd5f3b9b",
    "f562f15b-8855-4330-a36c-6fa8af0f7d5b"}

  function Guard(db: string, receipt: Receipt): Option<Reason> {
    if !Contains(db, PRODUCT_DB) || Contains(db, TEST_DB) then Some(WrongDatabase)
    else if receipt.version != EXPECTED_VERSION || receipt.flowId != FLOW_ID then Some(ReceiptMismatch)
    else if receipt.versionId in LOCAL_VERSION_IDS then Some(LocalVersion)
    else if receipt.engine != PRODUCT_ENGINE then Some(WrongEngine)
    else None
  }

  /** A live binding of a live template with the code, on a live portal whose trimmed name is the production name. */
  predicate IsTarget(t: Tables, b: Binding) {
    var p, w := PortalOf(t.portals, b.portalId), TemplateOf(t.templates, b.templateId);
    && b.live && w.Some? && w.value.live && w.value.code == TEMPLATE_CODE
    && p.Some? && p.value.live && Trim(p.value.name) == PRODUCTION_NAME
  }

  function Targets(t: Tables): set<int> {
    set i | 0 <= i < |t.bindings| && IsTarget(t, t.bindings[i])
  }

  function WithoutDryRun(receipt: Receipt, b: Binding): Binding {
    b.(flowId := receipt.flowId,
       flowVersion := receipt.version,
       flowVersionId := receipt.versionId,
       checksum := receipt.checksum,
       status := "ENABLED",
       config := Document(JObject(ConfigFields(b.config) - {"dryRun"})))
  }

  function EditedAt(rows: seq<Binding>, done: set<int>, receipt: Receipt): (r: seq<Binding>)
    ensures |r| == |rows|
    ensures forall i :: 0 <= i < |rows| ==> r[i] == if i in done then WithoutDryRun(receipt, rows[i]) else rows[i]
  {
    seq(|rows|, i requires 0 <= i < |rows| => if i in done then WithoutDryRun(receipt, rows[i]) else rows[i])
  }

  /** What one run of the script does to the tables. */
  function BindGenerate(t: Tables, db: string, receipt: Receipt): Outcome {
    if Guard(db, receipt).Some? then Aborted(Guard(db, receipt).value)
    else if LiveTemplates(t.templates, TEMPLATE_CODE) == [] then Aborted(TemplateMissing)
    else if |Targets(t)| != 1 then Aborted(NotExactlyOne)
    else Committed(t.(bindings := EditedAt(t.bindings, Targets(t), receipt)))
  }

  /** Rows that the outer loop has handled after `k` of its templates. */
  predicate Handled(t: Tables, hits: seq<int>, k: nat, b: Binding)
    requires k <= |hits| && forall m :: 0 <= m < |hits| ==> 0 <= hits[m] < |t.templates|
  {
    IsTarget(t, b) && exists m :: 0 <= m < k && t.templates[hits[m]].id == b.templateId
  }

  ghost function HandledRows(t: Tables, hits: seq<int>, k: nat): set<int>
    requires k <= |hits| && forall m :: 0 <= m < |hits| ==> 0 <= hits[m] < |t.templates|
  {
    set i | 0 <= i < |t.bindings| && Handled(t, hits, k, t.bindings[i])
  }

  /** The inner loop: all joined bindings of one template. */
  method BindTemplate(t: Tables, hits: seq<int>, k: nat, rows: seq<Binding>, receipt: Receipt)
      returns (work: seq<Binding>, count: nat)
    requires PortalKeys(t.portals) && TemplateKeys(t.templates)
    requires hits == LiveTemplates(t.templates, TEMPLATE_CODE) && k < |hits|
    requires rows == EditedAt(t.bindings, HandledRows(t, hits, k), receipt)
    ensures work == EditedAt(t.bindings, HandledRows(t, hits, k + 1), receipt)
    ensures |HandledRows(t, hits, k + 1)| == |HandledRows(t, hits, k)| + count
  {
    hide IsTarget, LiveTemplates, Contains, Trim, HandledRows, Handled, Done, EditedAt, PortalOf, TemplateOf;
    var template := t.templates[hits[k]];
    TemplateByKey(t.templates, hits[k]);
    work, count := rows, 0;
    NoneDone(t, hits, k);
    for i := 0 to |rows|
      invariant |work| == |rows| == |t.bindings|
      invariant work == EditedAt(t.bindings, Done(t, hits, k, i), receipt)
      invariant |Done(t, hits, k, i)| == |HandledRows(t, hits, k)| + count
    {
      JoinedIsTarget(t, template, t.bindings[i]);
      DoneOneMore(t, hits, k, i);
      var b := work[i];
      var portal := PortalOf(t.portals, b.portalId);
      if b.live && b.templateId == template.id && portal.Some? && portal.value.live {
        var name := Trim(portal.value.name);
        if !Contains(name, REHEARSAL_MARK) && name == PRODUCTION_NAME {
          OneMoreEdit(t.bindings, Done(t, hits, k, i), i, receipt);
          work := work[i := WithoutDryRun(receipt, b)];
          count := count + 1;
        }
      }
    }
    HandledOneMore(t, hits, k);
  }

  /** Targets of one template among the first `n` rows. */
  ghost function PartRows(t: Tables, templateId: string, n: nat): set<int>
    requires n <= |t.bindings|
  {
    set i | 0 <= i < n && IsTarget(t, t.bindings[i]) && t.bindings[i].templateId == templateId
  }

  /** The rows edited after `k` templates and the first `n` rows of the next. */
  ghost function Done(t: Tables, hits: seq<int>, k: nat, n: nat): set<int>
    requires k < |hits| && (forall m :: 0 <= m < |hits| ==> 0 <= hits[m] < |t.templates|) && n <= |t.bindings|
  {
    HandledRows(t, hits, k) + PartRows(t, t.templates[hits[k]].id, n)
  }

  lemma NoneDone(t: Tables, hits: seq<int>, k: nat)
    requires hits == LiveTemplates(t.templates, TEMPLATE_CODE) && k < |hits|
    ensures Done(t, hits, k, 0) == HandledRows(t, hits, k)
  {
  }

  lemma DoneOneMore(t: Tables, hits: seq<int>, k: nat, n: nat)
    requires TemplateKeys(t.templates) && hits == LiveTemplates(t.templates, TEMPLATE_CODE) && k < |hits|
    requires n < |t.bindings|
    ensures var b := t.bindings[n];
      if IsTarget(t, b) && b.templateId == t.templates[hits[k]].id
      then n !in Done(t, hits, k, n) && Done(t, hits, k, n + 1) == Done(t, hits, k, n) + {n}
      else Done(t, hits, k, n + 1) == Done(t, hits, k, n)
  {
    hide LiveTemplates, Handled, IsTarget;
    var b, id := t.bindings[n], t.templates[hits[k]].id;
    NotYetHandled(t, hits, k, b);
    if IsTarget(t, b) && b.templateId == id {
      assert PartRows(t, id, n + 1) == PartRows(t, id, n) + {n};
    } else {
      assert PartRows(t, id, n + 1) == PartRows(t, id, n);
    }
  }

  lemma HandledOneMore(t: Tables, hits: seq<int>, k: nat)
    requires hits == LiveTemplates(t.templates, TEMPLATE_CODE) && k < |hits|
    ensures HandledRows(t, hits, k + 1) == Done(t, hits, k, |t.bindings|)
  {
    OneMoreTemplate(t, hits, k);
  }

  method BindGenerateFlow(database: Database, db: string, receipt: Receipt) returns (stopped: Option<Reason>)
    requires PortalKeys(database.portals) && TemplateKeys(database.templates)
    modifies database
    ensures var outcome := BindGenerate(old(database.Contents()), db, receipt);
      && database.Contents() == After(outcome, old(database.Contents()))
      && stopped == if outcome.Aborted? then Some(outcome.reason) else None
  {
    hide LiveTemplates, HandledRows, IsTarget;
    stopped := Guard(db, receipt);
    if stopped.Some? {
      return;
    }
    var t := database.Contents();
    var hits := LiveTemplates(t.templates, TEMPLATE_CODE);
    if hits == [] {
      return Some(TemplateMissing);
    }
    var work, updated := t.bindings, 0;
    NoneHandledRows(t, hits, receipt);
    for k := 0 to |hits|
      invariant work == EditedAt(t.bindings, HandledRows(t, hits, k), receipt)
      invariant updated == |HandledRows(t, hits, k)|
      invariant database.Contents() == t
    {
      var count;
      work, count := BindTemplate(t, hits, k, work, receipt);
      updated := updated + count;
    }
    AllHandledRows(t);
    if updated != 1 {
      return Some(NotExactlyOne);
    }
    database.bindings := work;
    return None;
  }

  /** Template ids are keys, so no later template meets a row again. */
  lemma NotYetHandled(t: Tables, hits: seq<int>, k: nat, b: Binding)
    requires TemplateKeys(t.templates) && hits == LiveTemplates(t.templates, TEMPLATE_CODE) && k < |hits|
    ensures b.templateId == t.templates[hits[k]].id ==> !Handled(t, hits, k, b)
  {
  }

  /** The guards of the inner loop say that the row is a target of this template. */
  lemma JoinedIsTarget(t: Tables, template: Template, b: Binding)
    requires template.live && template.code == TEMPLATE_CODE && TemplateOf(t.templates, template.id) == Some(template)
    ensures var p := PortalOf(t.portals, b.portalId);
      b.live && b.templateId == template.id && p.Some? && p.value.live
      && !Contains(Trim(p.value.name), REHEARSAL_MARK) && Trim(p.value.name) == PRODUCTION_NAME
      <==> IsTarget(t, b) && b.templateId == template.id
  {
    ProductionIsNoRehearsal();
  }

  lemma OneMoreEdit(rows: seq<Binding>, done: set<int>, i: nat, receipt: Receipt)
    requires i < |rows| && i !in done
    ensures EditedAt(rows, done, receipt)[i] == rows[i]
    ensures EditedAt(rows, done, receipt)[i := WithoutDryRun(receipt, rows[i])] == EditedAt(rows, done + {i}, receipt)
  {
  }

  lemma OneMoreTemplate(t: Tables, hits: seq<int>, k: nat)
    requires hits == LiveTemplates(t.templates, TEMPLATE_CODE) && k < |hits|
    ensures forall b :: Handled(t, hits, k + 1, b)
                   <==> Handled(t, hits, k, b) || (IsTarget(t, b) && b.templateId == t.templates[hits[k]].id)
  {
    assert t.templates[hits[k]].id == t.templates[hits[k]].id;
  }

  lemma AllHandled(t: Tables)
    ensures var hits := LiveTemplates(t.templates, TEMPLATE_CODE);
            forall b :: Handled(t, hits, |hits|, b) <==> IsTarget(t, b)
  {
    var hits := LiveTemplates(t.templates, TEMPLATE_CODE);
    forall b | IsTarget(t, b) ensures Handled(t, hits, |hits|, b) {
      var w := TemplateOf(t.templates, b.templateId).value;
      var i :| 0 <= i < |t.templates| && t.templates[i] == w;
      assert i in hits;
    }
  }

  lemma AllHandledRows(t: Tables)
    ensures var hits := LiveTemplates(t.templates, TEMPLATE_CODE); HandledRows(t, hits, |hits|) == Targets(t)
  {
    AllHandled(t);
  }

  lemma NoneHandledRows(t: Tables, hits: seq<int>, receipt: Receipt)
    requires forall m :: 0 <= m < |hits| ==> 0 <= hits[m] < |t.templates|
    ensures HandledRows(t, hits, 0) == {} && EditedAt(t.bindings, HandledRows(t, hits, 0), receipt) == t.bindings
  {
    assert HandledRows(t, hits, 0) == {};
  }

  // ---------------------------------------------------------------- properties

  ghost predicate ExactlyOneTarget(t: Tables, h: nat) {
    && h < |t.bindings| && IsTarget(t, t.bindings[h])
    && forall i :: 0 <= i < |t.bindings| && IsTarget(t, t.bindings[i]) ==> i == h
  }

  /** A target as the join of the script finds it. */
  lemma TargetIff(t: Tables, b: Binding)
    requires PortalKeys(t.portals) && TemplateKeys(t.templates)
    ensures IsTarget(t, b) <==>
      && b.live
      && (exists p :: 0 <= p < |t.portals| && t.portals[p].live && t.portals[p].id == b.portalId
                      && Trim(t.portals[p].name) == PRODUCTION_NAME)
      && (exists w :: 0 <= w < |t.templates| && t.templates[w].live && t.templates[w].id == b.templateId
                      && t.templates[w].code == "srm_stmt_generate")
  {
    hide Trim;
    if p :| 0 <= p < |t.portals| && t.portals[p].live && t.portals[p].id == b.portalId && Trim(t.portals[p].name) == PRODUCTION_NAME {
      PortalByKey(t.portals, p);
    }
    if w :| 0 <= w < |t.templates| && t.templates[w].live && t.templates[w].id == b.templateId && t.templates[w].code == TEMPLATE_CODE {
      TemplateByKey(t.templates, w);
    }
  }

  predicate IsProductDatabase(db: string) {
    Contains(db, PRODUCT_DB) && !Contains(db, TEST_DB)
  }

  predicate IsOwnReceipt(receipt: Receipt) {
    receipt.version == "1.1.3" && receipt.flowId == "rpa_flow_srm_stmt_generate"
  }

  /** The product database, the receipt of this very flow and version, from the product engine and not a local one. */
  predicate IsAllowed(db: string, receipt: Receipt) {
    && IsProductDatabase(db) && IsOwnReceipt(receipt)
    && receipt.versionId !in LOCAL_VERSION_IDS && receipt.engine == PRODUCT_ENGINE
  }

  /** Which refusal comes out: the database, the receipt, a local version, the engine, the template, the count. */
  lemma GenerateRefusals(t: Tables, db: string, receipt: Receipt)
    ensures BindGenerate(t, db, receipt) == Aborted(WrongDatabase) <==> !IsProductDatabase(db)
    ensures BindGenerate(t, db, receipt) == Aborted(ReceiptMismatch) <==> IsProductDatabase(db) && !IsOwnReceipt(receipt)
    ensures BindGenerate(t, db, receipt) == Aborted(LocalVersion)
       <==> IsProductDatabase(db) && IsOwnReceipt(receipt) && receipt.versionId in LOCAL_VERSION_IDS
    ensures BindGenerate(t, db, receipt) == Aborted(WrongEngine)
       <==> IsProductDatabase(db) && IsOwnReceipt(receipt) && receipt.versionId !in LOCAL_VERSION_IDS
            && receipt.engine != PRODUCT_ENGINE
    ensures BindGenerate(t, db, receipt) == Aborted(TemplateMissing)
       <==> IsAllowed(db, receipt) && LiveTemplates(t.templates, TEMPLATE_CODE) == []
    ensures BindGenerate(t, db, receipt) == Aborted(NotExactlyOne)
       <==> IsAllowed(db, receipt) && LiveTemplates(t.templates, TEMPLATE_CODE) != [] && !exists h: nat :: ExactlyOneTarget(t, h)
  {
    hide Contains, Targets, LiveTemplates, ExactlyOneTarget;
    CommitsIffOneTarget(t, db, receipt);
  }

  /** It commits exactly when the guards pass and one binding is the target; otherwise nothing changes. */
  lemma CommitsIffOneTarget(t: Tables, db: string, receipt: Receipt)
    ensures BindGenerate(t, db, receipt).Committed? <==> IsAllowed(db, receipt) && exists h: nat :: ExactlyOneTarget(t, h)
    ensures BindGenerate(t, db, receipt).Aborted? ==> After(BindGenerate(t, db, receipt), t) == t
  {
    hide IsTarget, LiveTemplates, Contains;
    if |Targets(t)| == 1 {
      var h :| h in Targets(t);
      assert |Targets(t) - {h}| == 0;
      assert forall i :: 0 <= i < |t.bindings| && IsTarget(t, t.bindings[i]) ==> i in Targets(t) && i !in Targets(t) - {h};
      assert ExactlyOneTarget(t, h);
    }
    if Guard(db, receipt) == None && exists h: nat :: ExactlyOneTarget(t, h) {
      var h: nat :| ExactlyOneTarget(t, h);
      assert Targets(t) == {h};
      AllHandled(t);
      assert Handled(t, LiveTemplates(t.templates, TEMPLATE_CODE), |LiveTemplates(t.templates, TEMPLATE_CODE)|, t.bindings[h]);
    }
  }

  /** Only the target changes, it takes the receipt, and an object config loses `dryRun` and nothing else. */
  lemma OnlyTargetChanges(t: Tables, db: string, receipt: Receipt, h: nat)
    requires BindGenerate(t, db, receipt).Committed? && ExactlyOneTarget(t, h)
    ensures var after := BindGenerate(t, db, receipt).tables;
      && after == t.(bindings := t.bindings[h := after.bindings[h]])
      && after.bindings[h].(config := t.bindings[h].config)
         == t.bindings[h].(flowId := FLOW_ID, flowVersion := EXPECTED_VERSION, flowVersionId := receipt.versionId,
                           checksum := receipt.checksum, status := "ENABLED")
      && (forall key :: key in ConfigFields(after.bindings[h].config)
                   <==> key != "dryRun" && key in ConfigFields(t.bindings[h].config))
      && (forall key :: key in ConfigFields(after.bindings[h].config)
                   ==> ConfigFields(after.bindings[h].config)[key] == ConfigFields(t.bindings[h].config)[key])
  {
    hide LiveTemplates, IsTarget, Contains;
    assert Targets(t) == {h};
  }

  lemma EditedTwice(rows: seq<Binding>, done: set<int>, receipt: Receipt)
    ensures EditedAt(EditedAt(rows, done, receipt), done, receipt) == EditedAt(rows, done, receipt)
  {
    var once := EditedAt(rows, done, receipt);
    forall i | 0 <= i < |rows| && i in done ensures WithoutDryRun(receipt, once[i]) == once[i] {
      var fields := ConfigFields(rows[i].config);
      assert (fields - {"dryRun"}) - {"dryRun"} == fields - {"dryRun"};
    }
  }

  lemma SameTargets(t: Tables, done: set<int>, receipt: Receipt)
    ensures Targets(t.(bindings := EditedAt(t.bindings, done, receipt))) == Targets(t)
  {
    hide PortalOf, TemplateOf, Trim;
    var u := t.(bindings := EditedAt(t.bindings, done, receipt));
    assert forall i :: 0 <= i < |t.bindings| ==> (IsTarget(u, u.bindings[i]) <==> IsTarget(t, t.bindings[i]));
  }

  /** Rerunning it changes nothing. */
  lemma BindGenerateAgain(t: Tables, db: string, receipt: Receipt)
    requires BindGenerate(t, db, receipt).Committed?
    ensures BindGenerate(BindGenerate(t, db, receipt).tables, db, receipt) == BindGenerate(t, db, receipt)
  {
    hide LiveTemplates, Targets, EditedAt, Guard;
    SameTargets(t, Targets(t), receipt);
    EditedTwice(t.bindings, Targets(t), receipt);
  }
}
