/** Any sequence of the binding scripts on one database: what every run keeps. */
module BindingRuns {
  import opened Text
  import opened BindingStore
  import opened BindingLaws
  import opened OfficialPortal
  import RehearsalSign
  import ProductSign
  import GenerateBind
  import DemoSwitch
  import PrepareBind

  datatype Action =
    | Rehearsal(db: string, receipt: Receipt, ids: nat -> string)
    | Production(db: string, receipt: Receipt, ids: nat -> string)
    | Generate(db: string, receipt: Receipt)
    | SwitchDemo(published: map<string, Receipt>)
    | PrepareOrder(receipt: Receipt, id: string)

  /** What the database holds after one script, committed or not. */
  function Act(t: Tables, a: Action, fold: string -> string): Tables {
    match a
    case Rehearsal(db, receipt, ids) => After(RehearsalSign.Rehearse(t, db, receipt, fold, ids), t)
    case Production(db, receipt, ids) => After(ProductSign.BindProduction(t, db, receipt, ids), t)
    case Generate(db, receipt) => After(GenerateBind.BindGenerate(t, db, receipt), t)
    case SwitchDemo(published) => DemoSwitch.Switch(t, published)
    case PrepareOrder(receipt, id) => After(PrepareBind.Prepare(t, receipt, id), t)
  }

  function Run(t: Tables, actions: seq<Action>, fold: string -> string): Tables {
    if actions == [] then t
    else Act(Run(t, actions[..|actions| - 1], fold), actions[|actions| - 1], fold)
  }

  ghost predicate HasRows(t: Tables, b: Binding) {
    PortalOf(t.portals, b.portalId).Some? && TemplateOf(t.templates, b.templateId).Some?
  }

  /** Primary keys, no dangling binding, and at most one live binding per (portal, template) pair. */
  ghost predicate Valid(t: Tables) {
    && PortalKeys(t.portals) && TemplateKeys(t.templates) && OneLiveEach(t.bindings)
    && forall i :: 0 <= i < |t.bindings| ==> HasRows(t, t.bindings[i])
  }

  // ---------------------------------------------------------------- who writes what

  ghost predicate OfTemplate(t: Tables, b: Binding, code: string) {
    var w := TemplateOf(t.templates, b.templateId);
    w.Some? && w.value.code == code
  }

  predicate IsOfficial(p: Portal) {
    Contains(p.url, OFFICIAL_URL) || Trim(p.name) == PRODUCTION_NAME
  }

  /** The portal, the template and the config of a row that a script has written. */
  ghost predicate Wrote(t: Tables, a: Action, fold: string -> string, b: Binding) {
    var p := PortalOf(t.portals, b.portalId);
    && p.Some?
    && match a
       case Rehearsal(_, _, _) =>
         && RehearsalSign.IsRehearsalOfficial(p.value) && OfTemplate(t, b, RehearsalSign.TEMPLATE_CODE)
         && b.config == RehearsalSign.DRY_RUN_CONFIG
       case Production(_, _, _) =>
         && Trim(p.value.name) == PRODUCTION_NAME && OfTemplate(t, b, ProductSign.TEMPLATE_CODE)
         && "dryRun" !in ConfigFields(b.config)
       case Generate(_, _) =>
         && Trim(p.value.name) == PRODUCTION_NAME && OfTemplate(t, b, GenerateBind.TEMPLATE_CODE)
       case SwitchDemo(_) => !Contains(p.value.url, OFFICIAL_URL)
       case PrepareOrder(_, _) =>
         && Contains(p.value.url, OFFICIAL_URL) && OfTemplate(t, b, PrepareBind.TEMPLATE_CODE)
  }

  /** Portals never change, rows are only appended, and a changed or new row is one the script writes. */
  ghost predicate Framed(t: Tables, u: Tables, a: Action, fold: string -> string) {
    && u.portals == t.portals && t.templates <= u.templates
    && |t.bindings| <= |u.bindings|
    && (forall i :: 0 <= i < |t.bindings| ==>
          u.bindings[i].portalId == t.bindings[i].portalId && u.bindings[i].templateId == t.bindings[i].templateId)
    && (forall i :: 0 <= i < |u.bindings| && !(i < |t.bindings| && u.bindings[i] == t.bindings[i])
          ==> Wrote(u, a, fold, u.bindings[i]))
  }

  lemma RehearsalFramed(t: Tables, a: Action, fold: string -> string)
    requires Valid(t) && a.Rehearsal?
    ensures Valid(Act(t, a, fold)) && Framed(t, Act(t, a, fold), a, fold)
  {
    hide RehearsalSign.Rehearse, BoundAll, Contains, Trim;
    if RehearsalSign.Rehearse(t, a.db, a.receipt, fold, a.ids).Committed? {
      var plan := RehearsalSign.RehearsalOutcome(t, a.db, a.receipt, fold, a.ids);
      BoundFramed(t, plan, a.ids);
      var u := Act(t, a, fold);
      forall i | 0 <= i < |u.bindings| && !(i < |t.bindings| && u.bindings[i] == t.bindings[i])
        ensures Wrote(u, a, fold, u.bindings[i])
      {
        assert LoopRow(plan, t.portals, t.bindings, u.bindings, i);
        RehearsalSign.TakenIsRehearsal(t.portals, plan.template, a.receipt, fold, u.bindings[i].portalId);
      }
    }
  }

  /** A row of the shared loop: kept, or on a taken portal, of the plan's template, with a config of the plan. */
  ghost predicate LoopRow(plan: Plan, portals: seq<Portal>, rows: seq<Binding>, after: seq<Binding>, i: nat)
    requires i < |after|
  {
    || (i < |rows| && after[i] == rows[i])
    || (after[i].templateId == plan.template.id && TakenId(plan, portals, after[i].portalId)
        && exists was: Stored :: after[i].config == plan.config(was))
  }

  lemma LoopRows(plan: Plan, portals: seq<Portal>, rows: seq<Binding>, ids: nat -> string)
    ensures var after := BoundRows(plan, portals, rows, ids);
      forall i :: 0 <= i < |after| ==> LoopRow(plan, portals, rows, after, i)
  {
    var after := BoundRows(plan, portals, rows, ids);
    BindFrame(plan, portals, rows, ids);
    forall i | 0 <= i < |after| ensures LoopRow(plan, portals, rows, after, i) {
      if i >= |rows| {
        var j := AppendedFor(plan, portals, rows, ids, i);
        assert after[i].config == plan.config(Unreadable);
      } else if after[i] != rows[i] {
        assert after[i].config == plan.config(rows[i].config);
      }
    }
  }

  lemma BoundFramed(t: Tables, plan: Plan, ids: nat -> string)
    requires Valid(t) && plan.template in t.templates
    ensures var after := BoundRows(plan, t.portals, t.bindings, ids);
      && Valid(t.(bindings := after)) && |t.bindings| <= |after|
      && (forall i :: 0 <= i < |after| ==> LoopRow(plan, t.portals, t.bindings, after, i))
      && (forall i :: 0 <= i < |t.bindings| ==>
            after[i].portalId == t.bindings[i].portalId && after[i].templateId == t.bindings[i].templateId)
      && TemplateOf(t.templates, plan.template.id) == Some(plan.template)
  {
    var after := BoundRows(plan, t.portals, t.bindings, ids);
    BindFrame(plan, t.portals, t.bindings, ids);
    BindKeepsOneLive(plan, t.portals, t.bindings, ids);
    LoopRows(plan, t.portals, t.bindings, ids);
    var k :| 0 <= k < |t.templates| && t.templates[k] == plan.template;
    TemplateByKey(t.templates, k);
    forall i | 0 <= i < |after| ensures HasRows(t, after[i]) {
      if i >= |t.bindings| {
        TakenIsFound(plan, t.portals, after[i].portalId);
      } else {
        assert HasRows(t, t.bindings[i]);
      }
    }
  }

  lemma TakenIsFound(plan: Plan, portals: seq<Portal>, id: string)
    requires PortalKeys(portals) && TakenId(plan, portals, id)
    ensures PortalOf(portals, id).Some? && Taken(plan, PortalOf(portals, id).value)
  {
    var j :| 0 <= j < |portals| && Taken(plan, portals[j]) && portals[j].id == id;
    PortalByKey(portals, j);
  }

  lemma {:induction false} TemplateLookupGrows(a: seq<Template>, b: seq<Template>, id: string)
    requires a <= b && TemplateOf(a, id).Some?
    ensures TemplateOf(b, id) == TemplateOf(a, id)
  {
    if a[0].id != id {
      assert a[1..] <= b[1..];
      TemplateLookupGrows(a[1..], b[1..], id);
    }
  }

  lemma AppendedTemplate(t: Tables, w: Template)
    requires Valid(t) && TemplateOf(t.templates, w.id) == None
    ensures Valid(t.(templates := t.templates + [w]))
  {
    forall i | 0 <= i < |t.bindings| ensures TemplateOf(t.templates + [w], t.bindings[i].templateId).Some? {
      assert HasRows(t, t.bindings[i]);
      TemplateLookupGrows(t.templates, t.templates + [w], t.bindings[i].templateId);
    }
  }

  lemma SeededTables(t: Tables)
    requires Valid(t) && ProductSign.SeedTemplate(t.templates).Seeded?
    ensures var s := ProductSign.SeedTemplate(t.templates);
      && t.templates <= s.templates && s.template in s.templates && s.template.code == ProductSign.TEMPLATE_CODE
      && Valid(t.(templates := s.templates))
  {
    var s := ProductSign.SeedTemplate(t.templates);
    ProductSign.SeededCases(t.templates);
    if s.templates != t.templates {
      assert s.templates[|t.templates|] == s.template;
      AppendedTemplate(t, s.template);
    }
  }

  lemma ProductionFramed(t: Tables, a: Action, fold: string -> string)
    requires Valid(t) && a.Production?
    ensures Valid(Act(t, a, fold)) && Framed(t, Act(t, a, fold), a, fold)
  {
    hide ProductSign.BindProduction, ProductSign.SeedTemplate, BoundAll, Valid;
    if ProductSign.BindProduction(t, a.db, a.receipt, a.ids).Committed? {
      var plan := ProductSign.ProductionOutcome(t, a.db, a.receipt, a.ids);
      SeededTables(t);
      ProductionLoopFramed(t, ProductSign.SeedTemplate(t.templates).templates, a, fold, plan);
    }
  }

  lemma ProductionLoopFramed(t: Tables, templates: seq<Template>, a: Action, fold: string -> string, plan: Plan)
    requires a.Production? && Valid(t.(templates := templates)) && t.templates <= templates
    requires plan.template in templates && plan.template.code == ProductSign.TEMPLATE_CODE
    requires plan == ProductSign.SignPlan(plan.template, plan.receipt)
    ensures var u := t.(templates := templates, bindings := BoundRows(plan, t.portals, t.bindings, a.ids));
            Valid(u) && Framed(t, u, a, fold)
  {
    hide Valid, Contains, Trim, BoundRows, Taken;
    var s := t.(templates := templates);
    BoundFramed(s, plan, a.ids);
    var u := s.(bindings := BoundRows(plan, t.portals, t.bindings, a.ids));
    forall i | 0 <= i < |u.bindings| && !(i < |t.bindings| && u.bindings[i] == t.bindings[i])
      ensures Wrote(u, a, fold, u.bindings[i])
    {
      assert LoopRow(plan, t.portals, t.bindings, u.bindings, i);
      assert PortalKeys(t.portals) by { PortalKeysOf(s); }
      TakenIsFound(plan, t.portals, u.bindings[i].portalId);
      ProductSign.TakenIsProduction(plan.template, plan.receipt, PortalOf(t.portals, u.bindings[i].portalId).value);
    }
  }

  lemma PortalKeysOf(t: Tables)
    requires Valid(t)
    ensures PortalKeys(t.portals)
  {
  }

  /** Rows that keep their keys keep the tables valid. */
  lemma KeysKeepValid(t: Tables, rows: seq<Binding>)
    requires Valid(t) && |rows| == |t.bindings|
    requires forall i :: 0 <= i < |rows| ==>
      rows[i].live == t.bindings[i].live && rows[i].portalId == t.bindings[i].portalId && rows[i].templateId == t.bindings[i].templateId
    ensures Valid(t.(bindings := rows))
  {
    forall i | 0 <= i < |rows| ensures HasRows(t, rows[i]) {
      assert HasRows(t, t.bindings[i]);
    }
  }

  lemma GenerateFramed(t: Tables, a: Action, fold: string -> string)
    requires Valid(t) && a.Generate?
    ensures Valid(Act(t, a, fold)) && Framed(t, Act(t, a, fold), a, fold)
  {
    hide Valid, Wrote, GenerateBind.IsTarget, LiveTemplates, PortalOf, TemplateOf;
    var u := Act(t, a, fold);
    KeysKeepValid(t, u.bindings);
    forall i | 0 <= i < |u.bindings| && u.bindings[i] != t.bindings[i] ensures Wrote(u, a, fold, u.bindings[i]) {
      GenerateWrote(t, u, a, fold, t.bindings[i]);
    }
  }

  lemma GenerateWrote(t: Tables, u: Tables, a: Action, fold: string -> string, b: Binding)
    requires a.Generate? && GenerateBind.IsTarget(t, b) && u.portals == t.portals && u.templates == t.templates
    ensures Wrote(u, a, fold, GenerateBind.WithoutDryRun(a.receipt, b))
  {
    hide PortalOf, TemplateOf, Trim, Contains;
  }

  lemma SwitchFramed(t: Tables, a: Action, fold: string -> string)
    requires Valid(t) && a.SwitchDemo?
    ensures Valid(Act(t, a, fold)) && Framed(t, Act(t, a, fold), a, fold)
  {
    forall i | 0 <= i < |t.bindings|
      ensures var b, c := t.bindings[i], Act(t, a, fold).bindings[i];
        c.live == b.live && c.portalId == b.portalId && c.templateId == b.templateId
        && (c != b ==> Wrote(t, a, fold, c))
    {
      DemoSwitch.SwitchFrame(t.portals, t.templates, a.published, t.bindings[i]);
    }
    KeysKeepValid(t, Act(t, a, fold).bindings);
  }

  lemma PrepareFramed(t: Tables, a: Action, fold: string -> string)
    requires Valid(t) && a.PrepareOrder?
    ensures Valid(Act(t, a, fold)) && Framed(t, Act(t, a, fold), a, fold)
  {
    hide PrepareBind.Prepare, PrepareBind.SetUp, BoundAll, BindingsFor;
    if PrepareBind.Prepare(t, a.receipt, a.id).Committed? {
      var plan, official := PrepareBind.PreparedOutcome(t, a.receipt, a.id);
      var u := Act(t, a, fold);
      PrepareLoopFramed(t, u, a, fold, plan, official, PrepareBind.SameId(a.id));
    }
  }

  lemma PrepareLoopFramed(t: Tables, u: Tables, a: Action, fold: string -> string, plan: Plan, official: Portal, ids: nat -> string)
    requires Valid(t) && a.PrepareOrder? && official in t.portals && plan.template in t.templates
    requires Contains(official.url, OFFICIAL_URL) && plan.template.code == PrepareBind.TEMPLATE_CODE
    requires u == t.(bindings := BoundRows(plan, [official], t.bindings, ids), jobs := u.jobs)
    ensures Valid(u) && Framed(t, u, a, fold)
  {
    PrepareValid(t, plan, official, ids);
    forall i | 0 <= i < |u.bindings| && !(i < |t.bindings| && u.bindings[i] == t.bindings[i])
      ensures Wrote(u, a, fold, u.bindings[i])
    {
      assert LoopRow(plan, [official], t.bindings, u.bindings, i);
      assert u.bindings[i].portalId == official.id;
    }
  }

  lemma PrepareValid(t: Tables, plan: Plan, official: Portal, ids: nat -> string)
    requires Valid(t) && official in t.portals && plan.template in t.templates
    ensures var after := BoundRows(plan, [official], t.bindings, ids);
      && Valid(t.(bindings := after)) && |t.bindings| <= |after|
      && (forall i :: 0 <= i < |after| ==> LoopRow(plan, [official], t.bindings, after, i))
      && (forall i :: 0 <= i < |t.bindings| ==>
            after[i].portalId == t.bindings[i].portalId && after[i].templateId == t.bindings[i].templateId)
      && TemplateOf(t.templates, plan.template.id) == Some(plan.template)
      && PortalOf(t.portals, official.id) == Some(official)
  {
    hide BoundRows, Taken, PortalOf, TemplateOf;
    var after := BoundRows(plan, [official], t.bindings, ids);
    BindFrame(plan, [official], t.bindings, ids);
    BindKeepsOneLive(plan, [official], t.bindings, ids);
    LoopRows(plan, [official], t.bindings, ids);
    var k :| 0 <= k < |t.templates| && t.templates[k] == plan.template;
    TemplateByKey(t.templates, k);
    var p :| 0 <= p < |t.portals| && t.portals[p] == official;
    PortalByKey(t.portals, p);
    forall i | 0 <= i < |after| ensures HasRows(t, after[i]) {
      if i < |t.bindings| {
        assert HasRows(t, t.bindings[i]);
      }
    }
  }

  lemma ActFramed(t: Tables, a: Action, fold: string -> string)
    requires Valid(t)
    ensures Valid(Act(t, a, fold)) && Framed(t, Act(t, a, fold), a, fold)
  {
    match a
    case Rehearsal(_, _, _) => RehearsalFramed(t, a, fold);
    case Production(_, _, _) => ProductionFramed(t, a, fold);
    case Generate(_, _) => GenerateFramed(t, a, fold);
    case SwitchDemo(_) => SwitchFramed(t, a, fold);
    case PrepareOrder(_, _) => PrepareFramed(t, a, fold);
  }

  // ---------------------------------------------------------------- over every run

  lemma ActKeepsOneLive(t: Tables, a: Action, fold: string -> string)
    requires PortalKeys(t.portals) && OneLiveEach(t.bindings)
    ensures Act(t, a, fold).portals == t.portals && OneLiveEach(Act(t, a, fold).bindings)
  {
    hide OneLiveEach, BoundAll, BindingsFor, LiveTemplates, RehearsalSign.Rehearse, ProductSign.BindProduction,
         PrepareBind.Prepare, PrepareBind.SetUp, GenerateBind.Targets;
    match a
    case Rehearsal(db, receipt, ids) =>
      if RehearsalSign.Rehearse(t, db, receipt, fold, ids).Committed? {
        var plan := RehearsalSign.RehearsalOutcome(t, db, receipt, fold, ids);
        BindKeepsOneLive(plan, t.portals, t.bindings, ids);
      }
    case Production(db, receipt, ids) =>
      if ProductSign.BindProduction(t, db, receipt, ids).Committed? {
        var plan := ProductSign.ProductionOutcome(t, db, receipt, ids);
        BindKeepsOneLive(plan, t.portals, t.bindings, ids);
      }
    case Generate(db, receipt) =>
      KeysKeepOneLive(t.bindings, Act(t, a, fold).bindings);
    case SwitchDemo(published) =>
      KeysKeepOneLive(t.bindings, Act(t, a, fold).bindings);
    case PrepareOrder(receipt, id) =>
      if PrepareBind.Prepare(t, receipt, id).Committed? {
        var plan, official := PrepareBind.PreparedOutcome(t, receipt, id);
        BindKeepsOneLive(plan, [official], t.bindings, PrepareBind.SameId(id));
      }
  }

  /**
   * Every run of the scripts keeps at most one live binding per (portal, template) pair. Only the keys of the
   * portals and the uniqueness at the start are needed; bindings may dangle.
   */
  lemma {:induction false} RunKeepsOneLive(t: Tables, actions: seq<Action>, fold: string -> string)
    requires PortalKeys(t.portals) && OneLiveEach(t.bindings)
    ensures Run(t, actions, fold).portals == t.portals && OneLiveEach(Run(t, actions, fold).bindings)
  {
    if actions != [] {
      var n := |actions| - 1;
      RunKeepsOneLive(t, actions[..n], fold);
      ActKeepsOneLive(Run(t, actions[..n], fold), actions[n], fold);
    }
  }

  /** So at no moment of a run does a binding lookup find two rows, and no bind loop stops for that. */
  lemma RunLookupsFindOne(t: Tables, actions: seq<Action>, fold: string -> string, portalId: string, templateId: string,
                          template: Template, receipt: Receipt, official: Portal, fields: map<string, Json>, ids: nat -> string)
    requires PortalKeys(t.portals) && OneLiveEach(t.bindings)
    ensures var u := Run(t, actions, fold);
      && |BindingsFor(u.bindings, portalId, templateId)| <= 1
      && BoundAll(RehearsalSign.SignPlan(template, receipt, fold), u.portals, u.bindings, ids) != Stopped(MultipleRows)
      && BoundAll(ProductSign.SignPlan(template, receipt), u.portals, u.bindings, ids) != Stopped(MultipleRows)
      && BoundAll(PrepareBind.PreparePlan(template, receipt, fields), [official], u.bindings, ids) != Stopped(MultipleRows)
  {
    hide Run, OneLiveEach, BindingsFor, Contains, Trim;
    var u := Run(t, actions, fold);
    RunKeepsOneLive(t, actions, fold);
    OneLiveLookup(u.bindings, portalId, templateId);
    NoTwoRows(RehearsalSign.SignPlan(template, receipt, fold), u.portals, |u.portals|, u.bindings);
    NoTwoRows(ProductSign.SignPlan(template, receipt), u.portals, |u.portals|, u.bindings);
    NoTwoRows(PrepareBind.PreparePlan(template, receipt, fields), [official], 1, u.bindings);
  }

  /** Every run keeps the tables valid, the portals as they are and the templates and bindings in place. */
  lemma {:induction false} RunStaysValid(t: Tables, actions: seq<Action>, fold: string -> string)
    requires Valid(t)
    ensures Valid(Run(t, actions, fold)) && Run(t, actions, fold).portals == t.portals
    ensures t.templates <= Run(t, actions, fold).templates
    ensures |t.bindings| <= |Run(t, actions, fold).bindings|
  {
    if actions != [] {
      var n := |actions| - 1;
      RunStaysValid(t, actions[..n], fold);
      ActFramed(Run(t, actions[..n], fold), actions[n], fold);
    }
  }

  /** A sign binding of a rehearsal portal that could sign for real. */
  ghost predicate RealOnRehearsal(t: Tables, b: Binding) {
    var p := PortalOf(t.portals, b.portalId);
    && p.Some? && RehearsalSign.IsRehearsalOfficial(p.value) && OfTemplate(t, b, RehearsalSign.TEMPLATE_CODE)
    && !("dryRun" in ConfigFields(b.config) && ConfigFields(b.config)["dryRun"] == JBool(true))
  }

  /** A sign binding of a portal with the production name that would not sign. */
  ghost predicate DryOnProduction(t: Tables, b: Binding) {
    var p := PortalOf(t.portals, b.portalId);
    && p.Some? && Trim(p.value.name) == PRODUCTION_NAME && OfTemplate(t, b, ProductSign.TEMPLATE_CODE)
    && "dryRun" in ConfigFields(b.config)
  }

  ghost predicate Unsafe(t: Tables, b: Binding) {
    RealOnRehearsal(t, b) || DryOnProduction(t, b)
  }

  lemma OneActSafe(t: Tables, a: Action, fold: string -> string, i: nat)
    requires Valid(t) && i < |Act(t, a, fold).bindings| && Unsafe(Act(t, a, fold), Act(t, a, fold).bindings[i])
    ensures i < |t.bindings| && Unsafe(t, t.bindings[i])
  {
    ActFramed(t, a, fold);
    var u := Act(t, a, fold);
    var b := u.bindings[i];
    ProductionIsNoRehearsal();
    if i < |t.bindings| {
      assert HasRows(t, t.bindings[i]);
      TemplateLookupGrows(t.templates, u.templates, t.bindings[i].templateId);
    }
    if a.SwitchDemo? {
      SwitchedSafe(t, a, fold, i);
    } else if Wrote(u, a, fold, b) {
      WroteSafe(u, a, fold, b);
    }
  }

  /** A row that a bind script has written is safe. */
  lemma WroteSafe(u: Tables, a: Action, fold: string -> string, b: Binding)
    requires !a.SwitchDemo? && Wrote(u, a, fold, b)
    ensures !Unsafe(u, b)
  {
    hide Contains, Trim, PortalOf;
    ProductionIsNoRehearsal();
    assert RehearsalSign.TEMPLATE_CODE[4] == 's' && RehearsalSign.TEMPLATE_CODE[5] == 'i';
    assert GenerateBind.TEMPLATE_CODE[4] == 's' && GenerateBind.TEMPLATE_CODE[5] == 't';
    assert PrepareBind.TEMPLATE_CODE[4] == 'p';
  }

  /** The demo switch leaves every config, so what it writes is as safe as it was. */
  lemma SwitchedSafe(t: Tables, a: Action, fold: string -> string, i: nat)
    requires a.SwitchDemo? && i < |Act(t, a, fold).bindings| && Unsafe(Act(t, a, fold), Act(t, a, fold).bindings[i])
    ensures i < |t.bindings| && Unsafe(t, t.bindings[i])
  {
    hide Contains, Trim, PortalOf, TemplateOf;
    DemoSwitch.SwitchFrame(t.portals, t.templates, a.published, t.bindings[i]);
  }

  /**
   * Safety over every run: if no sign binding of a rehearsal portal is real and none of the production
   * portal is dry at the start, none ever is.
   */
  lemma {:induction false} RunStaysSafe(t: Tables, actions: seq<Action>, fold: string -> string)
    requires Valid(t) && forall i :: 0 <= i < |t.bindings| ==> !Unsafe(t, t.bindings[i])
    ensures var u := Run(t, actions, fold); forall i :: 0 <= i < |u.bindings| ==> !Unsafe(u, u.bindings[i])
  {
    if actions != [] {
      var n := |actions| - 1;
      var s := Run(t, actions[..n], fold);
      RunStaysSafe(t, actions[..n], fold);
      RunStaysValid(t, actions[..n], fold);
      var u := Run(t, actions, fold);
      forall i | 0 <= i < |u.bindings| ensures !Unsafe(u, u.bindings[i]) {
        if Unsafe(u, u.bindings[i]) {
          OneActSafe(s, actions[n], fold, i);
        }
      }
    }
  }

  /** Applying only the demo switches of a run to one row. */
  function Switched(t: Tables, actions: seq<Action>, b: Binding): Binding {
    if actions == [] then b
    else
      var a, before := actions[|actions| - 1], Switched(t, actions[..|actions| - 1], b);
      if a.SwitchDemo? then DemoSwitch.SwitchRow(t.portals, t.templates, a.published, before) else before
  }

  /** Non-interference: off the official portals a binding sees nothing of a run but its demo switches. */
  lemma {:induction false} OnlySwitchesReachDemo(t: Tables, actions: seq<Action>, fold: string -> string, i: nat)
    requires Valid(t) && i < |t.bindings|
    requires !IsOfficial(PortalOf(t.portals, t.bindings[i].portalId).value)
    ensures i < |Run(t, actions, fold).bindings|
    ensures Run(t, actions, fold).bindings[i] == Switched(t, actions, t.bindings[i])
    ensures Run(t, actions, fold).bindings[i].portalId == t.bindings[i].portalId
    ensures Run(t, actions, fold).bindings[i].templateId == t.bindings[i].templateId
  {
    assert HasRows(t, t.bindings[i]);
    if actions != [] {
      var n := |actions| - 1;
      var s, a := Run(t, actions[..n], fold), actions[n];
      OnlySwitchesReachDemo(t, actions[..n], fold, i);
      RunStaysValid(t, actions[..n], fold);
      ActFramed(s, a, fold);
      var u := Act(s, a, fold);
      if a.SwitchDemo? {
        TemplateLookupGrows(t.templates, s.templates, t.bindings[i].templateId);
        assert u.bindings[i] == DemoSwitch.SwitchRow(s.portals, s.templates, a.published, s.bindings[i]);
      } else {
        assert !Wrote(u, a, fold, u.bindings[i]);
      }
    }
  }
}
