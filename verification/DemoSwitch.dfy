/** Switching the demo portal's bindings to the OCR packages of a combined publish receipt. */
module DemoSwitch {
  import opened Text
  import opened BindingStore
  import opened BindingLaws
  import opened OfficialPortal
  import RehearsalSign

  /** What the switch does to one row; the flow id and the config are left as they are. */
  function SwitchRow(portals: seq<Portal>, templates: seq<Template>, published: map<string, Receipt>, b: Binding): Binding {
    var p, w := PortalOf(portals, b.portalId), TemplateOf(templates, b.templateId);
    if !b.live || p.None? || !p.value.live || w.None? || !w.value.live || w.value.code !in published then b
    else if Contains(p.value.url, OFFICIAL_HOST) then b
    else if !Contains(p.value.url, DEMO_HOST) then b
    else
      var item := published[w.value.code];
      b.(flowVersion := item.version, flowVersionId := item.versionId, checksum := item.checksum, status := "ENABLED")
  }

  function Switcher(portals: seq<Portal>, templates: seq<Template>, published: map<string, Receipt>): Binding -> Binding {
    b => SwitchRow(portals, templates, published, b)
  }

  function Switch(t: Tables, published: map<string, Receipt>): Tables {
    t.(bindings := MapRows(Switcher(t.portals, t.templates, published), t.bindings))
  }

  method SwitchDemoBindings(database: Database, published: map<string, Receipt>)
    modifies database
    ensures database.Contents() == Switch(old(database.Contents()), published)
  {
    var t := database.Contents();
    var work := t.bindings;
    for i := 0 to |work|
      invariant |work| == |t.bindings|
      invariant forall j :: 0 <= j < |work| ==>
        work[j] == if j < i then SwitchRow(t.portals, t.templates, published, t.bindings[j]) else t.bindings[j]
    {
      var b := work[i];
      var portal := PortalOf(t.portals, b.portalId);
      var template := TemplateOf(t.templates, b.templateId);
      if b.live && portal.Some? && portal.value.live && template.Some? && template.value.live {
        var url := portal.value.url;
        if template.value.code in published && !Contains(url, OFFICIAL_HOST) && Contains(url, DEMO_HOST) {
          var item := published[template.value.code];
          b := b.(flowVersion := item.version, flowVersionId := item.versionId, checksum := item.checksum);
          work := work[i := b.(status := "ENABLED")];
        }
      }
    }
    database.bindings := work;
    assert work == Switch(t, published).bindings;
  }

  /** A row changes only on a live portal whose URL has the demo host and not the official host. */
  lemma SwitchFrame(portals: seq<Portal>, templates: seq<Template>, published: map<string, Receipt>, b: Binding)
    ensures var s := SwitchRow(portals, templates, published, b);
      && s.(flowVersion := b.flowVersion, flowVersionId := b.flowVersionId, checksum := b.checksum, status := b.status) == b
      && (s != b ==> var p := PortalOf(portals, b.portalId);
            p.Some? && Contains(p.value.url, DEMO_HOST) && !Contains(p.value.url, OFFICIAL_URL))
  {
    var p := PortalOf(portals, b.portalId);
    if p.Some? && Contains(p.value.url, OFFICIAL_URL) {
      OfficialUrlHasHost(p.value.url);
    }
  }

  /** `b` is live, on a live portal at the demo host and not at the official one, and of a live template with this published code. */
  ghost predicate IsSwitched(t: Tables, published: map<string, Receipt>, b: Binding, code: string) {
    && b.live && code in published
    && (exists p :: 0 <= p < |t.portals| && t.portals[p].live && t.portals[p].id == b.portalId
                    && Contains(t.portals[p].url, DEMO_HOST) && !Contains(t.portals[p].url, OFFICIAL_HOST))
    && (exists w :: 0 <= w < |t.templates| && t.templates[w].live && t.templates[w].id == b.templateId && t.templates[w].code == code)
  }

  /** What the switch writes: the published version, id and checksum of the code into their own columns; all other rows are kept. */
  lemma SwitchedRow(t: Tables, published: map<string, Receipt>, i: nat)
    requires PortalKeys(t.portals) && TemplateKeys(t.templates) && i < |t.bindings|
    ensures var u := Switch(t, published);
      var b, after := t.bindings[i], u.bindings[i];
      && |u.bindings| == |t.bindings| && u == t.(bindings := u.bindings)
      && (forall code :: IsSwitched(t, published, b, code) ==>
            after == b.(flowVersion := published[code].version, flowVersionId := published[code].versionId,
                        checksum := published[code].checksum, status := "ENABLED"))
      && ((forall code :: !IsSwitched(t, published, b, code)) ==> after == b)
  {
    hide Contains;
    var b := t.bindings[i];
    forall code | IsSwitched(t, published, b, code)
      ensures PortalOf(t.portals, b.portalId).Some? && TemplateOf(t.templates, b.templateId).Some?
      ensures var p, w := PortalOf(t.portals, b.portalId).value, TemplateOf(t.templates, b.templateId).value;
        p.live && w.live && w.code == code && Contains(p.url, DEMO_HOST) && !Contains(p.url, OFFICIAL_HOST)
    {
      var p :| 0 <= p < |t.portals| && t.portals[p].live && t.portals[p].id == b.portalId
               && Contains(t.portals[p].url, DEMO_HOST) && !Contains(t.portals[p].url, OFFICIAL_HOST);
      var w :| 0 <= w < |t.templates| && t.templates[w].live && t.templates[w].id == b.templateId && t.templates[w].code == code;
      PortalByKey(t.portals, p);
      TemplateByKey(t.templates, w);
    }
    if SwitchRow(t.portals, t.templates, published, b) != b {
      var p, w := PortalOf(t.portals, b.portalId).value, TemplateOf(t.templates, b.templateId).value;
      assert IsSwitched(t, published, b, w.code);
    }
  }

  /** Switching twice with one receipt is switching once. */
  lemma SwitchAgain(t: Tables, published: map<string, Receipt>)
    ensures Switch(Switch(t, published), published) == Switch(t, published)
  {
    var once := Switch(t, published).bindings;
    assert MapRows(Switcher(t.portals, t.templates, published), once) == once;
  }

  lemma SwitchIsIndependent(t: Tables, published: map<string, Receipt>, template: Template, receipt: Receipt, fold: string -> string)
    requires PortalKeys(t.portals)
    ensures Independent(RehearsalSign.SignPlan(template, receipt, fold), t.portals,
                        Switcher(t.portals, t.templates, published))
  {
    var plan := RehearsalSign.SignPlan(template, receipt, fold);
    forall b: Binding
      ensures TakenId(plan, t.portals, b.portalId) ==> SwitchRow(t.portals, t.templates, published, b) == b
    {
      if TakenId(plan, t.portals, b.portalId) {
        RehearsalSign.TakenIsRehearsal(t.portals, template, receipt, fold, b.portalId);
        SwitchFrame(t.portals, t.templates, published, b);
      }
    }
  }

  /** The rehearsal bind and the demo switch commute: same verdict, same tables, in either order. */
  lemma RehearsalAndSwitchCommute(t: Tables, published: map<string, Receipt>, db: string, receipt: Receipt,
                                  fold: string -> string, ids: nat -> string)
    requires PortalKeys(t.portals)
    ensures RehearsalSign.Rehearse(Switch(t, published), db, receipt, fold, ids)
         == match RehearsalSign.Rehearse(t, db, receipt, fold, ids)
            case Aborted(reason) => Aborted(reason)
            case Committed(after) => Committed(Switch(after, published))
  {
    var hits := LiveTemplates(t.templates, RehearsalSign.TEMPLATE_CODE);
    if |hits| == 1 {
      LoopAndSwitchCommute(t, published, t.templates[hits[0]], receipt, fold, ids);
    }
  }

  lemma LoopAndSwitchCommute(t: Tables, published: map<string, Receipt>, template: Template, receipt: Receipt,
                             fold: string -> string, ids: nat -> string)
    requires PortalKeys(t.portals)
    ensures BoundAll(RehearsalSign.SignPlan(template, receipt, fold), t.portals, Switch(t, published).bindings, ids)
         == match BoundAll(RehearsalSign.SignPlan(template, receipt, fold), t.portals, t.bindings, ids)
            case Stopped(reason) => Stopped(reason)
            case Going(rows, updated) => Going(Switch(t.(bindings := rows), published).bindings, updated)
  {
    SwitchIsIndependent(t, published, template, receipt, fold);
    BindCommutes(RehearsalSign.SignPlan(template, receipt, fold), t.portals, t.bindings, ids,
                 Switcher(t.portals, t.templates, published));
  }
}
