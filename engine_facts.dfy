/** Properties of a whole override run. */
module EngineFacts {
  import opened Types
  import opened OverrideFile
  import opened ElementPatch
  import opened ElementPatchFacts
  import opened Audit
  import opened AuditFacts
  import opened Report
  import opened ReportFacts
  import opened Engine

  /** A documentation whose version could not be extracted aborts the run. */
  lemma NullVersionThrows(doc: Documentation, file: OverrideDefinitionFile)
    requires doc.version.None?
    ensures Apply(doc, file) == Throw(VersionErrorMessage)
  {
  }

  /** A version mismatch is only reported: the run with any other version patches,
      annotates and audits identically. */
  lemma VersionOnlyReported(doc: Documentation, file: OverrideDefinitionFile, v: Version)
    requires doc.version.Some?
    ensures var a := Apply(doc, file);
            var b := Apply(doc.(version := Some(v)), file);
            && (a.Throw? <==> b.Throw?)
            && (a.Throw? ==> a == b)
            && (a.Ok? ==>
                  && a.value.versionBumped == (doc.version.value != file.version)
                  && a.value.documentation == b.value.documentation.(version := doc.version)
                  && a.value.annotated == b.value.annotated
                  && a.value.allConsumed == b.value.allConsumed
                  && a.value.report == b.value.report)
  {
  }

  predicate GroupsConsumed(groups: seq<Json>) {
    forall k :: 0 <= k < |groups| ==> Consumed(groups[k])
  }

  predicate GroupsWellFormed(groups: seq<Json>) {
    forall k :: 0 <= k < |groups| ==> WellFormed(groups[k])
  }

  lemma GroupsAppend(a: seq<Json>, b: seq<Json>)
    ensures GroupsConsumed(a + b) == (GroupsConsumed(a) && GroupsConsumed(b))
    ensures GroupsWellFormed(a + b) == (GroupsWellFormed(a) && GroupsWellFormed(b))
  {
    assert forall k :: 0 <= k < |a| ==> (a + b)[k] == a[k];
    assert forall k :: 0 <= k < |b| ==> (a + b)[|a| + k] == b[k];
  }

  /** The fold over the groups walks each group once and passes exactly when every
      group is consumed. */
  lemma {:induction false} AuditGroupsWalksEach(groups: seq<Json>)
    ensures |AuditGroups(groups).1| == |groups|
    ensures forall k :: 0 <= k < |groups| ==> AuditGroups(groups).1[k] == Prune(groups[k]).1
    ensures AuditGroups(groups).0 == GroupsConsumed(groups)
  {
    if groups != [] {
      var n := |groups| - 1;
      AuditGroupsWalksEach(groups[..n]);
      PruneDecides(groups[n]);
      assert groups == groups[..n] + [groups[n]];
      GroupsAppend(groups[..n], [groups[n]]);
    }
  }

  lemma SingleGroup(g: Json)
    ensures GroupsConsumed([g]) == Consumed(g)
    ensures GroupsWellFormed([g]) == WellFormed(g)
  {
    assert [g][0] == g;
  }

  /** The group of one present list of component or event overrides. */
  function ElementGroup(entries: Option<seq<ElementEntry>>): seq<Json> {
    if entries.Some? then [JObj(ElementProps(entries.value))] else []
  }

  lemma ElementGroupOptAudit(entries: Option<seq<ElementEntry>>)
    requires entries.Some? ==> ElementsClean(entries.value)
    ensures GroupsConsumed(ElementGroup(entries)) == (entries.Some? ==> ElementsDone(entries.value))
    ensures GroupsWellFormed(ElementGroup(entries))
  {
    if entries.Some? {
      ElementGroupAudit(entries.value);
      SingleGroup(JObj(ElementProps(entries.value)));
    }
  }

  lemma SideGroupsAudit(g: EventGroupOverrides)
    requires SideClean(g)
    ensures GroupsConsumed(SideGroups(g)) == SideDone(g)
    ensures GroupsWellFormed(SideGroups(g))
  {
    assert SideGroups(g) == ElementGroup(g.listening) + ElementGroup(g.triggerable);
    GroupsAppend(ElementGroup(g.listening), ElementGroup(g.triggerable));
    ElementGroupOptAudit(g.listening);
    ElementGroupOptAudit(g.triggerable);
  }

  function SideGroupsOpt(g: Option<EventGroupOverrides>): seq<Json> {
    if g.Some? then SideGroups(g.value) else []
  }

  lemma SideGroupsOptAudit(g: Option<EventGroupOverrides>)
    requires g.Some? ==> SideClean(g.value)
    ensures GroupsConsumed(SideGroupsOpt(g)) == (g.Some? ==> SideDone(g.value))
    ensures GroupsWellFormed(SideGroupsOpt(g))
  {
    if g.Some? {
      SideGroupsAudit(g.value);
    }
  }

  lemma EventGroupsAudit(e: EventOverrides)
    requires e.client.Some? ==> SideClean(e.client.value)
    requires e.server.Some? ==> SideClean(e.server.value)
    ensures GroupsConsumed(EventGroups(e))
              == ((e.client.Some? ==> SideDone(e.client.value)) && (e.server.Some? ==> SideDone(e.server.value)))
    ensures GroupsWellFormed(EventGroups(e))
  {
    assert EventGroups(e) == SideGroupsOpt(e.client) + SideGroupsOpt(e.server);
    GroupsAppend(SideGroupsOpt(e.client), SideGroupsOpt(e.server));
    SideGroupsOptAudit(e.client);
    SideGroupsOptAudit(e.server);
  }

  function MethodGroup(entries: Option<seq<MethodEntry>>): seq<Json> {
    if entries.Some? then [JObj(MethodProps(entries.value))] else []
  }

  lemma MethodGroupOptAudit(entries: Option<seq<MethodEntry>>)
    requires entries.Some? ==> MethodsClean(entries.value)
    ensures GroupsConsumed(MethodGroup(entries)) == (entries.Some? ==> MethodsDone(entries.value))
    ensures GroupsWellFormed(MethodGroup(entries))
  {
    if entries.Some? {
      MethodGroupAudit(entries.value);
      SingleGroup(JObj(MethodProps(entries.value)));
    }
  }

  function EventGroupsOpt(e: Option<EventOverrides>): seq<Json> {
    if e.Some? then EventGroups(e.value) else []
  }

  lemma EventGroupsOptAudit(e: Option<EventOverrides>)
    requires e.Some? && e.value.client.Some? ==> SideClean(e.value.client.value)
    requires e.Some? && e.value.server.Some? ==> SideClean(e.value.server.value)
    ensures GroupsConsumed(EventGroupsOpt(e))
              == ((e.Some? && e.value.client.Some? ==> SideDone(e.value.client.value))
                  && (e.Some? && e.value.server.Some? ==> SideDone(e.value.server.value)))
    ensures GroupsWellFormed(EventGroupsOpt(e))
  {
    if e.Some? {
      EventGroupsAudit(e.value);
    }
  }

  /** The audited groups are all consumed exactly when every override is done. */
  lemma GroupsAudit(o: Overrides)
    requires OverridesClean(o)
    ensures GroupsConsumed(Groups(o)) == OverridesDone(o)
    ensures GroupsWellFormed(Groups(o))
  {
    var m := MethodGroup(o.systemMethods);
    var c := ElementGroup(o.component);
    var e := EventGroupsOpt(o.event);
    assert Groups(o) == m + c + e;
    GroupsAppend(m, c);
    GroupsAppend(m + c, e);
    MethodGroupOptAudit(o.systemMethods);
    ElementGroupOptAudit(o.component);
    EventGroupsOptAudit(o.event);
  }

  /** The audit of a run: it passes exactly when every override was consumed; a passing
      audit leaves no bookkeeping in any group of its report; a failing one leaves a
      stale entry in some group. */
  lemma RunVerdict(doc: Documentation, file: OverrideDefinitionFile)
    requires Apply(doc, file).Ok?
    requires OverridesClean(Apply(doc, file).value.annotated)
    ensures var run := Apply(doc, file).value;
            && (run.allConsumed <==> OverridesDone(run.annotated))
            && |run.report| == |Groups(run.annotated)|
            && (run.allConsumed ==> forall k :: 0 <= k < |run.report| ==> Untracked(run.report[k]))
            && (!run.allConsumed ==> exists k :: 0 <= k < |run.report| && !Consumed(run.report[k]))
  {
    var run := Apply(doc, file).value;
    var groups := Groups(run.annotated);
    GroupsAudit(run.annotated);
    AuditGroupsWalksEach(groups);
    forall k | 0 <= k < |groups|
      ensures Consumed(groups[k]) ==> Untracked(run.report[k])
      ensures !Consumed(groups[k]) ==> !Consumed(run.report[k])
    {
      AuditVerdict(groups[k]);
    }
  }

  /** A run whose override file only has component overrides. */
  lemma ComponentsOnlyRun(doc: Documentation, file: OverrideDefinitionFile, entries: seq<ElementEntry>)
    requires doc.version.Some?
    requires file.overrides == Overrides(None, Some(entries), None)
    ensures var p := PatchElements(doc.components, entries);
            var annotated := Overrides(None, Some(p.1), None);
            var audit := AuditGroups([JObj(ElementProps(p.1))]);
            Apply(doc, file) == Ok(Run(doc.(components := p.0), doc.version.value != file.version,
                                       annotated, audit.0, audit.1))
  {
    var p := PatchElements(doc.components, entries);
    var annotated := Overrides(None, Some(p.1), None);
    assert PatchDocumentation(doc, file.overrides) == Ok((doc.(components := p.0), annotated));
    assert Groups(annotated) == [JObj(ElementProps(p.1))];
  }

  lemma SingleEntryPatch(elements: seq<Element>, entry: ElementEntry)
    ensures PatchElements(elements, [entry]) == (PatchElement(elements, entry).0, [PatchElement(elements, entry).1])
  {
    var none: seq<ElementEntry> := [];
    assert [entry][..0] == none;
    assert none + [PatchElement(elements, entry).1] == [PatchElement(elements, entry).1];
  }

  lemma SingleGroupAudit(g: Json)
    ensures AuditGroups([g]) == (Prune(g).0, [Prune(g).1])
  {
    var none: seq<Json> := [];
    assert [g][..0] == none;
    assert none + [Prune(g).1] == [Prune(g).1];
  }

  /** The walk over a group holding one entry. */
  lemma SingleEntryPrune(key: string, x: Json)
    ensures Prune(JObj([Prop(key, x)]))
              == (PruneChild(x).0, JObj(if PruneChild(x).1.Some? then [Prop(key, PruneChild(x).1.value)] else []))
  {
    var props := [Prop(key, x)];
    var none: seq<Prop> := [];
    assert props[..0] == none;
    assert PruneProps(none) == (true, none);
    var last := PruneChild(x);
    var piece := if last.1.Some? then [Prop(key, last.1.value)] else [];
    assert none + piece == piece;
    assert PruneProps(props) == (last.0, piece);
  }

  /** Removing "Fire" from a documentation that lists it: every component of that name
      is dropped, the entry is consumed, and the report of the component group is empty. */
  lemma RemoveThenConsume(doc: Documentation, file: OverrideDefinitionFile, remove: ElementOverride)
    requires doc.version.Some?
    requires remove.operation == Some("remove") && remove.typ.None?
    requires file.overrides == Overrides(None, Some([ElementEntry("Fire", remove)]), None)
    requires exists k :: 0 <= k < |doc.components| && doc.components[k].name == "Fire"
    ensures Apply(doc, file).Ok?
    ensures var run := Apply(doc, file).value;
            && run.documentation.components == Keep(doc.components, ElementNotNamed("Fire"))
            && run.documentation.systemMethods == doc.systemMethods
            && run.documentation.events == doc.events
            && run.allConsumed
            && run.report == [JObj([])]
  {
    var entry := ElementEntry("Fire", remove);
    ElementRemove(doc.components, "Fire", remove);
    SingleEntryPatch(doc.components, entry);
    ComponentsOnlyRun(doc, file, [entry]);
    var done := PatchElement(doc.components, entry).1;
    var x := ElementJson(done.edit);
    ElementAudit(done.edit);
    TrackedObject(done.edit.track, ElementScalars(done.edit), TypeAttr(done.edit.typ));
    PruneDecides(x);
    assert ElementProps([done]) == [Prop("Fire", x)];
    SingleEntryPrune("Fire", x);
    SingleGroupAudit(JObj([Prop("Fire", x)]));
  }

  /** An entry naming an element the list does not have changes nothing and stays
      unconsumed. */
  lemma MissingElementUnconsumed(elements: seq<Element>, name: string, o: ElementOverride)
    requires o.operation == Some("remove") || IsChange(o.operation)
    requires forall k :: 0 <= k < |elements| ==> elements[k].name != name
    ensures PatchElement(elements, ElementEntry(name, o)).0 == elements
    ensures PatchElement(elements, ElementEntry(name, o)).1.edit == o.(track := PatchElement(elements, ElementEntry(name, o)).1.edit.track)
    ensures IsFalse(PatchElement(elements, ElementEntry(name, o)).1.edit.track.processed)
  {
    if o.operation == Some("remove") {
      ElementRemove(elements, name, o);
    } else {
      ElementChange(elements, name, o);
    }
  }

  /** An unconsumed entry survives the walk and is still flagged. */
  lemma StaleElementKept(e: ElementOverride)
    requires ElementClean(e) && IsFalse(e.track.processed)
    ensures !PruneChild(ElementJson(e)).0
    ensures PruneChild(ElementJson(e)).1.Some?
    ensures !ProcessedOk(PruneChild(ElementJson(e)).1.value)
  {
    var x := ElementJson(e);
    ElementAudit(e);
    TrackedObject(e.track, ElementScalars(e), TypeAttr(e.typ));
    PruneKeepsProcessed(x.props);
  }

  /** An entry naming a component the documentation does not have leaves the list as it
      is, fails the audit, and is the only entry in the report, still flagged. */
  lemma TypoReported(doc: Documentation, file: OverrideDefinitionFile, typo: string, o: ElementOverride)
    requires doc.version.Some?
    requires o.operation == Some("remove") || IsChange(o.operation)
    requires file.overrides == Overrides(None, Some([ElementEntry(typo, o)]), None)
    requires forall k :: 0 <= k < |doc.components| ==> doc.components[k].name != typo
    requires ElementClean(o)
    ensures Apply(doc, file).Ok?
    ensures var run := Apply(doc, file).value;
            && run.documentation == doc
            && !run.allConsumed
            && IsFalse(run.annotated.component.value[0].edit.track.processed)
            && |run.report| == 1 && run.report[0].JObj? && |run.report[0].props| == 1
            && run.report[0].props[0].key == typo
            && !ProcessedOk(run.report[0].props[0].value)
  {
    var entry := ElementEntry(typo, o);
    MissingElementUnconsumed(doc.components, typo, o);
    SingleEntryPatch(doc.components, entry);
    ComponentsOnlyRun(doc, file, [entry]);
    var done := PatchElement(doc.components, entry).1;
    var x := ElementJson(done.edit);
    StaleElementKept(done.edit);
    assert ElementProps([done]) == [Prop(typo, x)];
    SingleEntryPrune(typo, x);
    SingleGroupAudit(JObj([Prop(typo, x)]));
  }
}
