/** One run of the override engine (`applyOverrides`): the version guard, the patch
    stages in their order (system methods, components, the four event lists), and the
    consumption audit of the annotated override file. */
module Engine {
  import opened Types
  import opened OverrideFile
  import opened ElementPatch
  import opened MethodPatch
  import opened Audit
  import opened Report

  const VersionErrorMessage := "Documentation version error"

  /** `checkDocumentationVersion`: a documentation without a version throws; a version
      that differs from the override file's in any component is only reported, as the
      flag `true`, and the run goes on. */
  function CheckDocumentationVersion(documentation: Option<Version>, expected: Version): (r: Outcome<bool>)
    ensures r.Throw? <==> documentation.None?
    ensures r.Throw? ==> r.message == VersionErrorMessage
    ensures r.Ok? ==> (r.value <==> documentation.value != expected)
  {
    if documentation.None? then Throw(VersionErrorMessage)
    else
      var v := documentation.value;
      Ok(v.major != expected.major || v.minor != expected.minor
         || v.revision != expected.revision || v.build != expected.build)
  }

  /** The outcome of a run that did not throw: the patched documentation, whether the
      version was bumped, the override file with its bookkeeping, the audit verdict, and
      what is left of each audited group after the consumed entries are deleted. */
  datatype Run = Run(
    documentation: Documentation,
    versionBumped: bool,
    annotated: Overrides,
    allConsumed: bool,
    report: seq<Json>)

  /** The audit of all groups (src/overrides.ts:713): each group is walked in turn,
      whatever the verdict on the earlier ones; the verdict holds when every walk passed. */
  function AuditGroups(groups: seq<Json>): (bool, seq<Json>) {
    if groups == [] then (true, [])
    else
      var init := AuditGroups(groups[..|groups| - 1]);
      var last := Prune(groups[|groups| - 1]);
      (last.0 && init.0, init.1 + [last.1])
  }

  /** One side (client or server) of the event overrides. Both lists are patched: the
      code tests the documentation's listening list, which is always there, and an
      absent override set leaves a list as it is. */
  function PatchSide(listening: seq<Element>, triggerable: seq<Element>, g: EventGroupOverrides)
    : (seq<Element>, seq<Element>, EventGroupOverrides)
  {
    var l := OverrideTopLevel(listening, g.listening);
    var t := OverrideTopLevel(triggerable, g.triggerable);
    (l.0, t.0, EventGroupOverrides(l.1, t.1))
  }

  function PatchEvents(events: Events, e: EventOverrides): (Events, EventOverrides) {
    var client := if e.client.Some?
                  then var s := PatchSide(events.clientListening, events.clientTriggerable, e.client.value);
                       (s.0, s.1, Some(s.2))
                  else (events.clientListening, events.clientTriggerable, e.client);
    var server := if e.server.Some?
                  then var s := PatchSide(events.serverListening, events.serverTriggerable, e.server.value);
                       (s.0, s.1, Some(s.2))
                  else (events.serverListening, events.serverTriggerable, e.server);
    (Events(client.0, client.1, server.0, server.1), EventOverrides(client.2, server.2))
  }

  /** The patch stages, system methods first; a throw from the method stage ends the run. */
  function PatchDocumentation(doc: Documentation, o: Overrides): Outcome<(Documentation, Overrides)> {
    match OverrideMethods(doc.systemMethods, o.systemMethods)
    case Throw(msg) => Throw(msg)
    case Ok((methods, methodsDone)) =>
      var components := OverrideTopLevel(doc.components, o.component);
      var events := if o.event.Some?
                    then var p := PatchEvents(doc.events, o.event.value); (p.0, Some(p.1))
                    else (doc.events, o.event);
      Ok((doc.(systemMethods := methods, components := components.0, events := events.0),
          Overrides(methodsDone, components.1, events.1)))
  }

  /** `applyOverrides` (src/overrides.ts:147-177): the version guard, the patch stages and
      the audit of the annotated override file. */
  function Apply(doc: Documentation, file: OverrideDefinitionFile): Outcome<Run> {
    match CheckDocumentationVersion(doc.version, file.version)
    case Throw(msg) => Throw(msg)
    case Ok(bumped) =>
      match PatchDocumentation(doc, file.overrides)
      case Throw(msg) => Throw(msg)
      case Ok((patched, annotated)) =>
        var audit := AuditGroups(Groups(annotated));
        Ok(Run(patched, bumped, annotated, audit.0, audit.1))
  }

  method ApplyOverrides(documentation: Documentation, overrideDefinitionFile: OverrideDefinitionFile)
    returns (r: Outcome<Run>)
    ensures r == Apply(documentation, overrideDefinitionFile)
  {
    var check := CheckDocumentationVersion(documentation.version, overrideDefinitionFile.version);
    if check.Throw? {
      return Throw(check.message);
    }
    var overrides := overrideDefinitionFile.overrides;
    var doc := documentation;
    var methods := OverrideMethodElement(doc.systemMethods, overrides.systemMethods);
    if methods.Throw? {
      return Throw(methods.message);
    }
    doc := doc.(systemMethods := methods.value.0);
    var annotated := overrides.(systemMethods := methods.value.1);
    var components, componentsDone := OverrideTopLevelElement(doc.components, overrides.component);
    doc := doc.(components := components);
    annotated := annotated.(component := componentsDone);
    if overrides.event.Some? {
      var e := overrides.event.value;
      if e.client.Some? {
        var g := e.client.value;
        var listening, listeningDone := OverrideTopLevelElement(doc.events.clientListening, g.listening);
        var triggerable, triggerableDone := OverrideTopLevelElement(doc.events.clientTriggerable, g.triggerable);
        doc := doc.(events := doc.events.(clientListening := listening, clientTriggerable := triggerable));
        e := e.(client := Some(EventGroupOverrides(listeningDone, triggerableDone)));
      }
      if e.server.Some? {
        var g := e.server.value;
        var listening, listeningDone := OverrideTopLevelElement(doc.events.serverListening, g.listening);
        var triggerable, triggerableDone := OverrideTopLevelElement(doc.events.serverTriggerable, g.triggerable);
        doc := doc.(events := doc.events.(serverListening := listening, serverTriggerable := triggerable));
        e := e.(server := Some(EventGroupOverrides(listeningDone, triggerableDone)));
      }
      annotated := annotated.(event := Some(e));
    }
    var allConsumed, report := VerifyAllOverridesConsumed(annotated);
    r := Ok(Run(doc, check.value, annotated, allConsumed, report));
  }

  /** `verifyAllOverridesConsumed`: each present group is walked in turn. */
  method VerifyAllOverridesConsumed(overrides: Overrides) returns (allElementsRemoved: bool, report: seq<Json>)
    ensures (allElementsRemoved, report) == AuditGroups(Groups(overrides))
  {
    var elementsToCheck := Groups(overrides);
    allElementsRemoved := true;
    report := [];
    var i := 0;
    while i < |elementsToCheck|
      invariant 0 <= i <= |elementsToCheck|
      invariant (allElementsRemoved, report) == AuditGroups(elementsToCheck[..i])
    {
      assert elementsToCheck[..i + 1][..i] == elementsToCheck[..i];
      var removed, rest := RemoveProcessedComponents(elementsToCheck[i]);
      allElementsRemoved := removed && allElementsRemoved;
      report := report + [rest];
      i := i + 1;
    }
    assert elementsToCheck[..i] == elementsToCheck;
  }
}
