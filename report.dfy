/** The override file as the JSON tree that the consumption auditor walks: every override
    record becomes an object holding its scalar attributes, its nested overrides, and
    then its bookkeeping (`_processed`, `_issues`), which the engine adds after the
    authored keys. Undefined attributes are omitted. */
module Report {
  import opened Types
  import opened OverrideFile
  import opened Audit

  function Strings(s: seq<string>): (r: seq<Json>)
    ensures |r| == |s|
    ensures forall k :: 0 <= k < |r| ==> r[k] == JStr(s[k])
  {
    if s == [] then [] else [JStr(s[0])] + Strings(s[1..])
  }

  function StrAttr(key: string, v: Option<string>): seq<Prop> {
    if v.Some? then [Prop(key, JStr(v.value))] else []
  }

  function BoolAttr(key: string, v: Option<bool>): seq<Prop> {
    if v.Some? then [Prop(key, JBool(v.value))] else []
  }

  /** Properties the auditor does not descend into, none of them named `_processed`. */
  predicate Scalars(s: seq<Prop>) {
    forall k :: 0 <= k < |s| ==> !IsContainer(s[k].value) && s[k].key != "_processed"
  }

  function TrackProps(t: Tracking): seq<Prop> {
    BoolAttr("_processed", t.processed)
      + (if t.issues.Some? then [Prop("_issues", JArr(Strings(t.issues.value)))] else [])
  }

  function FieldJson(f: FieldOverride): Json
    decreases f
  {
    JObj(FieldScalars(f) + TypeAttr(f.typ) + TrackProps(f.track))
  }

  function FieldScalars(f: FieldOverride): (r: seq<Prop>)
    ensures Scalars(r)
  {
    StrAttr("_operation", f.operation) + StrAttr("name", f.name) + StrAttr("description", f.description)
      + BoolAttr("isOptional", f.isOptional) + BoolAttr("isArray", f.isArray)
      + StrAttr("defaultValue", f.defaultValue)
  }

  function TypeAttr(t: Option<TypeOverride>): (r: seq<Prop>)
    ensures |r| <= 1 && forall k :: 0 <= k < |r| ==> r[k].key == "type"
    decreases t
  {
    if t.Some? then [Prop("type", TypeJson(t.value))] else []
  }

  function TypeJson(t: TypeOverride): Json
    decreases t
  {
    match t
    case LeafOverride(s) => JStr(s)
    case UnionOverride(names) => JArr(Strings(names))
    case FieldsOverride(entries) => JObj(FieldProps(entries))
  }

  function FieldProps(entries: seq<FieldEntry>): (r: seq<Prop>)
    ensures |r| == |entries|
    ensures forall k :: 0 <= k < |r| ==> r[k] == Prop(entries[k].key, FieldJson(entries[k].edit))
    decreases entries
  {
    if entries == [] then []
    else [Prop(entries[0].key, FieldJson(entries[0].edit))] + FieldProps(entries[1..])
  }

  function ElementJson(o: ElementOverride): Json {
    JObj(ElementScalars(o) + TypeAttr(o.typ) + TrackProps(o.track))
  }

  function ElementScalars(o: ElementOverride): (r: seq<Prop>)
    ensures Scalars(r)
  {
    StrAttr("_operation", o.operation) + StrAttr("name", o.name) + StrAttr("description", o.description)
      + BoolAttr("isArray", o.isArray)
  }

  function ElementProps(entries: seq<ElementEntry>): (r: seq<Prop>)
    ensures |r| == |entries|
    ensures forall k :: 0 <= k < |r| ==> r[k] == Prop(entries[k].key, ElementJson(entries[k].edit))
  {
    if entries == [] then []
    else [Prop(entries[0].key, ElementJson(entries[0].edit))] + ElementProps(entries[1..])
  }

  function ReturnJson(o: ReturnOverride): Json {
    JObj(ReturnScalars(o)
           + (if o.typ.Some? then [Prop("type", FieldJson(o.typ.value))] else [])
           + TrackProps(o.track))
  }

  function ReturnScalars(o: ReturnOverride): (r: seq<Prop>)
    ensures Scalars(r)
  {
    StrAttr("_operation", o.operation) + StrAttr("description", o.description)
      + BoolAttr("isArray", o.isArray) + StrAttr("value", o.value)
  }

  /** A selector `{findByType, override}`; an element without `findByType` is the bare
      return-type override. */
  function ReturnItemJson(item: ReturnItem): Json {
    match item
    case ReturnSelector(criteria, o, track) =>
      JObj([Prop("findByType", JStr(criteria))] + [Prop("override", ReturnJson(o))] + TrackProps(track))
    case PlainReturn(o) => ReturnJson(o)
  }

  function ReturnItems(items: seq<ReturnItem>): (r: seq<Json>)
    ensures |r| == |items|
    ensures forall k :: 0 <= k < |r| ==> r[k] == ReturnItemJson(items[k])
  {
    if items == [] then [] else [ReturnItemJson(items[0])] + ReturnItems(items[1..])
  }

  function MethodJson(o: MethodOverride): Json {
    JObj(MethodScalars(o) + MethodChildren(o) + TrackProps(o.track))
  }

  function MethodScalars(o: MethodOverride): (r: seq<Prop>)
    ensures Scalars(r)
  {
    StrAttr("_operation", o.operation) + StrAttr("name", o.name) + StrAttr("description", o.description)
      + StrAttr("category", o.category) + StrAttr("system", o.system)
      + BoolAttr("returnIsArray", o.returnIsArray)
  }

  function MethodChildren(o: MethodOverride): seq<Prop> {
    ParametersAttr(o) + ReturnTypesAttr(o)
  }

  function ParametersAttr(o: MethodOverride): seq<Prop> {
    if o.parameters.Some? then [Prop("parameters", JObj(FieldProps(o.parameters.value)))] else []
  }

  function ReturnTypesAttr(o: MethodOverride): seq<Prop> {
    if o.returnTypes.Some? then [Prop("returnTypes", JArr(ReturnItems(o.returnTypes.value)))] else []
  }

  function MethodItemJson(item: MethodItem): Json {
    match item
    case Plain(o) => MethodJson(o)
    case Selector(selector, o, track) =>
      JObj([] + [Prop("findByParameters", JArr(Strings(selector))), Prop("override", MethodJson(o))] + TrackProps(track))
  }

  function MethodItems(items: seq<MethodItem>): (r: seq<Json>)
    ensures |r| == |items|
    ensures forall k :: 0 <= k < |r| ==> r[k] == MethodItemJson(items[k])
  {
    if items == [] then [] else [MethodItemJson(items[0])] + MethodItems(items[1..])
  }

  function MethodValueJson(v: MethodValue): Json {
    match v
    case One(item) => MethodItemJson(item)
    case Many(items) => JArr(MethodItems(items))
  }

  function MethodProps(entries: seq<MethodEntry>): (r: seq<Prop>)
    ensures |r| == |entries|
    ensures forall k :: 0 <= k < |r| ==> r[k] == Prop(entries[k].key, MethodValueJson(entries[k].value))
  {
    if entries == [] then []
    else [Prop(entries[0].key, MethodValueJson(entries[0].value))] + MethodProps(entries[1..])
  }

  /** The override groups `verifyAllOverridesConsumed` audits, in its order: those present. */
  function Groups(o: Overrides): seq<Json> {
    (if o.systemMethods.Some? then [JObj(MethodProps(o.systemMethods.value))] else [])
      + (if o.component.Some? then [JObj(ElementProps(o.component.value))] else [])
      + (if o.event.Some? then EventGroups(o.event.value) else [])
  }

  function EventGroups(e: EventOverrides): seq<Json> {
    (if e.client.Some? then SideGroups(e.client.value) else [])
      + (if e.server.Some? then SideGroups(e.server.value) else [])
  }

  function SideGroups(g: EventGroupOverrides): seq<Json> {
    (if g.listening.Some? then [JObj(ElementProps(g.listening.value))] else [])
      + (if g.triggerable.Some? then [JObj(ElementProps(g.triggerable.value))] else [])
  }

  // ---- The reference meaning, on the typed overrides.

  /** An entry the engine did not leave at `_processed = false`. */
  predicate Settled(t: Tracking) {
    !IsFalse(t.processed)
  }

  predicate FieldDone(f: FieldOverride)
    decreases f
  {
    Settled(f.track) && (f.typ.Some? ==> TypeDone(f.typ.value))
  }

  predicate TypeDone(t: TypeOverride)
    decreases t
  {
    t.FieldsOverride? ==> forall i :: 0 <= i < |t.entries| ==> FieldDone(t.entries[i].edit)
  }

  predicate ElementDone(o: ElementOverride) {
    Settled(o.track) && (o.typ.Some? ==> TypeDone(o.typ.value))
  }

  predicate ReturnDone(o: ReturnOverride) {
    Settled(o.track) && (o.typ.Some? ==> FieldDone(o.typ.value))
  }

  predicate ReturnItemDone(item: ReturnItem) {
    match item
    case ReturnSelector(_, o, track) => Settled(track) && ReturnDone(o)
    case PlainReturn(o) => ReturnDone(o)
  }

  predicate MethodDone(o: MethodOverride) {
    && Settled(o.track)
    && (o.parameters.Some? ==> forall i :: 0 <= i < |o.parameters.value| ==> FieldDone(o.parameters.value[i].edit))
    && (o.returnTypes.Some? ==> forall i :: 0 <= i < |o.returnTypes.value| ==> ReturnItemDone(o.returnTypes.value[i]))
  }

  predicate MethodItemDone(item: MethodItem) {
    match item
    case Plain(o) => MethodDone(o)
    case Selector(_, o, track) => Settled(track) && MethodDone(o)
  }

  predicate MethodValueDone(v: MethodValue) {
    forall i :: 0 <= i < |v.Items()| ==> MethodItemDone(v.Items()[i])
  }

  predicate ElementsDone(entries: seq<ElementEntry>) {
    forall i :: 0 <= i < |entries| ==> ElementDone(entries[i].edit)
  }

  predicate MethodsDone(entries: seq<MethodEntry>) {
    forall i :: 0 <= i < |entries| ==> MethodValueDone(entries[i].value)
  }

  predicate SideDone(g: EventGroupOverrides) {
    && (g.listening.Some? ==> ElementsDone(g.listening.value))
    && (g.triggerable.Some? ==> ElementsDone(g.triggerable.value))
  }

  /** Every override, at every depth, was consumed. */
  predicate OverridesDone(o: Overrides) {
    && (o.systemMethods.Some? ==> MethodsDone(o.systemMethods.value))
    && (o.component.Some? ==> ElementsDone(o.component.value))
    && (o.event.Some? && o.event.value.client.Some? ==> SideDone(o.event.value.client.value))
    && (o.event.Some? && o.event.value.server.Some? ==> SideDone(o.event.value.server.value))
  }

  // ---- Override keys that the auditor cannot tell from bookkeeping.

  predicate FieldClean(f: FieldOverride)
    decreases f
  {
    f.typ.Some? ==> TypeClean(f.typ.value)
  }

  predicate TypeClean(t: TypeOverride)
    decreases t
  {
    t.FieldsOverride? ==> forall i :: 0 <= i < |t.entries| ==>
                            t.entries[i].key != "_processed" && FieldClean(t.entries[i].edit)
  }

  predicate ElementClean(o: ElementOverride) {
    o.typ.Some? ==> TypeClean(o.typ.value)
  }

  predicate ReturnClean(o: ReturnOverride) {
    o.typ.Some? ==> FieldClean(o.typ.value)
  }

  predicate ReturnItemClean(item: ReturnItem) {
    ReturnClean(item.edit)
  }

  predicate MethodClean(o: MethodOverride) {
    && (o.parameters.Some? ==> TypeClean(FieldsOverride(o.parameters.value)))
    && (o.returnTypes.Some? ==> forall i :: 0 <= i < |o.returnTypes.value| ==> ReturnItemClean(o.returnTypes.value[i]))
  }

  predicate MethodValueClean(v: MethodValue) {
    forall i :: 0 <= i < |v.Items()| ==> MethodClean(v.Items()[i].edit)
  }

  predicate ElementsClean(entries: seq<ElementEntry>) {
    forall i :: 0 <= i < |entries| ==> entries[i].key != "_processed" && ElementClean(entries[i].edit)
  }

  predicate MethodsClean(entries: seq<MethodEntry>) {
    forall i :: 0 <= i < |entries| ==> entries[i].key != "_processed" && MethodValueClean(entries[i].value)
  }

  predicate SideClean(g: EventGroupOverrides) {
    && (g.listening.Some? ==> ElementsClean(g.listening.value))
    && (g.triggerable.Some? ==> ElementsClean(g.triggerable.value))
  }

  /** No override is keyed `_processed`. */
  predicate OverridesClean(o: Overrides) {
    && (o.systemMethods.Some? ==> MethodsClean(o.systemMethods.value))
    && (o.component.Some? ==> ElementsClean(o.component.value))
    && (o.event.Some? && o.event.value.client.Some? ==> SideClean(o.event.value.client.value))
    && (o.event.Some? && o.event.value.server.Some? ==> SideClean(o.event.value.server.value))
  }
}

/** The auditor's verdict on the override file, in terms of the typed overrides. */
module ReportFacts {
  import opened Types
  import opened OverrideFile
  import opened Audit
  import opened AuditFacts
  import opened Report

  lemma {:induction false} LookupAppend(a: seq<Prop>, b: seq<Prop>, key: string)
    ensures Lookup(a + b, key) == if Lookup(a, key).Some? then Lookup(a, key) else Lookup(b, key)
  {
    if a == [] {
      assert a + b == b;
    } else {
      assert (a + b)[1..] == a[1..] + b;
      LookupAppend(a[1..], b, key);
    }
  }

  lemma PropsWellFormedAppend(a: seq<Prop>, b: seq<Prop>)
    ensures PropsWellFormed(a + b) == (PropsWellFormed(a) && PropsWellFormed(b))
  {
    if PropsWellFormed(a + b) {
      assert forall i :: 0 <= i < |a| ==> (a + b)[i] == a[i];
      forall i | 0 <= i < |b|
        ensures (b[i].key == "_processed" ==> !IsContainer(b[i].value)) && WellFormed(b[i].value)
      {
        assert (a + b)[|a| + i] == b[i];
      }
    }
  }

  lemma Single(p: Prop)
    ensures PropsConsumed([p]) == (ProcessedOk(p.value) && Consumed(p.value))
    ensures PropsWellFormed([p]) == ((p.key == "_processed" ==> !IsContainer(p.value)) && WellFormed(p.value))
  {
    assert [p][0] == p;
  }

  lemma StringsAudit(s: seq<string>)
    ensures Consumed(JArr(Strings(s))) && WellFormed(JArr(Strings(s)))
  {
  }

  /** Bookkeeping never blocks the audit, and its `_processed` is the entry's flag. */
  lemma TrackPropsAudit(t: Tracking)
    ensures PropsConsumed(TrackProps(t)) && PropsWellFormed(TrackProps(t))
    ensures Lookup(TrackProps(t), "_processed") == if t.processed.Some? then Some(JBool(t.processed.value)) else None
  {
    var flag := BoolAttr("_processed", t.processed);
    var issues := if t.issues.Some? then [Prop("_issues", JArr(Strings(t.issues.value)))] else [];
    PropsConsumedAppend(flag, issues);
    PropsWellFormedAppend(flag, issues);
    LookupAppend(flag, issues, "_processed");
    if t.issues.Some? {
      StringsAudit(t.issues.value);
      Single(issues[0]);
    }
  }

  lemma ScalarsAudit(s: seq<Prop>)
    requires Scalars(s)
    ensures PropsConsumed(s) && PropsWellFormed(s) && Lookup(s, "_processed").None?
  {
  }

  /** The shape shared by every override record. */
  lemma TrackedObject(t: Tracking, scalars: seq<Prop>, children: seq<Prop>)
    requires Scalars(scalars)
    requires forall k :: 0 <= k < |children| ==> children[k].key != "_processed"
    ensures ProcessedOf(JObj(scalars + children + TrackProps(t)))
              == if t.processed.Some? then Some(JBool(t.processed.value)) else None
    ensures ProcessedOk(JObj(scalars + children + TrackProps(t))) == Settled(t)
    ensures Consumed(JObj(scalars + children + TrackProps(t))) == PropsConsumed(children)
    ensures WellFormed(JObj(scalars + children + TrackProps(t))) == PropsWellFormed(children)
  {
    var head := scalars + children;
    TrackPropsAudit(t);
    ScalarsAudit(scalars);
    PropsConsumedAppend(scalars, children);
    PropsConsumedAppend(head, TrackProps(t));
    PropsWellFormedAppend(scalars, children);
    PropsWellFormedAppend(head, TrackProps(t));
    LookupAppend(scalars, children, "_processed");
    LookupAppend(head, TrackProps(t), "_processed");
  }

  // ---- Field and type overrides.

  lemma {:induction false} FieldAudit(f: FieldOverride)
    requires FieldClean(f)
    ensures (ProcessedOk(FieldJson(f)) && Consumed(FieldJson(f))) == FieldDone(f)
    ensures WellFormed(FieldJson(f))
    decreases f, 1
  {
    TrackedObject(f.track, FieldScalars(f), TypeAttr(f.typ));
    if f.typ.Some? {
      TypeAudit(f.typ.value);
      Single(Prop("type", TypeJson(f.typ.value)));
    }
  }

  lemma {:induction false} TypeAudit(t: TypeOverride)
    requires TypeClean(t)
    ensures (ProcessedOk(TypeJson(t)) && Consumed(TypeJson(t))) == TypeDone(t)
    ensures WellFormed(TypeJson(t))
    decreases t, 1
  {
    match t {
      case LeafOverride(_) =>
      case UnionOverride(names) => StringsAudit(names);
      case FieldsOverride(entries) => FieldPropsAudit(entries);
    }
  }

  lemma {:induction false} FieldPropsAudit(entries: seq<FieldEntry>)
    requires forall i :: 0 <= i < |entries| ==> entries[i].key != "_processed" && FieldClean(entries[i].edit)
    ensures PropsConsumed(FieldProps(entries)) == (forall i :: 0 <= i < |entries| ==> FieldDone(entries[i].edit))
    ensures PropsWellFormed(FieldProps(entries))
    ensures Lookup(FieldProps(entries), "_processed").None?
    decreases entries, 0
  {
    forall i | 0 <= i < |entries|
      ensures (ProcessedOk(FieldJson(entries[i].edit)) && Consumed(FieldJson(entries[i].edit))) == FieldDone(entries[i].edit)
      ensures WellFormed(FieldJson(entries[i].edit))
    {
      FieldAudit(entries[i].edit);
    }
  }

  // ---- Components and events.

  lemma ElementAudit(o: ElementOverride)
    requires ElementClean(o)
    ensures (ProcessedOk(ElementJson(o)) && Consumed(ElementJson(o))) == ElementDone(o)
    ensures WellFormed(ElementJson(o))
  {
    TrackedObject(o.track, ElementScalars(o), TypeAttr(o.typ));
    if o.typ.Some? {
      TypeAudit(o.typ.value);
      Single(Prop("type", TypeJson(o.typ.value)));
    }
  }

  /** The audit of one group of component or event overrides. */
  lemma ElementGroupAudit(entries: seq<ElementEntry>)
    requires ElementsClean(entries)
    ensures Consumed(JObj(ElementProps(entries))) == ElementsDone(entries)
    ensures WellFormed(JObj(ElementProps(entries)))
  {
    forall i | 0 <= i < |entries|
      ensures (ProcessedOk(ElementJson(entries[i].edit)) && Consumed(ElementJson(entries[i].edit))) == ElementDone(entries[i].edit)
      ensures WellFormed(ElementJson(entries[i].edit))
    {
      ElementAudit(entries[i].edit);
    }
  }

  // ---- Return types.

  lemma ReturnAudit(o: ReturnOverride)
    requires ReturnClean(o)
    ensures (ProcessedOk(ReturnJson(o)) && Consumed(ReturnJson(o))) == ReturnDone(o)
    ensures WellFormed(ReturnJson(o))
  {
    var children := if o.typ.Some? then [Prop("type", FieldJson(o.typ.value))] else [];
    TrackedObject(o.track, ReturnScalars(o), children);
    if o.typ.Some? {
      FieldAudit(o.typ.value);
      Single(children[0]);
    }
  }

  lemma ReturnItemAudit(item: ReturnItem)
    requires ReturnItemClean(item)
    ensures (ProcessedOk(ReturnItemJson(item)) && Consumed(ReturnItemJson(item))) == ReturnItemDone(item)
    ensures WellFormed(ReturnItemJson(item))
  {
    ReturnAudit(item.edit);
    match item {
      case ReturnSelector(criteria, o, track) =>
        var children := [Prop("override", ReturnJson(o))];
        TrackedObject(track, [Prop("findByType", JStr(criteria))], children);
        Single(children[0]);
      case PlainReturn(_) =>
    }
  }

  // ---- System methods.

  lemma ParametersAudit(o: MethodOverride)
    requires o.parameters.Some? ==> TypeClean(FieldsOverride(o.parameters.value))
    ensures PropsConsumed(ParametersAttr(o))
              == (o.parameters.Some? ==> forall i :: 0 <= i < |o.parameters.value| ==> FieldDone(o.parameters.value[i].edit))
    ensures PropsWellFormed(ParametersAttr(o))
  {
    if o.parameters.Some? {
      TypeAudit(FieldsOverride(o.parameters.value));
      Single(ParametersAttr(o)[0]);
    }
  }

  lemma ReturnTypesAudit(o: MethodOverride)
    requires o.returnTypes.Some? ==> forall i :: 0 <= i < |o.returnTypes.value| ==> ReturnItemClean(o.returnTypes.value[i])
    ensures PropsConsumed(ReturnTypesAttr(o))
              == (o.returnTypes.Some? ==> forall i :: 0 <= i < |o.returnTypes.value| ==> ReturnItemDone(o.returnTypes.value[i]))
    ensures PropsWellFormed(ReturnTypesAttr(o))
  {
    if o.returnTypes.Some? {
      var items := o.returnTypes.value;
      forall i | 0 <= i < |items|
        ensures (ProcessedOk(ReturnItemJson(items[i])) && Consumed(ReturnItemJson(items[i]))) == ReturnItemDone(items[i])
        ensures WellFormed(ReturnItemJson(items[i]))
      {
        ReturnItemAudit(items[i]);
      }
      Single(ReturnTypesAttr(o)[0]);
    }
  }

  lemma MethodAudit(o: MethodOverride)
    requires MethodClean(o)
    ensures (ProcessedOk(MethodJson(o)) && Consumed(MethodJson(o))) == MethodDone(o)
    ensures WellFormed(MethodJson(o))
  {
    var params := ParametersAttr(o);
    var rts := ReturnTypesAttr(o);
    TrackedObject(o.track, MethodScalars(o), params + rts);
    PropsConsumedAppend(params, rts);
    PropsWellFormedAppend(params, rts);
    ParametersAudit(o);
    ReturnTypesAudit(o);
  }

  lemma MethodItemAudit(item: MethodItem)
    requires MethodClean(item.edit)
    ensures (ProcessedOk(MethodItemJson(item)) && Consumed(MethodItemJson(item))) == MethodItemDone(item)
    ensures WellFormed(MethodItemJson(item))
  {
    MethodAudit(item.edit);
    match item {
      case Plain(_) =>
      case Selector(selector, o, track) =>
        var a := Prop("findByParameters", JArr(Strings(selector)));
        var b := Prop("override", MethodJson(o));
        TrackedObject(track, [], [a, b]);
        assert [a, b] == [a] + [b];
        PropsConsumedAppend([a], [b]);
        PropsWellFormedAppend([a], [b]);
        Single(a);
        Single(b);
        StringsAudit(selector);
    }
  }

  lemma MethodValueAudit(v: MethodValue)
    requires MethodValueClean(v)
    ensures (ProcessedOk(MethodValueJson(v)) && Consumed(MethodValueJson(v))) == MethodValueDone(v)
    ensures WellFormed(MethodValueJson(v))
  {
    match v
    case One(item) =>
      assert MethodClean(v.Items()[0].edit);
      MethodItemAudit(item);
      assert v.Items() == [item];
    case Many(items) =>
      assert v.Items() == items;
      MethodItemsAudit(items);
  }

  /** A list of overloads under one name: an array, audited item by item. */
  lemma MethodItemsAudit(items: seq<MethodItem>)
    requires forall i :: 0 <= i < |items| ==> MethodClean(items[i].edit)
    ensures (ProcessedOk(JArr(MethodItems(items))) && Consumed(JArr(MethodItems(items)))) ==
            (forall i :: 0 <= i < |items| ==> MethodItemDone(items[i]))
    ensures WellFormed(JArr(MethodItems(items)))
  {
    var js := MethodItems(items);
    var ok := seq(|items|, i requires 0 <= i < |items| => MethodItemDone(items[i]));
    forall i | 0 <= i < |items|
      ensures (ProcessedOk(js[i]) && Consumed(js[i])) == ok[i]
      ensures WellFormed(js[i])
    {
      MethodItemAudit(items[i]);
    }
    ArrayAudit(js, ok);
  }

  /** An array is settled and consumed exactly when each of its items is. */
  lemma ArrayAudit(js: seq<Json>, ok: seq<bool>)
    requires |js| == |ok|
    requires forall i :: 0 <= i < |js| ==> (ProcessedOk(js[i]) && Consumed(js[i])) == ok[i]
    requires forall i :: 0 <= i < |js| ==> WellFormed(js[i])
    ensures (ProcessedOk(JArr(js)) && Consumed(JArr(js))) == (forall i :: 0 <= i < |ok| ==> ok[i])
    ensures WellFormed(JArr(js))
  {
    assert ProcessedOk(JArr(js));
  }

  /** The audit of the system-method overrides. */
  lemma MethodGroupAudit(entries: seq<MethodEntry>)
    requires MethodsClean(entries)
    ensures Consumed(JObj(MethodProps(entries))) == MethodsDone(entries)
    ensures WellFormed(JObj(MethodProps(entries)))
  {
    forall i | 0 <= i < |entries|
      ensures (ProcessedOk(MethodValueJson(entries[i].value)) && Consumed(MethodValueJson(entries[i].value)))
                == MethodValueDone(entries[i].value)
      ensures WellFormed(MethodValueJson(entries[i].value))
    {
      MethodValueAudit(entries[i].value);
    }
  }
}

/** The consequence of the return-selector bookkeeping for the audit. */
module ReturnReportFacts {
  import opened Types
  import opened OverrideFile
  import opened Audit
  import opened Report
  import opened ReportFacts
  import opened ReturnPatch
  import opened ReturnPatchFacts

  /** As written, a return-type selector is left at `_processed = false` whether or not
      it found its target, so the audit flags every one of them. */
  lemma SelectorFlaggedAsWritten(rts: seq<ReturnedType>, criteria: string, o: ReturnOverride, track: Tracking)
    ensures !ProcessedOk(ReturnItemJson(ReturnStepAsWritten(rts, ReturnSelector(criteria, o, track)).1))
  {
    var item := ReturnStepAsWritten(rts, ReturnSelector(criteria, o, track)).1;
    TrackedObject(item.track, [Prop("findByType", JStr(criteria))], [Prop("override", ReturnJson(item.edit))]);
  }

  /** With the correction, the audit flags a return-type selector exactly when it found
      no target. */
  lemma SelectorFlaggedWhenNotFound(rts: seq<ReturnedType>, criteria: string, o: ReturnOverride, track: Tracking)
    ensures ProcessedOk(ReturnItemJson(ReturnStep(rts, ReturnSelector(criteria, o, track)).1)) <==>
              exists k :: 0 <= k < |rts| && FindByType(rts[k].typ, criteria)
  {
    var item := ReturnStep(rts, ReturnSelector(criteria, o, track)).1;
    SelectorProcessedWhenFound(rts, criteria, o, track);
    assert item.track.processed.Some?;
    TrackedObject(item.track, [Prop("findByType", JStr(criteria))], [Prop("override", ReturnJson(item.edit))]);
  }
}
