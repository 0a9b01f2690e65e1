/** The patcher of a method's return types (`overrideReturnType`): each selector picks
    the first returned type matching its `findByType` criterion and removes or changes
    it. A `type` edit is applied through a temporary object type with a single field
    named "return". */
module ReturnPatch {
  import opened Types
  import opened OverrideFile
  import opened TypePatch

  /** `findByType`: an array type matches on its original label, any other type only
      when it is the leaf with exactly that name. */
  predicate FindByType(t: Type, criteria: string) {
    if t.ArrayType? then t.originalType == Some(criteria) else t == Leaf(criteria)
  }

  function MatchesType(criteria: string): ReturnedType -> bool {
    (rt: ReturnedType) => FindByType(rt.typ, criteria)
  }

  /** The temporary object type that carries a returned type through the field patcher. */
  function ReturnCarrier(description: string, value: Option<string>, inner: Type): (r: Type)
    ensures r.ObjectType? && |r.fields| == 1 && r.fields[0].name == "return" && r.fields[0].typ == inner
  {
    ObjectType([Field("return", description, None, value, inner)])
  }

  /** The type read back from the patched carrier: the type of its "return" field, or
      the whole carrier when no field is named "return" any more. */
  function ReadBack(carrier: Type): Type {
    if carrier.ObjectType? then
      match FirstIndex(carrier.fields, Named("return"))
      case Some(i) => carrier.fields[i].typ
      case None => carrier
    else carrier
  }

  /** A `change` of one returned type: the description, the value (replaced, even by
      undefined, whenever `isArray` is defined) and, when a `type` edit is given, the
      type under the array unwrap rule. Also returns the annotated `type` edit. */
  function ChangeReturn(rt: ReturnedType, o: ReturnOverride): (ReturnedType, Option<FieldOverride>) {
    var description := o.description.GetOr(rt.description);
    var value := if o.isArray.Some? then o.value else rt.value;
    if o.typ.None? then (ReturnedType(rt.typ, value, description), o.typ)
    else
      var u := Unwrap(rt.typ, o.isArray);
      var carrier := ReturnCarrier(description, value, u.inner);
      var (fields, done) := PatchField(carrier.fields, FieldEntry("return", o.typ.value));
      (ReturnedType(Rewrap(u, ReadBack(ObjectType(fields))), value, description), Some(done.edit))
  }

  /** What a selector does to the list and to its inner override, and whether it found
      a target. Operations other than `remove` and `change` are ignored, without an issue. */
  function SelectReturn(rts: seq<ReturnedType>, criteria: string, o: ReturnOverride)
    : (seq<ReturnedType>, ReturnOverride, bool)
  {
    match FirstIndex(rts, MatchesType(criteria))
    case None => (rts, o, false)
    case Some(i) =>
      if o.operation == Some("remove") then
        (RemoveAt(rts, i), o.(track := o.track.Mark(true)), true)
      else if o.operation == None || o.operation == Some("change") then
        var (changed, sub) := ChangeReturn(rts[i], o);
        (rts[i := changed], o.(typ := sub, track := o.track.Mark(true)), true)
      else
        (rts, o, true)
  }

  function TargetNotFoundMessage(criteria: string): string {
    "could not find a target return type of " + criteria
  }

  /** One element of `returnTypes` as the code is written: the selector's own
      `_processed` is set to false and never to true. */
  function ReturnStepAsWritten(rts: seq<ReturnedType>, item: ReturnItem): (seq<ReturnedType>, ReturnItem) {
    match item
    case PlainReturn(_) => (rts, item)
    case ReturnSelector(criteria, o, _) =>
      var (r, o', found) := SelectReturn(rts, criteria, o);
      (r, ReturnSelector(criteria, o', if found then Started else Started.Note(TargetNotFoundMessage(criteria))))
  }

  /** One element of `returnTypes` as evidently intended: a selector that found its
      target is marked processed, as a method selector is. */
  function ReturnStep(rts: seq<ReturnedType>, item: ReturnItem): (seq<ReturnedType>, ReturnItem) {
    match item
    case PlainReturn(_) => (rts, item)
    case ReturnSelector(criteria, o, _) =>
      var (r, o', found) := SelectReturn(rts, criteria, o);
      (r, ReturnSelector(criteria, o', if found then Started.Mark(true) else Started.Note(TargetNotFoundMessage(criteria))))
  }

  function ReturnSteps(rts: seq<ReturnedType>, items: seq<ReturnItem>): (seq<ReturnedType>, seq<ReturnItem>) {
    if items == [] then (rts, [])
    else
      var (before, done) := ReturnSteps(rts, items[..|items| - 1]);
      var (after, last) := ReturnStep(before, items[|items| - 1]);
      (after, done + [last])
  }

  /** `overrideReturnType` (src/overrides.ts:464-547): the `returnTypes` items in order,
      each applied to the list the previous one left. */
  function OverrideReturns(rts: seq<ReturnedType>, items: Option<seq<ReturnItem>>)
    : (seq<ReturnedType>, Option<seq<ReturnItem>>)
  {
    if items.None? then (rts, items)
    else
      var (r, done) := ReturnSteps(rts, items.value);
      (r, Some(done))
  }

  /** Applying a single field entry to an object type is one step of the field patcher. */
  lemma SingleEntryOverride(t: Type, entry: FieldEntry)
    requires t.ObjectType?
    ensures OverrideType(t, Some(FieldsOverride([entry])))
              == (ObjectType(PatchField(t.fields, entry).0), Some(FieldsOverride([PatchField(t.fields, entry).1])))
  {
    var entries := [entry];
    assert entries[..0] == [];
    var none: seq<FieldEntry> := [];
    assert none + [PatchField(t.fields, entry).1] == [PatchField(t.fields, entry).1];
    assert PatchFields(t.fields, entries[..0]) == (t.fields, none);
    assert PatchFields(t.fields, entries) == (PatchField(t.fields, entry).0, [PatchField(t.fields, entry).1]);
  }

  method OverrideReturnType(returnTypes: seq<ReturnedType>, overrideDefinition: Option<seq<ReturnItem>>)
    returns (targetReturnTypes: seq<ReturnedType>, annotated: Option<seq<ReturnItem>>)
    ensures (targetReturnTypes, annotated) == OverrideReturns(returnTypes, overrideDefinition)
  {
    targetReturnTypes := returnTypes;
    if overrideDefinition.None? {
      return targetReturnTypes, overrideDefinition;
    }
    var items := overrideDefinition.value;
    var done: seq<ReturnItem> := [];
    var i := 0;
    while i < |items|
      invariant 0 <= i <= |items|
      invariant (targetReturnTypes, done) == ReturnSteps(returnTypes, items[..i])
    {
      assert items[..i + 1][..i] == items[..i];
      var item;
      targetReturnTypes, item := OverrideReturnItem(targetReturnTypes, items[i]);
      done := done + [item];
      i := i + 1;
    }
    assert items[..i] == items;
    annotated := Some(done);
  }

  /** One element of `returnTypes`: a selector looks up its target and applies its
      inner override to it. */
  method OverrideReturnItem(targetReturnTypes: seq<ReturnedType>, item: ReturnItem)
    returns (result: seq<ReturnedType>, annotated: ReturnItem)
    ensures (result, annotated) == ReturnStep(targetReturnTypes, item)
  {
    result, annotated := targetReturnTypes, item;
    if item.ReturnSelector? {
      var selectorTrack := Started;
      var o := item.edit;
      var found := FirstIndex(targetReturnTypes, MatchesType(item.findByType));
      if found.None? {
        selectorTrack := selectorTrack.Note(TargetNotFoundMessage(item.findByType));
      } else {
        selectorTrack := selectorTrack.Mark(true);
        var k := found.value;
        if o.operation == Some("remove") {
          result := RemoveAt(targetReturnTypes, k);
          o := o.(track := o.track.Mark(true));
        } else if o.operation == None || o.operation == Some("change") {
          var target, sub := ChangeReturnType(targetReturnTypes[k], o);
          result := targetReturnTypes[k := target];
          o := o.(typ := sub, track := o.track.Mark(true));
        }
      }
      annotated := ReturnSelector(item.findByType, o, selectorTrack);
    }
  }

  /** A `change` of one returned type, with a `type` edit applied through the carrier. */
  method ChangeReturnType(original: ReturnedType, o: ReturnOverride)
    returns (target: ReturnedType, sub: Option<FieldOverride>)
    ensures (target, sub) == ChangeReturn(original, o)
  {
    target := original;
    sub := o.typ;
    if o.description.Some? {
      target := target.(description := o.description.value);
    }
    if o.isArray.Some? {
      target := target.(value := o.value);
    }
    if o.typ.Some? {
      var convertToArray := o.isArray;
      var originalArrayType: Option<string> := None;
      if target.typ.ArrayType? {
        originalArrayType := target.typ.originalType;
        target := target.(typ := target.typ.elem);
        convertToArray := if convertToArray.None? then Some(true) else convertToArray;
      }
      var tempType := ReturnCarrier(target.description, target.value, target.typ);
      var tempOverride := FieldsOverride([FieldEntry("return", o.typ.value)]);
      SingleEntryOverride(tempType, FieldEntry("return", o.typ.value));
      var t, edited := OverrideTypeDefinition(tempType, Some(tempOverride));
      t := ReadBack(t);
      if IsTrue(convertToArray) {
        t := ArrayType(t, originalArrayType);
      }
      target := target.(typ := t);
      sub := Some(edited.value.entries[0].edit);
    }
  }
}

/** Properties of the return-type patcher. */
module ReturnPatchFacts {
  import opened Types
  import opened OverrideFile
  import opened TypePatch
  import opened ReturnPatch

  /** An element of `returnTypes` without `findByType` is skipped entirely. */
  lemma PlainReturnSkipped(rts: seq<ReturnedType>, o: ReturnOverride)
    ensures ReturnStep(rts, PlainReturn(o)) == (rts, PlainReturn(o))
  {
  }

  /** A selector that matches nothing changes nothing and records one issue on the
      selector; its inner override is not touched. */
  lemma ReturnNotFound(rts: seq<ReturnedType>, criteria: string, o: ReturnOverride, track: Tracking)
    requires forall k :: 0 <= k < |rts| ==> !FindByType(rts[k].typ, criteria)
    ensures ReturnStep(rts, ReturnSelector(criteria, o, track))
              == (rts, ReturnSelector(criteria, o, Tracking(Some(false), Some([TargetNotFoundMessage(criteria)]))))
  {
    assert FirstIndex(rts, MatchesType(criteria)).None?;
  }

  /** `remove` drops exactly the first returned type matching the criterion. */
  lemma ReturnRemove(rts: seq<ReturnedType>, criteria: string, o: ReturnOverride, track: Tracking, i: nat)
    requires o.operation == Some("remove")
    requires i < |rts| && FindByType(rts[i].typ, criteria)
    requires forall k :: 0 <= k < i ==> !FindByType(rts[k].typ, criteria)
    ensures ReturnStep(rts, ReturnSelector(criteria, o, track))
              == (rts[..i] + rts[i + 1..], ReturnSelector(criteria, o.(track := o.track.Mark(true)), Tracking(Some(true), Some([]))))
  {
    var found := FirstIndex(rts, MatchesType(criteria));
    assert MatchesType(criteria)(rts[i]);
    assert found.Some? && found.value == i;
  }

  /** `change` sets the description when given, and replaces the value by the
      override's `value`, even an undefined one, exactly when `isArray` is defined. */
  lemma ReturnChangeValue(rt: ReturnedType, o: ReturnOverride)
    ensures var pair := ChangeReturn(rt, o);
            var r := pair.0;
            && r.description == o.description.GetOr(rt.description)
            && r.value == (if o.isArray.Some? then o.value else rt.value)
            && (o.typ.None? ==> r.typ == rt.typ)
  {
  }

  /** A `type` edit that changes the "return" field without renaming it is the field
      patcher's change applied under two array unwrap rules, the returned type's and
      the field's; its description and default value are discarded with the carrier. */
  lemma ReturnTypeChange(rt: ReturnedType, o: ReturnOverride, fo: FieldOverride)
    requires o.typ == Some(fo) && IsChange(fo.operation) && fo.name.None?
    ensures var pair := ChangeReturn(rt, o);
            var r := pair.0;
            var sub := pair.1;
            var u := Unwrap(rt.typ, o.isArray);
            var u2 := Unwrap(u.inner, fo.isArray);
            && r.typ == Rewrap(u, Rewrap(u2, OverrideType(u2.inner, fo.typ).0))
            && r.description == o.description.GetOr(rt.description)
            && r.value == (if o.isArray.Some? then o.value else rt.value)
            && sub == Some(fo.(typ := OverrideType(u2.inner, fo.typ).1, track := Tracking(Some(true), Some([]))))
  {
    var u := Unwrap(rt.typ, o.isArray);
    var carrier := ReturnCarrier(o.description.GetOr(rt.description), if o.isArray.Some? then o.value else rt.value, u.inner);
    assert FirstIndex(carrier.fields, Named("return")) == Some(0);
    assert PatchField(carrier.fields, FieldEntry("return", fo)) == ChangeField(carrier.fields, FieldEntry("return", fo));
    var (fields, _) := PatchField(carrier.fields, FieldEntry("return", fo));
    assert |fields| == 1 && fields[0].name == "return";
    assert FirstIndex(fields, Named("return")) == Some(0);
  }

  /** A `type` edit that renames the "return" field leaves nothing to read back: the
      returned type becomes the whole one-field carrier object. */
  lemma ReturnTypeRenamed(rt: ReturnedType, o: ReturnOverride, fo: FieldOverride, name: string)
    requires o.typ == Some(fo) && IsChange(fo.operation) && fo.name == Some(name) && name != "return"
    ensures var pair := ChangeReturn(rt, o);
            var r := pair.0;
            var u := Unwrap(rt.typ, o.isArray);
            var carried := if u.wrap then r.typ.elem else r.typ;
            && (u.wrap ==> r.typ.ArrayType?)
            && carried.ObjectType? && |carried.fields| == 1 && carried.fields[0].name == name
  {
    var u := Unwrap(rt.typ, o.isArray);
    var carrier := ReturnCarrier(o.description.GetOr(rt.description), if o.isArray.Some? then o.value else rt.value, u.inner);
    assert FirstIndex(carrier.fields, Named("return")) == Some(0);
    assert PatchField(carrier.fields, FieldEntry("return", fo)) == ChangeField(carrier.fields, FieldEntry("return", fo));
    var (fields, _) := PatchField(carrier.fields, FieldEntry("return", fo));
    assert |fields| == 1 && fields[0].name == name;
    assert FirstIndex(fields, Named("return")).None? by {
      assert !Named("return")(fields[0]);
    }
  }

  /** Operations other than `remove` and `change` leave the list and the inner override
      as they were, without an issue. */
  lemma ReturnOtherOperationIgnored(rts: seq<ReturnedType>, criteria: string, o: ReturnOverride, track: Tracking)
    requires o.operation.Some? && o.operation.value != "remove" && o.operation.value != "change"
    ensures var pair := ReturnStep(rts, ReturnSelector(criteria, o, track));
            var r := pair.0;
            var item := pair.1;
            r == rts && item.edit == o
  {
  }

  /** As written, a return-type selector is never marked processed, whether or not it
      found its target. */
  lemma SelectorNeverProcessedAsWritten(rts: seq<ReturnedType>, criteria: string, o: ReturnOverride, track: Tracking)
    ensures IsFalse(ReturnStepAsWritten(rts, ReturnSelector(criteria, o, track)).1.track.processed)
  {
  }

  /** The corrected step differs from the code as written only in the selector's own
      bookkeeping, and marks the selector processed exactly when it found a target. */
  lemma SelectorProcessedWhenFound(rts: seq<ReturnedType>, criteria: string, o: ReturnOverride, track: Tracking)
    ensures var pair := ReturnStep(rts, ReturnSelector(criteria, o, track));
            var r := pair.0;
            var item := pair.1;
            var (r', item') := ReturnStepAsWritten(rts, ReturnSelector(criteria, o, track));
            && r == r' && item.edit == item'.edit
            && (IsTrue(item.track.processed) <==> exists k :: 0 <= k < |rts| && FindByType(rts[k].typ, criteria))
  {
    if exists k :: 0 <= k < |rts| && FindByType(rts[k].typ, criteria) {
      var k :| 0 <= k < |rts| && FindByType(rts[k].typ, criteria);
      assert MatchesType(criteria)(rts[k]);
    }
  }

  /** An array return type labelled "list" selected by that label and given the leaf
      "number" keeps its array-ness and its label. */
  lemma ListReturnExample()
    ensures var rt := ReturnedType(ArrayType(Leaf("string"), Some("list")), None, "the entities");
            var fo := FieldOverride(None, None, None, None, None, None, Some(LeafOverride("number")), Tracking(None, None));
            var o := ReturnOverride(None, None, None, None, Some(fo), Tracking(None, None));
            ReturnStep([rt], ReturnSelector("list", o, Tracking(None, None))).0
              == [rt.(typ := ArrayType(Leaf("number"), Some("list")))]
  {
    var rt := ReturnedType(ArrayType(Leaf("string"), Some("list")), None, "the entities");
    var fo := FieldOverride(None, None, None, None, None, None, Some(LeafOverride("number")), Tracking(None, None));
    var o := ReturnOverride(None, None, None, None, Some(fo), Tracking(None, None));
    ReturnTypeChange(rt, o, fo);
    assert FirstIndex([rt], MatchesType("list")) == Some(0);
  }
}
