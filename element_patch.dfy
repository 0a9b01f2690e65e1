/** The patcher of components and events (`overrideTopLevelElement`): applies a map of
    element overrides, keyed by element name, to a list of elements. */
module ElementPatch {
  import opened Types
  import opened OverrideFile
  import opened TypePatch

  function ElementNamed(name: string): Element -> bool {
    (e: Element) => e.name == name
  }

  function ElementNotNamed(name: string): Element -> bool {
    (e: Element) => e.name != name
  }

  predicate HasElement(elements: seq<Element>, name: string) {
    FirstIndex(elements, ElementNamed(name)).Some?
  }

  /** JavaScript truthiness of an element's optional type: undefined and "" are falsy. */
  predicate PresentElementType(t: Option<Type>) {
    t.Some? && t.value != Leaf("")
  }

  /** The type of an element after a `type` edit. The target is the element's type, or
      "any" when it has none; an array-typed target is patched through its element type
      and re-wrapped under the array unwrap rule. */
  function RetypeElement(typ: Option<Type>, o: ElementOverride): (Type, Option<TypeOverride>) {
    var u := Unwrap(OrAny(typ), o.isArray);
    var (t, sub) := OverrideType(OrAny(Some(u.inner)), o.typ);
    (Rewrap(u, t), sub)
  }

  /** An `add` entry: rejected, with every reason recorded, when the description is
      missing or an element of that name exists; otherwise an element of type `any`,
      patched, is appended. */
  function AddElement(elements: seq<Element>, entry: ElementEntry): (seq<Element>, ElementEntry) {
    var name := entry.key;
    var o := entry.edit;
    var missing := !Present(o.description);
    var duplicate := HasElement(elements, name);
    var t1 := if missing then Started.Note("Description must be provided for element being added: " + name) else Started;
    var t2 := if duplicate then t1.Note("An element with the name \"" + name + "\" already exists") else t1;
    if missing || duplicate then
      (elements, ElementEntry(name, o.(track := t2)))
    else
      var (t, sub) := OverrideType(Leaf("any"), o.typ);
      var added := Element(name, o.description.value, Some(if IsTrue(o.isArray) then ArrayType(t, None) else t));
      (elements + [added], ElementEntry(name, o.(typ := sub, track := t2.Mark(true))))
  }

  /** A `change` entry, or one without an operation: the first element of that name is
      renamed, described and retyped as the entry says. */
  function ChangeElement(elements: seq<Element>, entry: ElementEntry): (seq<Element>, ElementEntry) {
    var name := entry.key;
    var o := entry.edit;
    match FirstIndex(elements, ElementNamed(name))
    case None =>
      (elements, ElementEntry(name, o.(track := Started.Note("Could not find an element with the name " + name))))
    case Some(i) =>
      var e := elements[i];
      var renamed := e.(name := o.name.GetOr(e.name), description := o.description.GetOr(e.description));
      if o.typ.None? then
        (elements[i := renamed], ElementEntry(name, o.(track := Started.Mark(true))))
      else
        var (t, sub) := RetypeElement(e.typ, o);
        (elements[i := renamed.(typ := Some(t))], ElementEntry(name, o.(typ := sub, track := Started.Mark(true))))
  }

  /** One element-override entry. */
  function PatchElement(elements: seq<Element>, entry: ElementEntry): (seq<Element>, ElementEntry) {
    var name := entry.key;
    var o := entry.edit;
    if o.operation == Some("discuss") then
      (elements, ElementEntry(name, o.(track := Started.Note(DiscussMessage))))
    else if o.operation == Some("add") then
      AddElement(elements, entry)
    else if o.operation == Some("remove") then
      if !HasElement(elements, name) then
        (elements, ElementEntry(name, o.(track := Started.Note("Attempted to remove an element with the name \"" + Show(o.name) + "\" but it did not exist"))))
      else
        (Keep(elements, ElementNotNamed(name)), ElementEntry(name, o.(track := Started.Mark(true))))
    else if IsChange(o.operation) then
      ChangeElement(elements, entry)
    else
      var track := Started.Note("Unexpected operation " + o.operation.value + " for element " + Show(o.name));
      var found := FirstIndex(elements, ElementNamed(name));
      if PresentType(o.typ) && found.Some? then
        var i := found.value;
        if PresentElementType(elements[i].typ) then
          var (t, sub) := OverrideType(elements[i].typ.value, o.typ);
          (elements[i := elements[i].(typ := Some(t))], ElementEntry(name, o.(typ := sub, track := track)))
        else
          (elements[i := elements[i].(typ := None)], ElementEntry(name, o.(track := track)))
      else
        (elements, ElementEntry(name, o.(track := track)))
  }

  /** The entries applied in order, each to the list the previous ones left. */
  function PatchElements(elements: seq<Element>, entries: seq<ElementEntry>): (seq<Element>, seq<ElementEntry>) {
    if entries == [] then (elements, [])
    else
      var (before, done) := PatchElements(elements, entries[..|entries| - 1]);
      var (after, last) := PatchElement(before, entries[|entries| - 1]);
      (after, done + [last])
  }

  /** `overrideTopLevelElement`: an absent override set leaves the list as it is. */
  function OverrideTopLevel(elements: seq<Element>, overrides: Option<seq<ElementEntry>>)
    : (seq<Element>, Option<seq<ElementEntry>>)
  {
    if overrides.None? then (elements, overrides)
    else
      var (patched, done) := PatchElements(elements, overrides.value);
      (patched, Some(done))
  }

  method OverrideTopLevelElement(originalElements: seq<Element>, overrides: Option<seq<ElementEntry>>)
    returns (elements: seq<Element>, annotated: Option<seq<ElementEntry>>)
    ensures (elements, annotated) == OverrideTopLevel(originalElements, overrides)
  {
    if overrides.None? {
      return originalElements, overrides;
    }
    var entries := overrides.value;
    elements := originalElements;
    var done: seq<ElementEntry> := [];
    var i := 0;
    while i < |entries|
      invariant 0 <= i <= |entries|
      invariant (elements, done) == PatchElements(originalElements, entries[..i])
    {
      assert entries[..i + 1][..i] == entries[..i];
      var last;
      elements, last := PatchTopLevelEntry(elements, entries[i]);
      done := done + [last];
      i := i + 1;
    }
    assert entries[..i] == entries;
    annotated := Some(done);
  }

  /** The body of the loop over the element overrides. */
  method PatchTopLevelEntry(elements: seq<Element>, entry: ElementEntry)
    returns (result: seq<Element>, annotated: ElementEntry)
    ensures (result, annotated) == PatchElement(elements, entry)
  {
    var name := entry.key;
    var o := entry.edit;
    var track := Started;
    result := elements;
    if o.operation == Some("discuss") {
      track := track.Note(DiscussMessage);
    } else if o.operation == Some("add") {
      result, annotated := AddTopLevelEntry(elements, entry);
      return;
    } else if o.operation == Some("remove") {
      if !HasElement(elements, name) {
        track := track.Note("Attempted to remove an element with the name \"" + Show(o.name) + "\" but it did not exist");
      } else {
        result := Keep(elements, ElementNotNamed(name));
        track := track.Mark(true);
      }
    } else if IsChange(o.operation) {
      result, annotated := ChangeTopLevelEntry(elements, entry);
      return;
    } else {
      track := track.Note("Unexpected operation " + o.operation.value + " for element " + Show(o.name));
      var found := FirstIndex(elements, ElementNamed(name));
      if PresentType(o.typ) && found.Some? {
        var target := elements[found.value];
        if !PresentElementType(target.typ) {
          target := target.(typ := None);
        } else {
          var t, sub := OverrideTypeDefinition(target.typ.value, o.typ);
          target := target.(typ := Some(t));
          o := o.(typ := sub);
        }
        result := elements[found.value := target];
      }
    }
    annotated := ElementEntry(name, o.(track := track));
  }

  /** An `add` entry of a top-level override. */
  method AddTopLevelEntry(elements: seq<Element>, entry: ElementEntry)
    returns (result: seq<Element>, annotated: ElementEntry)
    ensures (result, annotated) == AddElement(elements, entry)
  {
    var name := entry.key;
    var o := entry.edit;
    var track := Started;
    result := elements;
    var processed := true;
    if !Present(o.description) {
      track := track.Note("Description must be provided for element being added: " + name);
      processed := false;
    }
    if HasElement(elements, name) {
      track := track.Note("An element with the name \"" + name + "\" already exists");
      processed := false;
    }
    if processed {
      var t, sub := OverrideTypeDefinition(Leaf("any"), o.typ);
      if IsTrue(o.isArray) {
        t := ArrayType(t, None);
      }
      result := elements + [Element(name, o.description.value, Some(t))];
      o := o.(typ := sub);
      track := track.Mark(true);
    }
    annotated := ElementEntry(name, o.(track := track));
  }

  /** A `change` entry (or one without an operation) of a top-level override. */
  method ChangeTopLevelEntry(elements: seq<Element>, entry: ElementEntry)
    returns (result: seq<Element>, annotated: ElementEntry)
    ensures (result, annotated) == ChangeElement(elements, entry)
  {
    var name := entry.key;
    var o := entry.edit;
    var found := FirstIndex(elements, ElementNamed(name));
    if found.None? {
      return elements, ElementEntry(name, o.(track := Started.Note("Could not find an element with the name " + name)));
    }
    var target := elements[found.value];
    if o.name.Some? {
      target := target.(name := o.name.value);
    }
    if o.description.Some? {
      target := target.(description := o.description.value);
    }
    if o.typ.Some? {
      var convertToArray := o.isArray;
      var originalArrayType: Option<string> := None;
      if target.typ.Some? && target.typ.value.ArrayType? {
        originalArrayType := target.typ.value.originalType;
        target := target.(typ := Some(target.typ.value.elem));
        convertToArray := if convertToArray.None? then Some(true) else convertToArray;
      }
      var t, sub := OverrideTypeDefinition(OrAny(target.typ), o.typ);
      if IsTrue(convertToArray) {
        t := ArrayType(t, originalArrayType);
      }
      target := target.(typ := Some(t));
      o := o.(typ := sub);
    }
    result := elements[found.value := target];
    annotated := ElementEntry(name, o.(track := Started.Mark(true)));
  }
}

/** Properties of the element patcher. */
module ElementPatchFacts {
  import opened Types
  import opened OverrideFile
  import opened TypePatch
  import opened ElementPatch

  lemma HasElementExactly(elements: seq<Element>, name: string)
    ensures HasElement(elements, name) <==> exists k :: 0 <= k < |elements| && elements[k].name == name
  {
    if exists k :: 0 <= k < |elements| && elements[k].name == name {
      var k :| 0 <= k < |elements| && elements[k].name == name;
      assert ElementNamed(name)(elements[k]);
    }
  }

  /** An absent override set returns the list unchanged. */
  lemma NoOverrides(elements: seq<Element>)
    ensures OverrideTopLevel(elements, None) == (elements, None)
  {
  }

  /** An element override touches only its own bookkeeping and its nested type
      override, keeps its key, and always leaves `_processed` and `_issues` defined. */
  lemma PatchElementTracks(elements: seq<Element>, entry: ElementEntry)
    ensures var pair := PatchElement(elements, entry);
            var e := pair.1;
            && e.key == entry.key
            && e.edit.(typ := entry.edit.typ, track := entry.edit.track) == entry.edit
            && e.edit.track.processed.Some?
            && e.edit.track.issues.Some?
  {
    var o := entry.edit;
    if o.operation == Some("add") {
      AddElementTracks(elements, entry);
    } else if o.operation != Some("discuss") && o.operation != Some("remove") && IsChange(o.operation) {
      ChangeElementTracks(elements, entry);
    }
  }

  lemma AddElementTracks(elements: seq<Element>, entry: ElementEntry)
    ensures var pair := AddElement(elements, entry);
            var e := pair.1;
            && e.key == entry.key
            && e.edit.(typ := entry.edit.typ, track := entry.edit.track) == entry.edit
            && e.edit.track.processed.Some?
            && e.edit.track.issues.Some?
  {
  }

  lemma ChangeElementTracks(elements: seq<Element>, entry: ElementEntry)
    ensures var pair := ChangeElement(elements, entry);
            var e := pair.1;
            && e.key == entry.key
            && e.edit.(typ := entry.edit.typ, track := entry.edit.track) == entry.edit
            && e.edit.track.processed.Some?
            && e.edit.track.issues.Some?
  {
  }

  /** Every element override is visited, in order. */
  lemma {:induction false} PatchElementsTracksEveryEntry(elements: seq<Element>, entries: seq<ElementEntry>)
    ensures var pair := PatchElements(elements, entries);
            var done := pair.1;
            && |done| == |entries|
            && forall k :: 0 <= k < |entries| ==>
                 done[k].key == entries[k].key && done[k].edit.track.processed.Some?
  {
    if entries != [] {
      var n := |entries| - 1;
      PatchElementsTracksEveryEntry(elements, entries[..n]);
      var (before, _) := PatchElements(elements, entries[..n]);
      PatchElementTracks(before, entries[n]);
    }
  }

  /** `discuss` changes nothing and leaves the entry unprocessed with one issue. */
  lemma ElementDiscuss(elements: seq<Element>, name: string, o: ElementOverride)
    requires o.operation == Some("discuss")
    ensures PatchElement(elements, ElementEntry(name, o))
              == (elements, ElementEntry(name, o.(track := Tracking(Some(false), Some([DiscussMessage])))))
  {
  }

  /** An `add` without a description, or whose key names an existing element, changes
      nothing; the entry stays unprocessed with one issue per failed check. */
  lemma ElementAddRejected(elements: seq<Element>, name: string, o: ElementOverride)
    requires o.operation == Some("add")
    requires !Present(o.description) || exists k :: 0 <= k < |elements| && elements[k].name == name
    ensures var pair := PatchElement(elements, ElementEntry(name, o));
            var r := pair.0;
            var e := pair.1;
            var duplicate := exists k :: 0 <= k < |elements| && elements[k].name == name;
            && r == elements
            && e == ElementEntry(name, o.(track := e.edit.track))
            && IsFalse(e.edit.track.processed)
            && |e.edit.track.IssueList()| == (if Present(o.description) then 0 else 1) + (if duplicate then 1 else 0)
  {
    HasElementExactly(elements, name);
  }

  /** A valid `add` appends exactly one element whose type is derived from "any" and
      wrapped in an array (without a label) when `isArray` is set. */
  lemma ElementAddAppends(elements: seq<Element>, name: string, o: ElementOverride)
    requires o.operation == Some("add") && Present(o.description)
    requires forall k :: 0 <= k < |elements| ==> elements[k].name != name
    ensures var pair := PatchElement(elements, ElementEntry(name, o));
            var r := pair.0;
            var e := pair.1;
            var (t, sub) := OverrideType(Leaf("any"), o.typ);
            && r == elements + [Element(name, o.description.value, Some(if IsTrue(o.isArray) then ArrayType(t, None) else t))]
            && e == ElementEntry(name, o.(typ := sub, track := Tracking(Some(true), Some([]))))
  {
    HasElementExactly(elements, name);
  }

  /** `remove` of an existing name drops every element with that name and keeps the
      others in order; of a missing name it changes nothing and records one issue, which
      quotes the override's `name` attribute rather than its key. */
  lemma ElementRemove(elements: seq<Element>, name: string, o: ElementOverride)
    requires o.operation == Some("remove")
    ensures var p := PatchElement(elements, ElementEntry(name, o));
            var r := p.0;
            var e := p.1;
            && e == ElementEntry(name, o.(track := e.edit.track))
            && if exists k :: 0 <= k < |elements| && elements[k].name == name then
                 && r == Keep(elements, ElementNotNamed(name))
                 && (forall k :: 0 <= k < |r| ==> r[k].name != name && r[k] in elements)
                 && (forall k :: 0 <= k < |elements| && elements[k].name != name ==> elements[k] in r)
                 && e.edit.track == Tracking(Some(true), Some([]))
               else
                 && r == elements
                 && e.edit.track == Tracking(Some(false), Some(["Attempted to remove an element with the name \"" + Show(o.name) + "\" but it did not exist"]))
  {
    HasElementExactly(elements, name);
    assert o.operation != Some("discuss") && o.operation != Some("add");
  }

  /** `change` edits only the first element with the key's name; without a `type`
      attribute its type is kept, with one its type is re-derived under the array unwrap
      rule (an element without a type is patched as "any"). A missing element records
      one issue and changes nothing. */
  lemma ElementChange(elements: seq<Element>, name: string, o: ElementOverride)
    requires IsChange(o.operation)
    ensures var p := PatchElement(elements, ElementEntry(name, o));
            match FirstIndex(elements, ElementNamed(name))
            case None =>
              && p.0 == elements
              && p.1 == ElementEntry(name, o.(track := Tracking(Some(false), Some(["Could not find an element with the name " + name]))))
            case Some(i) =>
              var el := elements[i];
              && el.name == name
              && |p.0| == |elements|
              && (forall k :: 0 <= k < |elements| && k != i ==> p.0[k] == elements[k])
              && p.0[i].name == o.name.GetOr(el.name)
              && p.0[i].description == o.description.GetOr(el.description)
              && (o.typ.None? ==> p.0[i].typ == el.typ)
              && (o.typ.Some? && el.typ.Some? && el.typ.value.ArrayType? && o.isArray.None? ==>
                    p.0[i].typ == Some(ArrayType(OverrideType(OrAny(Some(el.typ.value.elem)), o.typ).0, el.typ.value.originalType)))
              && (o.typ.Some? && el.typ.None? && !IsTrue(o.isArray) ==>
                    p.0[i].typ == Some(OverrideType(Leaf("any"), o.typ).0))
              && IsTrue(p.1.edit.track.processed)
  {
    var entry := ElementEntry(name, o);
    assert o.operation != Some("discuss") && o.operation != Some("add") && o.operation != Some("remove");
    assert PatchElement(elements, entry) == ChangeElement(elements, entry);
    match FirstIndex(elements, ElementNamed(name))
    case None =>
    case Some(i) =>
      ChangedElementAt(elements, name, o, i);
  }

  /** The element a `change` entry found, as edited. */
  lemma ChangedElementAt(elements: seq<Element>, name: string, o: ElementOverride, i: nat)
    requires FirstIndex(elements, ElementNamed(name)) == Some(i)
    ensures var r := ChangeElement(elements, ElementEntry(name, o));
            var el := elements[i];
            && el.name == name
            && |r.0| == |elements|
            && (forall k :: 0 <= k < |elements| && k != i ==> r.0[k] == elements[k])
            && r.0[i].name == o.name.GetOr(el.name)
            && r.0[i].description == o.description.GetOr(el.description)
            && (o.typ.None? ==> r.0[i].typ == el.typ)
            && (o.typ.Some? ==> r.0[i].typ == Some(RetypeElement(el.typ, o).0))
            && IsTrue(r.1.edit.track.processed)
  {
    assert ElementNamed(name)(elements[i]);
  }

  /** An unknown operation records one issue and leaves the entry unprocessed. Only the
      type of the first element with the key's name can change, and only when the entry
      has a type: an element without a type (or with the empty one) is left without one. */
  lemma ElementUnexpectedOperation(elements: seq<Element>, name: string, o: ElementOverride)
    requires o.operation.Some? && o.operation != Some("discuss") && o.operation != Some("add")
    requires o.operation != Some("remove") && !IsChange(o.operation)
    ensures var pair := PatchElement(elements, ElementEntry(name, o));
            var r := pair.0;
            var e := pair.1;
            && |r| == |elements|
            && (forall k :: 0 <= k < |elements| ==> r[k].name == elements[k].name && r[k].description == elements[k].description)
            && (!PresentType(o.typ) ==> r == elements)
            && (forall k ::
                  (0 <= k < |elements| && elements[k].name == name && !PresentElementType(elements[k].typ)
                   && PresentType(o.typ) && (forall j :: 0 <= j < k ==> elements[j].name != name))
                  ==> r[k].typ.None?)
            && e.edit.(typ := o.typ, track := o.track) == o
            && e.edit.track == Tracking(Some(false), Some(["Unexpected operation " + o.operation.value + " for element " + Show(o.name)]))
  {
    var found := FirstIndex(elements, ElementNamed(name));
    forall k | 0 <= k < |elements| && elements[k].name == name && (forall j :: 0 <= j < k ==> elements[j].name != name)
      ensures found == Some(k)
    {
      assert ElementNamed(name)(elements[k]);
    }
  }

  /** Adding a new element and then removing it by name gives back the original list,
      and both entries are consumed. */
  lemma AddThenRemove(elements: seq<Element>, name: string, add: ElementOverride, remove: ElementOverride)
    requires add.operation == Some("add") && Present(add.description)
    requires remove.operation == Some("remove")
    requires forall k :: 0 <= k < |elements| ==> elements[k].name != name
    ensures PatchElements(elements, [ElementEntry(name, add), ElementEntry(name, remove)]).0 == elements
    ensures var done := PatchElements(elements, [ElementEntry(name, add), ElementEntry(name, remove)]).1;
            |done| == 2 && IsTrue(done[0].edit.track.processed) && IsTrue(done[1].edit.track.processed)
  {
    var entries := [ElementEntry(name, add), ElementEntry(name, remove)];
    assert entries[..1][..0] == [];
    assert entries[..1] == [entries[0]];
    ElementAddAppends(elements, name, add);
    var step := PatchElement(elements, entries[0]);
    var added := step.0;
    assert |added| == |elements| + 1 && added[|elements|].name == name;
    ElementRemove(added, name, remove);
    KeepSnoc(elements, added[|elements|], ElementNotNamed(name));
    KeepAll(elements, ElementNotNamed(name));
    var none: seq<ElementEntry> := [];
    assert none + [step.1] == [step.1];
    assert PatchElements(elements, entries[..1][..0]) == (elements, none);
    assert PatchElements(elements, entries[..1]) == (added, [step.1]);
    assert entries[..|entries| - 1] == entries[..1];
    assert [step.1] + [PatchElement(added, entries[1]).1] == [step.1, PatchElement(added, entries[1]).1];
    assert PatchElements(elements, entries) == (PatchElement(added, entries[1]).0, [step.1, PatchElement(added, entries[1]).1]);
  }
}
