/** The type-tree patcher (`overrideTypeDefinition`): applies an override to one
    type. A leaf or union shorthand replaces the whole type; a map of field overrides
    patches an object type one key at a time, recursing into nested types. */
module TypePatch {
  import opened Types
  import opened OverrideFile

  /** `convertToObjectType`: an object type stays, anything else becomes an empty object. */
  function ConvertToObjectType(t: Type): (r: Type)
    ensures r.ObjectType?
    ensures t.ObjectType? ==> r == t
    ensures !t.ObjectType? ==> r.fields == []
  {
    if t.ObjectType? then t else ObjectType([])
  }

  function UnionOf(names: seq<string>): (r: Type)
    ensures r.UnionType? && |r.unionTypes| == |names|
    ensures forall k :: 0 <= k < |names| ==> r.unionTypes[k] == Leaf(names[k])
  {
    UnionType(seq(|names|, k requires 0 <= k < |names| => Leaf(names[k])))
  }

  function Named(name: string): Field -> bool {
    (f: Field) => f.name == name
  }

  /** `c => c.name === override.name`: never true when `override.name` is undefined. */
  function NamedAs(name: Option<string>): Field -> bool {
    (f: Field) => Some(f.name) == name
  }

  function NotNamed(name: string): Field -> bool {
    (f: Field) => f.name != name
  }

  predicate HasField(fields: seq<Field>, name: string) {
    FirstIndex(fields, Named(name)).Some?
  }

  /** The target of a type edit after the array unwrap rule: the type to patch, whether
      to wrap the result in an array again, and the array's original label. */
  datatype Unwrapped = Unwrapped(inner: Type, wrap: bool, originalType: Option<string>)

  /** An array-typed target is patched through its element type and re-wrapped, with its
      original label, unless `isArray` is explicitly false; any other target is wrapped
      (without a label) only when `isArray` is true. */
  function Unwrap(t: Type, isArray: Option<bool>): Unwrapped {
    if t.ArrayType? then Unwrapped(t.elem, !IsFalse(isArray), t.originalType)
    else Unwrapped(t, IsTrue(isArray), None)
  }

  function Rewrap(u: Unwrapped, t: Type): Type {
    if u.wrap then ArrayType(t, u.originalType) else t
  }

  /** `overrideTypeDefinition(originalType, overrideDefinition)`: the patched type and
      the override with the bookkeeping of every entry it reached. */
  function OverrideType(orig: Type, ov: Option<TypeOverride>): (Type, Option<TypeOverride>)
    decreases ov
  {
    match ov
    case None => (orig, ov)
    case Some(LeafOverride(leaf)) => if leaf == "" then (orig, ov) else (Leaf(leaf), ov)
    case Some(UnionOverride(names)) => (UnionOf(names), ov)
    case Some(FieldsOverride(entries)) =>
      var (fields, done) := PatchFields(ConvertToObjectType(orig).fields, entries);
      (ObjectType(fields), Some(FieldsOverride(done)))
  }

  /** The field-override entries applied in order, each to the fields the previous
      ones left. */
  function PatchFields(fields: seq<Field>, entries: seq<FieldEntry>): (seq<Field>, seq<FieldEntry>)
    decreases entries
  {
    if entries == [] then (fields, [])
    else
      var (before, done) := PatchFields(fields, entries[..|entries| - 1]);
      var (after, last) := PatchField(before, entries[|entries| - 1]);
      (after, done + [last])
  }

  /** One field-override entry, keyed by field name. */
  function PatchField(fields: seq<Field>, entry: FieldEntry): (seq<Field>, FieldEntry)
    decreases entry, 1
  {
    var name := entry.key;
    var o := entry.edit;
    if o.operation == Some("discuss") then
      (fields, FieldEntry(name, o.(track := Started.Note(DiscussMessage))))
    else if o.operation == Some("add") then
      AddField(fields, entry)
    else if o.operation == Some("remove") then
      if !HasField(fields, name) then
        (fields, FieldEntry(name, o.(track := Started.Note("Attempted to remove a component with the name \"" + name + "\" but it did not exist"))))
      else
        (Keep(fields, NotNamed(name)), FieldEntry(name, o.(track := Started.Mark(true))))
    else if IsChange(o.operation) then
      ChangeField(fields, entry)
    else
      var track := Started.Note("Unexpected operation " + o.operation.value + " for component " + name);
      var found := FirstIndex(fields, Named(name));
      if found.Some? && PresentType(o.typ) then
        var (t, sub) := OverrideType(fields[found.value].typ, entry.edit.typ);
        (fields[found.value := fields[found.value].(typ := t)], FieldEntry(name, o.(typ := sub, track := track)))
      else
        (fields, FieldEntry(name, o.(track := track)))
  }

  /** An `add` entry: rejected, with every reason recorded, when the description is
      missing or a field of the new name exists; otherwise a field of type `any`,
      patched, is appended. */
  function AddField(fields: seq<Field>, entry: FieldEntry): (seq<Field>, FieldEntry)
    decreases entry, 0
  {
    var name := entry.key;
    var o := entry.edit;
    var missing := !Present(o.description);
    var duplicate := FirstIndex(fields, NamedAs(o.name)).Some?;
    var t1 := if missing then Started.Note("Description must be provided for parameter being added: " + name) else Started;
    var t2 := if duplicate then t1.Note("A parameter with the name \"" + Show(o.name) + "\" already exists") else t1;
    if missing || duplicate then
      (fields, FieldEntry(name, o.(track := t2)))
    else
      var (t, sub) := OverrideType(Leaf("any"), entry.edit.typ);
      var added := Field(name, o.description.value, o.isOptional, o.defaultValue,
                         if IsTrue(o.isArray) then ArrayType(t, None) else t);
      (fields + [added], FieldEntry(name, o.(typ := sub, track := t2.Mark(true))))
  }

  /** A `change` entry, or one without an operation: the named field is edited in place,
      its type patched through an array wrapper. */
  function ChangeField(fields: seq<Field>, entry: FieldEntry): (seq<Field>, FieldEntry)
    decreases entry, 0
  {
    var name := entry.key;
    var o := entry.edit;
    match FirstIndex(fields, Named(name))
    case None =>
      (fields, FieldEntry(name, o.(track := Started.Note("Attempted to modify a parameter with the name \"" + name + "\" but it did not exist"))))
    case Some(i) =>
      var f := fields[i];
      var u := Unwrap(f.typ, o.isArray);
      var (t, sub) := OverrideType(u.inner, entry.edit.typ);
      var changed := Field(o.name.GetOr(f.name), o.description.GetOr(f.description),
                           o.isOptional.OrElse(f.isOptional), o.defaultValue.OrElse(f.defaultValue), Rewrap(u, t));
      (fields[i := changed], FieldEntry(name, o.(typ := sub, track := Started.Mark(true))))
  }

  method OverrideTypeDefinition(originalType: Type, overrideDefinition: Option<TypeOverride>)
    returns (t: Type, annotated: Option<TypeOverride>)
    ensures (t, annotated) == OverrideType(originalType, overrideDefinition)
    decreases overrideDefinition
  {
    if overrideDefinition.None? || overrideDefinition == Some(LeafOverride("")) {
      return originalType, overrideDefinition;
    }
    match overrideDefinition.value {
      case LeafOverride(leaf) =>
        return Leaf(leaf), overrideDefinition;
      case UnionOverride(names) =>
        return UnionOf(names), overrideDefinition;
      case FieldsOverride(entries) =>
        var fields := ConvertToObjectType(originalType).fields;
        ghost var base := fields;
        var done: seq<FieldEntry> := [];
        var i := 0;
        while i < |entries|
          invariant 0 <= i <= |entries|
          invariant (fields, done) == PatchFields(base, entries[..i])
        {
          assert entries[..i + 1][..i] == entries[..i];
          var last;
          fields, last := PatchObjectField(fields, entries[i]);
          done := done + [last];
          i := i + 1;
        }
        assert entries[..i] == entries;
        return ObjectType(fields), Some(FieldsOverride(done));
    }
  }

  /** The body of the loop over the entries of an object-type override. */
  method PatchObjectField(fields: seq<Field>, entry: FieldEntry) returns (result: seq<Field>, annotated: FieldEntry)
    ensures (result, annotated) == PatchField(fields, entry)
    decreases entry, 1
  {
    var name := entry.key;
    var o := entry.edit;
    result := fields;
    if o.operation == Some("discuss") {
      annotated := FieldEntry(name, o.(track := Started.Note(DiscussMessage)));
    } else if o.operation == Some("add") {
      result, annotated := AddObjectField(fields, entry);
    } else if o.operation == Some("remove") {
      var track := Started;
      if !HasField(fields, name) {
        track := track.Note("Attempted to remove a component with the name \"" + name + "\" but it did not exist");
      } else {
        result := Keep(fields, NotNamed(name));
        track := track.Mark(true);
      }
      annotated := FieldEntry(name, o.(track := track));
    } else if IsChange(o.operation) {
      result, annotated := ChangeObjectField(fields, entry);
    } else {
      var track := Started.Note("Unexpected operation " + o.operation.value + " for component " + name);
      var found := FirstIndex(fields, Named(name));
      if found.Some? && PresentType(o.typ) {
        var t, sub := OverrideTypeDefinition(fields[found.value].typ, o.typ);
        result := fields[found.value := fields[found.value].(typ := t)];
        o := o.(typ := sub);
      }
      annotated := FieldEntry(name, o.(track := track));
    }
  }

  /** An `add` entry of an object-type override. */
  method AddObjectField(fields: seq<Field>, entry: FieldEntry) returns (result: seq<Field>, annotated: FieldEntry)
    ensures (result, annotated) == AddField(fields, entry)
    decreases entry, 0
  {
    var name := entry.key;
    var o := entry.edit;
    var track := Started;
    result := fields;
    var isValid := true;
    if !Present(o.description) {
      track := track.Note("Description must be provided for parameter being added: " + name);
      isValid := false;
    }
    if FirstIndex(fields, NamedAs(o.name)).Some? {
      track := track.Note("A parameter with the name \"" + Show(o.name) + "\" already exists");
      isValid := false;
    }
    if isValid {
      var t, sub := OverrideTypeDefinition(Leaf("any"), o.typ);
      if IsTrue(o.isArray) {
        t := ArrayType(t, None);
      }
      result := fields + [Field(name, o.description.value, o.isOptional, o.defaultValue, t)];
      o := o.(typ := sub);
    }
    track := track.Mark(isValid);
    annotated := FieldEntry(name, o.(track := track));
  }

  /** A `change` entry (or one without an operation) of an object-type override. */
  method ChangeObjectField(fields: seq<Field>, entry: FieldEntry) returns (result: seq<Field>, annotated: FieldEntry)
    ensures (result, annotated) == ChangeField(fields, entry)
    decreases entry, 0
  {
    var name := entry.key;
    var o := entry.edit;
    var found := FirstIndex(fields, Named(name));
    if found.None? {
      return fields, FieldEntry(name, o.(track := Started.Note("Attempted to modify a parameter with the name \"" + name + "\" but it did not exist")));
    }
    var target := fields[found.value];
    if o.name.Some? {
      target := target.(name := o.name.value);
    }
    if o.description.Some? {
      target := target.(description := o.description.value);
    }
    if o.isOptional.Some? {
      target := target.(isOptional := o.isOptional);
    }
    if o.defaultValue.Some? {
      target := target.(defaultValue := o.defaultValue);
    }
    var convertToArray := o.isArray;
    var originalArrayType: Option<string> := None;
    if target.typ.ArrayType? {
      originalArrayType := target.typ.originalType;
      target := target.(typ := target.typ.elem);
      convertToArray := if convertToArray == None then Some(true) else convertToArray;
    }
    var t, sub := OverrideTypeDefinition(target.typ, o.typ);
    if IsTrue(convertToArray) {
      t := ArrayType(t, originalArrayType);
    }
    result := fields[found.value := target.(typ := t)];
    annotated := FieldEntry(name, o.(typ := sub, track := Started.Mark(true)));
  }
}

/** Properties of the type-tree patcher. */
module TypePatchFacts {
  import opened Types
  import opened OverrideFile
  import opened TypePatch

  /** With no override the type comes back unchanged; a leaf name replaces the whole
      type; a list of names yields a union of exactly those leaves. No field is matched,
      so the override gains no bookkeeping. */
  lemma ShorthandOverrides(orig: Type, ov: Option<TypeOverride>)
    ensures ov.None? ==> OverrideType(orig, ov) == (orig, ov)
    ensures ov.Some? && ov.value.LeafOverride? && ov.value.leaf != "" ==>
              OverrideType(orig, ov) == (Leaf(ov.value.leaf), ov)
    ensures ov.Some? && ov.value.UnionOverride? ==>
              var (t, annotated) := OverrideType(orig, ov);
              && annotated == ov
              && t.UnionType?
              && |t.unionTypes| == |ov.value.names|
              && forall k :: 0 <= k < |ov.value.names| ==> t.unionTypes[k] == Leaf(ov.value.names[k])
  {
  }

  /** A field override touches only its own bookkeeping and its nested type override,
      keeps its key, and always leaves `_processed` and `_issues` defined. */
  lemma PatchFieldTracks(fields: seq<Field>, entry: FieldEntry)
    ensures var pair := PatchField(fields, entry);
            var e := pair.1;
            && e.key == entry.key
            && e.edit.(typ := entry.edit.typ, track := entry.edit.track) == entry.edit
            && e.edit.track.processed.Some?
            && e.edit.track.issues.Some?
  {
    var o := entry.edit;
    if o.operation == Some("add") {
      AddFieldTracks(fields, entry);
    } else if o.operation != Some("discuss") && o.operation != Some("remove") && IsChange(o.operation) {
      ChangeFieldTracks(fields, entry);
    }
  }

  lemma AddFieldTracks(fields: seq<Field>, entry: FieldEntry)
    ensures var pair := AddField(fields, entry);
            var e := pair.1;
            && e.key == entry.key
            && e.edit.(typ := entry.edit.typ, track := entry.edit.track) == entry.edit
            && e.edit.track.processed.Some?
            && e.edit.track.issues.Some?
  {
  }

  lemma ChangeFieldTracks(fields: seq<Field>, entry: FieldEntry)
    ensures var pair := ChangeField(fields, entry);
            var e := pair.1;
            && e.key == entry.key
            && e.edit.(typ := entry.edit.typ, track := entry.edit.track) == entry.edit
            && e.edit.track.processed.Some?
            && e.edit.track.issues.Some?
  {
  }

  /** Every entry of an object-type override is visited, in order. */
  lemma {:induction false} PatchFieldsTracksEveryEntry(fields: seq<Field>, entries: seq<FieldEntry>)
    ensures var pair := PatchFields(fields, entries);
            var done := pair.1;
            && |done| == |entries|
            && forall k :: 0 <= k < |entries| ==>
                 done[k].key == entries[k].key && done[k].edit.track.processed.Some?
  {
    if entries != [] {
      var n := |entries| - 1;
      PatchFieldsTracksEveryEntry(fields, entries[..n]);
      var (before, _) := PatchFields(fields, entries[..n]);
      PatchFieldTracks(before, entries[n]);
    }
  }

  /** `discuss` changes nothing, leaves the entry unprocessed with exactly one issue,
      and does not reach its children. */
  lemma FieldDiscuss(fields: seq<Field>, name: string, o: FieldOverride)
    requires o.operation == Some("discuss")
    ensures PatchField(fields, FieldEntry(name, o))
              == (fields, FieldEntry(name, o.(track := Tracking(Some(false), Some([DiscussMessage])))))
  {
  }

  /** `remove` of an existing name drops every field with that name and keeps the others
      in order; of a missing name it changes nothing and records one issue. */
  lemma FieldRemove(fields: seq<Field>, name: string, o: FieldOverride)
    requires o.operation == Some("remove")
    ensures var pair := PatchField(fields, FieldEntry(name, o));
            var r := pair.0;
            var e := pair.1;
            && e == FieldEntry(name, o.(track := e.edit.track))
            && if exists k :: 0 <= k < |fields| && fields[k].name == name then
                 && r == Keep(fields, NotNamed(name))
                 && (forall k :: 0 <= k < |r| ==> r[k].name != name && r[k] in fields)
                 && (forall k :: 0 <= k < |fields| && fields[k].name != name ==> fields[k] in r)
                 && e.edit.track == Tracking(Some(true), Some([]))
               else
                 && r == fields
                 && e.edit.track == Tracking(Some(false), Some(["Attempted to remove a component with the name \"" + name + "\" but it did not exist"]))
  {
    HasFieldExactly(fields, name);
  }

  lemma HasFieldExactly(fields: seq<Field>, name: string)
    ensures HasField(fields, name) <==> exists k :: 0 <= k < |fields| && fields[k].name == name
  {
    if exists k :: 0 <= k < |fields| && fields[k].name == name {
      var k :| 0 <= k < |fields| && fields[k].name == name;
      assert Named(name)(fields[k]);
    }
  }

  /** An `add` without a description, or whose `name` attribute (not its key) names an
      existing field, changes nothing; the entry stays unprocessed with one issue per
      failed check and its children are not reached. */
  lemma FieldAddRejected(fields: seq<Field>, name: string, o: FieldOverride)
    requires o.operation == Some("add")
    requires !Present(o.description) || exists k :: 0 <= k < |fields| && Some(fields[k].name) == o.name
    ensures var pair := PatchField(fields, FieldEntry(name, o));
            var r := pair.0;
            var e := pair.1;
            var duplicate := exists k :: 0 <= k < |fields| && Some(fields[k].name) == o.name;
            && r == fields
            && e == FieldEntry(name, o.(track := e.edit.track))
            && IsFalse(e.edit.track.processed)
            && |e.edit.track.IssueList()| == (if Present(o.description) then 0 else 1) + (if duplicate then 1 else 0)
  {
    var duplicate := exists k :: 0 <= k < |fields| && Some(fields[k].name) == o.name;
    if duplicate {
      var k :| 0 <= k < |fields| && Some(fields[k].name) == o.name;
      assert NamedAs(o.name)(fields[k]);
    }
  }

  /** A valid `add` appends exactly one field, named by the key, whose type is derived
      from "any" and wrapped in an array when `isArray` is set. */
  lemma FieldAddAppends(fields: seq<Field>, name: string, o: FieldOverride)
    requires o.operation == Some("add") && Present(o.description)
    requires forall k :: 0 <= k < |fields| ==> Some(fields[k].name) != o.name
    ensures var pair := PatchField(fields, FieldEntry(name, o));
            var r := pair.0;
            var e := pair.1;
            var (t, sub) := OverrideType(Leaf("any"), o.typ);
            && |r| == |fields| + 1
            && r[..|fields|] == fields
            && r[|fields|] == Field(name, o.description.value, o.isOptional, o.defaultValue,
                                    if IsTrue(o.isArray) then ArrayType(t, None) else t)
            && e == FieldEntry(name, o.(typ := sub, track := Tracking(Some(true), Some([]))))
  {
    assert FirstIndex(fields, NamedAs(o.name)).None?;
  }

  /** The key, not `override.name`, decides the new field's name, and only `override.name`
      is checked for duplicates: an `add` with no `name` attribute is appended even when a
      field with the key's name already exists. */
  lemma FieldAddIgnoresKeyDuplicates(fields: seq<Field>, name: string, o: FieldOverride)
    requires o.operation == Some("add") && Present(o.description) && o.name.None?
    ensures var pair := PatchField(fields, FieldEntry(name, o));
            var r := pair.0;
            |r| == |fields| + 1 && r[..|fields|] == fields && r[|fields|].name == name
  {
    FieldAddAppends(fields, name, o);
  }

  /** `change` edits only the first field with the key's name. An array-typed field with
      `isArray` unset is unwrapped, its element type patched, and re-wrapped with the same
      `originalType`; with `isArray` false the patched element type is not re-wrapped.
      A missing field records one issue and changes nothing. */
  lemma FieldChange(fields: seq<Field>, name: string, o: FieldOverride)
    requires IsChange(o.operation)
    ensures var pair := PatchField(fields, FieldEntry(name, o));
            var r := pair.0;
            var e := pair.1;
            match FirstIndex(fields, Named(name))
            case None =>
              && r == fields
              && e == FieldEntry(name, o.(track := Tracking(Some(false), Some(["Attempted to modify a parameter with the name \"" + name + "\" but it did not exist"]))))
            case Some(i) =>
              var f := fields[i];
              && f.name == name
              && |r| == |fields|
              && (forall k :: 0 <= k < |fields| && k != i ==> r[k] == fields[k])
              && r[i].name == o.name.GetOr(f.name)
              && r[i].description == o.description.GetOr(f.description)
              && r[i].isOptional == o.isOptional.OrElse(f.isOptional)
              && r[i].defaultValue == o.defaultValue.OrElse(f.defaultValue)
              && (f.typ.ArrayType? && o.isArray.None? ==>
                    r[i].typ == ArrayType(OverrideType(f.typ.elem, o.typ).0, f.typ.originalType))
              && (f.typ.ArrayType? && IsFalse(o.isArray) ==>
                    r[i].typ == OverrideType(f.typ.elem, o.typ).0)
              && (!f.typ.ArrayType? && !IsTrue(o.isArray) ==>
                    r[i].typ == OverrideType(f.typ, o.typ).0)
              && (!f.typ.ArrayType? && IsTrue(o.isArray) ==>
                    r[i].typ == ArrayType(OverrideType(f.typ, o.typ).0, None))
              && e == FieldEntry(name, o.(typ := OverrideType(Unwrap(f.typ, o.isArray).inner, o.typ).1,
                                          track := Tracking(Some(true), Some([]))))
  {
  }

  /** An unknown operation records one issue and leaves the entry unprocessed; it can
      only re-type the first field with the key's name, and only when it has a type. */
  lemma FieldUnexpectedOperation(fields: seq<Field>, name: string, o: FieldOverride)
    requires o.operation.Some? && o.operation != Some("discuss") && o.operation != Some("add")
    requires o.operation != Some("remove") && !IsChange(o.operation)
    ensures var pair := PatchField(fields, FieldEntry(name, o));
            var r := pair.0;
            var e := pair.1;
            && |r| == |fields|
            && (forall k :: 0 <= k < |fields| ==> r[k].(typ := fields[k].typ) == fields[k])
            && (forall k :: 0 <= k < |fields| && (fields[k].name != name || !PresentType(o.typ)) ==> r[k] == fields[k])
            && e.edit.(typ := o.typ, track := o.track) == o
            && e.edit.track == Tracking(Some(false), Some(["Unexpected operation " + o.operation.value + " for component " + name]))
  {
  }

  /** A field of type list-of-"string" changed with the element override "number" keeps
      its array-ness and its "list" label. */
  lemma ArrayRoundTripExample()
    ensures var field := Field("items", "the items", None, None, ArrayType(Leaf("string"), Some("list")));
            var edit := FieldOverride(None, None, None, None, None, None, Some(LeafOverride("number")), Tracking(None, None));
            PatchField([field], FieldEntry("items", edit)).0
              == [field.(typ := ArrayType(Leaf("number"), Some("list")))]
  {
  }
}
