/** The patcher of system methods (`overrideMethodElement`). Methods are overloaded by
    name; the value under a name is one override or a list of them, each possibly a
    selector that narrows the overloads by their leading parameter names. Unsupported
    requests throw. */
module MethodPatch {
  import opened Types
  import opened OverrideFile
  import opened TypePatch
  import opened ReturnPatch

  const AddMessage := "Add not implemented for system methods"
  const ReturnIsArrayMessage := "Overriding return type as an array on a system method is not currently implemented"
  /** What the JavaScript engine reports when `undefined.name` is read. */
  const UndefinedNameMessage := "Cannot read properties of undefined (reading 'name')"

  function SelectFailMessage(name: string): string {
    "Attempted to select a method with the name \"" + name + "\" but it did not exist"
  }

  function NotFoundMessage(name: string): string {
    "Could not find an element with the name " + name
  }

  /** The selector test of a method's parameters as the code is written: at position
      `i` the bound check `parameters.length < i` lets `i == parameters.length` through,
      so reading the name of the missing parameter throws. */
  function SelectorMatchAsWritten(parameters: seq<Field>, selector: seq<string>, i: nat): Outcome<bool>
    decreases |selector| - i
  {
    if i >= |selector| then Ok(true)
    else if |parameters| < i then Ok(false)
    else if |parameters| == i then Throw(UndefinedNameMessage)
    else if parameters[i].name != selector[i] then Ok(false)
    else SelectorMatchAsWritten(parameters, selector, i + 1)
  }

  /** The selector test as evidently intended: the method has at least as many
      parameters as the selector names, and they start with exactly those names. */
  predicate SelectorMatch(parameters: seq<Field>, selector: seq<string>) {
    |selector| <= |parameters| && forall i :: 0 <= i < |selector| ==> parameters[i].name == selector[i]
  }

  function MethodNamed(name: string): Method -> bool {
    (m: Method) => m.name == name
  }

  function SelectedBy(name: string, selector: seq<string>): Method -> bool {
    (m: Method) => m.name == name && SelectorMatch(m.parameters, selector)
  }

  /** One entry of a method's `parameters` override. Its `_operation` is ignored: every
      entry is a change of the parameter with the key's name. */
  function PatchParameter(parameters: seq<Field>, entry: FieldEntry): (seq<Field>, FieldEntry) {
    var name := entry.key;
    var po := entry.edit;
    match FirstIndex(parameters, Named(name))
    case None =>
      (parameters, FieldEntry(name, po.(track := Started.Note("Could not find parameter with name " + name))))
    case Some(i) =>
      var p := parameters[i];
      var edited := Field(po.name.GetOr(p.name), po.description.GetOr(p.description),
                          po.isOptional.OrElse(p.isOptional), po.defaultValue.OrElse(p.defaultValue), p.typ);
      if po.typ.None? then
        (parameters[i := edited], FieldEntry(name, po.(track := Started.Mark(true))))
      else
        var u := Unwrap(p.typ, po.isArray);
        var (t, sub) := OverrideType(OrAny(Some(u.inner)), po.typ);
        (parameters[i := edited.(typ := Rewrap(u, t))], FieldEntry(name, po.(typ := sub, track := Started.Mark(true))))
  }

  function PatchParameters(parameters: seq<Field>, entries: seq<FieldEntry>): (seq<Field>, seq<FieldEntry>) {
    if entries == [] then (parameters, [])
    else
      var (before, done) := PatchParameters(parameters, entries[..|entries| - 1]);
      var (after, last) := PatchParameter(before, entries[|entries| - 1]);
      (after, done + [last])
  }

  /** A `change` of one method. Setting `system` to a value other than Client, Server or
      Both records an issue but still assigns it; `returnIsArray` throws, after the other
      edits. */
  function ChangeMethod(m: Method, name: string, o: MethodOverride): Outcome<(Method, MethodOverride)> {
    var m1 := m.(name := o.name.GetOr(m.name), description := o.description.GetOr(m.description),
                 category := o.category.OrElse(m.category), system := o.system.GetOr(m.system));
    var track := if o.system.Some? && !ValidSystem(o.system.value)
                 then Started.Note("An invalid system was specified in system method " + name + ": " + o.system.value)
                 else Started;
    var params := if o.parameters.Some? then PatchParameters(m1.parameters, o.parameters.value) else (m1.parameters, []);
    var m2 := m1.(parameters := params.0);
    var rts := OverrideReturns(m2.returnTypes.GetOr([]), o.returnTypes);
    var m3 := if o.returnTypes.Some? then m2.(returnTypes := Some(rts.0)) else m2;
    if o.returnIsArray.Some? then Throw(ReturnIsArrayMessage)
    else
      Ok((m3, o.(parameters := if o.parameters.Some? then Some(params.1) else None,
                 returnTypes := rts.1, track := track.Mark(true))))
  }

  /** One method override applied to the overload `target` (the first candidate), if any. */
  function ApplyMethodOverride(full: seq<Method>, name: string, o: MethodOverride, target: Option<nat>)
    : Outcome<(seq<Method>, MethodOverride)>
    requires target.Some? ==> target.value < |full|
  {
    if o.operation == Some("discuss") then
      Ok((full, o.(track := Started.Note(DiscussMessage))))
    else if o.operation == Some("add") then
      Throw(AddMessage)
    else if o.operation == Some("remove") then
      if target.None? then Ok((full, o.(track := Started.Note(NotFoundMessage(name)))))
      else Ok((RemoveAt(full, target.value), o.(track := Started.Mark(true))))
    else if IsChange(o.operation) then
      if target.None? then Ok((full, o.(track := Started.Note(NotFoundMessage(name)))))
      else
        match ChangeMethod(full[target.value], name, o)
        case Throw(msg) => Throw(msg)
        case Ok((m, o')) => Ok((full[target.value := m], o'))
    else
      Ok((full, o.(track := Started.Note("Unexpected operation " + o.operation.value + " for element " + Show(o.name)))))
  }

  /** One item under a method name. A plain override targets the first overload with
      that name; a selector targets the first overload it selects, and when it selects
      none it records an issue and leaves its override untouched. */
  function MethodItemStep(full: seq<Method>, name: string, item: MethodItem): Outcome<(seq<Method>, MethodItem)> {
    match item
    case Plain(o) =>
      (match ApplyMethodOverride(full, name, o, FirstIndex(full, MethodNamed(name)))
       case Throw(msg) => Throw(msg)
       case Ok((f, o')) => Ok((f, Plain(o'))))
    case Selector(selector, o, _) =>
      var target := FirstIndex(full, SelectedBy(name, selector));
      if target.None? then
        Ok((full, Selector(selector, o, Tracking(Some(false), Some([SelectFailMessage(name)])))))
      else
        match ApplyMethodOverride(full, name, o, target)
        case Throw(msg) => Throw(msg)
        case Ok((f, o')) => Ok((f, Selector(selector, o', Tracking(Some(true), Some([])))))
  }

  /** The items under one name applied in order; the first throw aborts. */
  function MethodItemSteps(full: seq<Method>, name: string, items: seq<MethodItem>): (r: Outcome<(seq<Method>, seq<MethodItem>)>)
    ensures r.Ok? ==> |r.value.1| == |items|
  {
    if items == [] then Ok((full, []))
    else
      match MethodItemSteps(full, name, items[..|items| - 1])
      case Throw(msg) => Throw(msg)
      case Ok((before, done)) =>
        match MethodItemStep(before, name, items[|items| - 1])
        case Throw(msg) => Throw(msg)
        case Ok((after, last)) => Ok((after, done + [last]))
  }

  function MethodEntrySteps(full: seq<Method>, entries: seq<MethodEntry>): (r: Outcome<(seq<Method>, seq<MethodEntry>)>)
    ensures r.Ok? ==> |r.value.1| == |entries|
  {
    if entries == [] then Ok((full, []))
    else
      match MethodEntrySteps(full, entries[..|entries| - 1])
      case Throw(msg) => Throw(msg)
      case Ok((before, done)) =>
        var entry := entries[|entries| - 1];
        match MethodItemSteps(before, entry.key, entry.value.Items())
        case Throw(msg) => Throw(msg)
        case Ok((after, items)) => Ok((after, done + [MethodEntry(entry.key, entry.value.WithItems(items))]))
  }

  /** `overrideMethodElement` (src/overrides.ts:320-462): the names of the override set in
      order, the overrides under each name in order. */
  function OverrideMethods(full: seq<Method>, overrides: Option<seq<MethodEntry>>)
    : Outcome<(seq<Method>, Option<seq<MethodEntry>>)>
  {
    if overrides.None? then Ok((full, overrides))
    else
      match MethodEntrySteps(full, overrides.value)
      case Throw(msg) => Throw(msg)
      case Ok((r, done)) => Ok((r, Some(done)))
  }

  /** A throw in a prefix of the items is the outcome of all of them. */
  lemma {:induction false} ItemsThrowPropagates(full: seq<Method>, name: string, items: seq<MethodItem>, k: nat, msg: string)
    requires k <= |items| && MethodItemSteps(full, name, items[..k]) == Throw(msg)
    ensures MethodItemSteps(full, name, items) == Throw(msg)
    decreases |items| - k
  {
    if k < |items| {
      assert items[..k + 1][..k] == items[..k];
      ItemsThrowPropagates(full, name, items, k + 1, msg);
    } else {
      assert items[..k] == items;
    }
  }

  lemma {:induction false} EntriesThrowPropagates(full: seq<Method>, entries: seq<MethodEntry>, k: nat, msg: string)
    requires k <= |entries| && MethodEntrySteps(full, entries[..k]) == Throw(msg)
    ensures MethodEntrySteps(full, entries) == Throw(msg)
    decreases |entries| - k
  {
    if k < |entries| {
      assert entries[..k + 1][..k] == entries[..k];
      EntriesThrowPropagates(full, entries, k + 1, msg);
    } else {
      assert entries[..k] == entries;
    }
  }

  method OverrideMethodElement(originalElements: seq<Method>, overrides: Option<seq<MethodEntry>>)
    returns (result: Outcome<(seq<Method>, Option<seq<MethodEntry>>)>)
    ensures result == OverrideMethods(originalElements, overrides)
  {
    if overrides.None? {
      return Ok((originalElements, overrides));
    }
    var entries := overrides.value;
    var fullElementList := originalElements;
    var doneEntries: seq<MethodEntry> := [];
    var i := 0;
    while i < |entries|
      invariant 0 <= i <= |entries|
      invariant MethodEntrySteps(originalElements, entries[..i]) == Ok((fullElementList, doneEntries))
    {
      assert entries[..i + 1][..i] == entries[..i];
      var name := entries[i].key;
      var step := OverrideMethodItems(fullElementList, name, entries[i].value.Items());
      if step.Throw? {
        EntriesThrowPropagates(originalElements, entries, i + 1, step.message);
        return Throw(step.message);
      }
      var doneItems;
      fullElementList, doneItems := step.value.0, step.value.1;
      doneEntries := doneEntries + [MethodEntry(name, entries[i].value.WithItems(doneItems))];
      i := i + 1;
    }
    assert entries[..i] == entries;
    result := Ok((fullElementList, Some(doneEntries)));
  }

  /** The override list under one name, item by item; the first throw aborts. */
  method OverrideMethodItems(fullElementList: seq<Method>, name: string, overrideList: seq<MethodItem>)
    returns (result: Outcome<(seq<Method>, seq<MethodItem>)>)
    ensures result == MethodItemSteps(fullElementList, name, overrideList)
  {
    var full := fullElementList;
    var doneItems: seq<MethodItem> := [];
    var k := 0;
    while k < |overrideList|
      invariant 0 <= k <= |overrideList|
      invariant MethodItemSteps(fullElementList, name, overrideList[..k]) == Ok((full, doneItems))
    {
      assert overrideList[..k + 1][..k] == overrideList[..k];
      var step := ApplyMethodItem(full, name, overrideList[k]);
      if step.Throw? {
        ItemsThrowPropagates(fullElementList, name, overrideList, k + 1, step.message);
        return Throw(step.message);
      }
      full := step.value.0;
      doneItems := doneItems + [step.value.1];
      k := k + 1;
    }
    assert overrideList[..k] == overrideList;
    result := Ok((full, doneItems));
  }

  /** The selector test of one method: the loop over the selector's names. */
  method MatchesSelector(parameters: seq<Field>, selector: seq<string>) returns (matches: bool)
    ensures matches == SelectorMatch(parameters, selector)
  {
    var i := 0;
    while i < |selector|
      invariant 0 <= i <= |selector|
      invariant i <= |parameters|
      invariant forall t :: 0 <= t < i ==> parameters[t].name == selector[t]
    {
      if |parameters| <= i || parameters[i].name != selector[i] {
        return false;
      }
      i := i + 1;
    }
    return true;
  }

  /** The overloads a selector keeps, as indices into the full list, in order. */
  method SelectCandidates(full: seq<Method>, name: string, selector: seq<string>) returns (candidates: seq<nat>)
    ensures forall c :: 0 <= c < |candidates| ==> candidates[c] < |full| && SelectedBy(name, selector)(full[candidates[c]])
    ensures forall t :: 0 <= t < |full| && SelectedBy(name, selector)(full[t]) ==> t in candidates
    ensures forall a, b :: 0 <= a < b < |candidates| ==> candidates[a] < candidates[b]
  {
    candidates := [];
    var j := 0;
    while j < |full|
      invariant 0 <= j <= |full|
      invariant forall c :: 0 <= c < |candidates| ==> candidates[c] < j && SelectedBy(name, selector)(full[candidates[c]])
      invariant forall t :: 0 <= t < j && SelectedBy(name, selector)(full[t]) ==> t in candidates
      invariant forall a, b :: 0 <= a < b < |candidates| ==> candidates[a] < candidates[b]
    {
      if full[j].name == name {
        var matches := MatchesSelector(full[j].parameters, selector);
        if matches {
          candidates := candidates + [j];
        }
      }
      j := j + 1;
    }
  }

  /** The first of a list of increasing indices holding exactly the indices that satisfy
      `p` is the first index satisfying `p`. */
  lemma FirstCandidate(full: seq<Method>, p: Method -> bool, candidates: seq<nat>)
    requires forall c :: 0 <= c < |candidates| ==> candidates[c] < |full| && p(full[candidates[c]])
    requires forall t :: 0 <= t < |full| && p(full[t]) ==> t in candidates
    requires forall a, b :: 0 <= a < b < |candidates| ==> candidates[a] < candidates[b]
    ensures candidates == [] <==> FirstIndex(full, p).None?
    ensures candidates != [] ==> FirstIndex(full, p) == Some(candidates[0])
  {
    var r := FirstIndex(full, p);
    if r.Some? {
      assert r.value in candidates;
    }
  }

  /** The body of the loop over the items under one name. */
  method ApplyMethodItem(full: seq<Method>, name: string, item: MethodItem)
    returns (r: Outcome<(seq<Method>, MethodItem)>)
    ensures r == MethodItemStep(full, name, item)
  {
    if item.Selector? {
      var candidates := SelectCandidates(full, name, item.findByParameters);
      FirstCandidate(full, SelectedBy(name, item.findByParameters), candidates);
      if |candidates| == 0 {
        return Ok((full, Selector(item.findByParameters, item.edit, Started.Note(SelectFailMessage(name)))));
      }
      var applied := ApplyToTarget(full, name, item.edit, Some(candidates[0]));
      if applied.Throw? {
        return Throw(applied.message);
      }
      return Ok((applied.value.0, Selector(item.findByParameters, applied.value.1, Tracking(Some(true), Some([])))));
    }
    var applied := ApplyToTarget(full, name, item.edit, FirstIndex(full, MethodNamed(name)));
    if applied.Throw? {
      return Throw(applied.message);
    }
    return Ok((applied.value.0, Plain(applied.value.1)));
  }

  method ApplyToTarget(full: seq<Method>, name: string, o: MethodOverride, target: Option<nat>)
    returns (r: Outcome<(seq<Method>, MethodOverride)>)
    requires target.Some? ==> target.value < |full|
    ensures r == ApplyMethodOverride(full, name, o, target)
  {
    var track := Started;
    if o.operation == Some("discuss") {
      track := track.Note(DiscussMessage);
    } else if o.operation == Some("add") {
      return Throw(AddMessage);
    } else if o.operation == Some("remove") {
      if target.None? {
        track := track.Note(NotFoundMessage(name));
      } else {
        return Ok((RemoveAt(full, target.value), o.(track := track.Mark(true))));
      }
    } else if IsChange(o.operation) {
      if target.None? {
        track := track.Note(NotFoundMessage(name));
      } else {
        var changed := ChangeMethodElement(full[target.value], name, o);
        if changed.Throw? {
          return Throw(changed.message);
        }
        return Ok((full[target.value := changed.value.0], changed.value.1));
      }
    } else {
      track := track.Note("Unexpected operation " + o.operation.value + " for element " + Show(o.name));
    }
    return Ok((full, o.(track := track)));
  }

  method ChangeMethodElement(targetElement: Method, name: string, o: MethodOverride)
    returns (r: Outcome<(Method, MethodOverride)>)
    ensures r == ChangeMethod(targetElement, name, o)
  {
    var m := targetElement;
    var track := Started;
    var annotated := o;
    if o.name.Some? {
      m := m.(name := o.name.value);
    }
    if o.description.Some? {
      m := m.(description := o.description.value);
    }
    if o.category.Some? {
      m := m.(category := o.category);
    }
    if o.system.Some? {
      if !ValidSystem(o.system.value) {
        track := track.Note("An invalid system was specified in system method " + name + ": " + o.system.value);
      }
      m := m.(system := o.system.value);
    }
    if o.parameters.Some? {
      var params, done := OverrideParameters(m.parameters, o.parameters.value);
      m := m.(parameters := params);
      annotated := annotated.(parameters := Some(done));
    }
    if o.returnTypes.Some? {
      var rts, done := OverrideReturnType(m.returnTypes.GetOr([]), o.returnTypes);
      m := m.(returnTypes := Some(rts));
      annotated := annotated.(returnTypes := done);
    }
    if o.returnIsArray.Some? {
      return Throw(ReturnIsArrayMessage);
    }
    return Ok((m, annotated.(track := track.Mark(true))));
  }

  /** The loop over the entries of a method's `parameters` override. */
  method OverrideParameters(parameters: seq<Field>, entries: seq<FieldEntry>)
    returns (result: seq<Field>, done: seq<FieldEntry>)
    ensures (result, done) == PatchParameters(parameters, entries)
  {
    result := parameters;
    done := [];
    var i := 0;
    while i < |entries|
      invariant 0 <= i <= |entries|
      invariant (result, done) == PatchParameters(parameters, entries[..i])
    {
      assert entries[..i + 1][..i] == entries[..i];
      var patched, entry := OverrideParameter(result, entries[i]);
      result := patched;
      done := done + [entry];
      i := i + 1;
    }
    assert entries[..i] == entries;
  }

  /** One entry of a method's `parameters` override, applied to the parameter it names. */
  method OverrideParameter(parameters: seq<Field>, entry: FieldEntry) returns (result: seq<Field>, done: FieldEntry)
    ensures (result, done) == PatchParameter(parameters, entry)
  {
    var name := entry.key;
    var po := entry.edit;
    var found := FirstIndex(parameters, Named(name));
    if found.None? {
      return parameters, FieldEntry(name, po.(track := Started.Note("Could not find parameter with name " + name)));
    }
    var target := parameters[found.value];
    if po.name.Some? {
      target := target.(name := po.name.value);
    }
    if po.description.Some? {
      target := target.(description := po.description.value);
    }
    if po.isOptional.Some? {
      target := target.(isOptional := po.isOptional);
    }
    if po.defaultValue.Some? {
      target := target.(defaultValue := po.defaultValue);
    }
    ghost var p := parameters[found.value];
    assert target == Field(po.name.GetOr(p.name), po.description.GetOr(p.description),
                           po.isOptional.OrElse(p.isOptional), po.defaultValue.OrElse(p.defaultValue), p.typ);
    if po.typ.Some? {
      ghost var u := Unwrap(p.typ, po.isArray);
      var convertToArray := po.isArray;
      var originalArrayType: Option<string> := None;
      if target.typ.ArrayType? {
        originalArrayType := target.typ.originalType;
        target := target.(typ := target.typ.elem);
        convertToArray := if convertToArray.None? then Some(true) else convertToArray;
      }
      assert target.typ == u.inner && IsTrue(convertToArray) == u.wrap && originalArrayType == u.originalType;
      var t, sub := OverrideTypeDefinition(OrAny(Some(target.typ)), po.typ);
      if IsTrue(convertToArray) {
        t := ArrayType(t, originalArrayType);
      }
      target := target.(typ := t);
      po := po.(typ := sub);
    }
    result := parameters[found.value := target];
    done := FieldEntry(name, po.(track := Started.Mark(true)));
  }
}

/** Properties of the method override resolver. */
module MethodPatchFacts {
  import opened Types
  import opened OverrideFile
  import opened TypePatch
  import opened ReturnPatch
  import opened MethodPatch

  /** `add` on a method always throws, for a plain override, and for a selector as soon
      as it selects an overload. */
  lemma AddThrows(full: seq<Method>, name: string, o: MethodOverride, selector: seq<string>, track: Tracking)
    requires o.operation == Some("add")
    ensures MethodItemStep(full, name, Plain(o)) == Throw(AddMessage)
    ensures MethodItemStep(full, name, Selector(selector, o, track)).Throw? <==>
              exists k :: 0 <= k < |full| && full[k].name == name && SelectorMatch(full[k].parameters, selector)
  {
    if exists k :: 0 <= k < |full| && full[k].name == name && SelectorMatch(full[k].parameters, selector) {
      var k :| 0 <= k < |full| && full[k].name == name && SelectorMatch(full[k].parameters, selector);
      assert SelectedBy(name, selector)(full[k]);
    }
  }

  /** A `change` that reaches an overload and sets `returnIsArray` throws. */
  lemma ReturnIsArrayThrows(full: seq<Method>, name: string, o: MethodOverride)
    requires IsChange(o.operation) && o.returnIsArray.Some?
    requires exists k :: 0 <= k < |full| && full[k].name == name
    ensures MethodItemStep(full, name, Plain(o)) == Throw(ReturnIsArrayMessage)
  {
    var k :| 0 <= k < |full| && full[k].name == name;
    assert MethodNamed(name)(full[k]);
  }

  /** A plain `remove` deletes exactly the first overload with the name, keeping the
      others in order; with no such overload it records an issue and changes nothing. */
  lemma RemoveFirstOverload(full: seq<Method>, name: string, o: MethodOverride)
    requires o.operation == Some("remove")
    ensures MethodItemStep(full, name, Plain(o)).Ok?
    ensures var pair := MethodItemStep(full, name, Plain(o)).value;
            var r := pair.0;
            var item := pair.1;
            match FirstIndex(full, MethodNamed(name))
            case None =>
              r == full && item == Plain(o.(track := Tracking(Some(false), Some([NotFoundMessage(name)]))))
            case Some(j) =>
              && full[j].name == name
              && (forall k :: 0 <= k < j ==> full[k].name != name)
              && r == full[..j] + full[j + 1..]
              && item == Plain(o.(track := Tracking(Some(true), Some([]))))
  {
  }

  /** Two items under one name are applied one after the other. */
  lemma TwoItems(full: seq<Method>, name: string, a: MethodItem, b: MethodItem)
    requires MethodItemStep(full, name, a).Ok?
    ensures MethodItemSteps(full, name, [a, b])
              == match MethodItemStep(MethodItemStep(full, name, a).value.0, name, b)
                 case Throw(msg) => Throw(msg)
                 case Ok((after, last)) => Ok((after, [MethodItemStep(full, name, a).value.1, last]))
  {
    var items := [a, b];
    assert items[..1][..0] == [];
    var none: seq<MethodItem> := [];
    var first := MethodItemStep(full, name, a).value;
    assert none + [first.1] == [first.1];
    assert MethodItemSteps(full, name, items[..1]) == Ok((first.0, [first.1]));
    assert items[..|items| - 1] == items[..1];
    var second := MethodItemStep(first.0, name, b);
    if second.Ok? {
      assert [first.1] + [second.value.1] == [first.1, second.value.1];
    }
  }

  /** Two plain removes under one name delete the first two overloads with that name. */
  lemma TwoRemovesDeleteTwoOverloads(full: seq<Method>, name: string, o: MethodOverride, i: nat, j: nat)
    requires o.operation == Some("remove")
    requires i < j < |full| && full[i].name == name && full[j].name == name
    requires forall k :: 0 <= k < j && k != i ==> full[k].name != name
    ensures MethodItemSteps(full, name, [Plain(o), Plain(o)]).Ok?
    ensures MethodItemSteps(full, name, [Plain(o), Plain(o)]).value.0
              == full[..i] + full[i + 1..j] + full[j + 1..]
  {
    assert MethodNamed(name)(full[i]);
    assert FirstIndex(full, MethodNamed(name)) == Some(i);
    RemoveFirstOverload(full, name, o);
    var once := full[..i] + full[i + 1..];
    assert MethodItemStep(full, name, Plain(o)).value.0 == once;
    SecondOverload(full, name, i, j);
    RemoveFirstOverload(once, name, o);
    var second := MethodItemStep(once, name, Plain(o));
    assert second.Ok? && second.value.0 == once[..j - 1] + once[j..];
    TwoItems(full, name, Plain(o), Plain(o));
    assert MethodItemSteps(full, name, [Plain(o), Plain(o)]).value.0 == second.value.0;
    RemoveTwice(full, i, j);
  }

  /** Once the first overload is gone, the second is the first of its name. */
  lemma SecondOverload(full: seq<Method>, name: string, i: nat, j: nat)
    requires i < j < |full| && full[j].name == name
    requires forall k :: 0 <= k < j && k != i ==> full[k].name != name
    ensures FirstIndex(full[..i] + full[i + 1..], MethodNamed(name)) == Some(j - 1)
  {
    var once := full[..i] + full[i + 1..];
    assert once[j - 1] == full[j];
    assert MethodNamed(name)(once[j - 1]);
    forall k | 0 <= k < j - 1
      ensures !MethodNamed(name)(once[k])
    {
      if k < i {
        assert once[k] == full[k];
      } else {
        assert once[k] == full[k + 1];
      }
    }
  }

  lemma RemoveTwice<T>(s: seq<T>, i: nat, j: nat)
    requires i < j < |s|
    ensures (s[..i] + s[i + 1..])[..j - 1] + (s[..i] + s[i + 1..])[j..] == s[..i] + s[i + 1..j] + s[j + 1..]
  {
    var once := s[..i] + s[i + 1..];
    assert once[..j - 1] == s[..i] + s[i + 1..j];
    assert once[j..] == s[j + 1..];
  }

  /** A `change` touches only its target overload. An invalid `system` value is still
      assigned, and recorded as an issue; the override is marked processed. */
  lemma ChangeSystem(full: seq<Method>, name: string, o: MethodOverride, j: nat, system: string)
    requires IsChange(o.operation) && o.returnIsArray.None? && o.system == Some(system)
    requires j < |full| && full[j].name == name && forall k :: 0 <= k < j ==> full[k].name != name
    ensures MethodItemStep(full, name, Plain(o)).Ok?
    ensures var pair := MethodItemStep(full, name, Plain(o)).value;
            var r := pair.0;
            var item := pair.1;
            && |r| == |full|
            && (forall k :: 0 <= k < |full| && k != j ==> r[k] == full[k])
            && r[j].system == system
            && r[j].description == o.description.GetOr(full[j].description)
            && IsTrue(item.edit.track.processed)
            && item.edit.track.IssueList()
                 == (if ValidSystem(system) then [] else ["An invalid system was specified in system method " + name + ": " + system])
  {
    assert MethodNamed(name)(full[j]);
    assert FirstIndex(full, MethodNamed(name)) == Some(j);
  }

  /** A selector that selects no overload records one issue on itself, changes nothing
      and leaves its override untouched. */
  lemma SelectorWithoutCandidates(full: seq<Method>, name: string, selector: seq<string>, o: MethodOverride, track: Tracking)
    requires forall k :: 0 <= k < |full| ==> !(full[k].name == name && SelectorMatch(full[k].parameters, selector))
    ensures MethodItemStep(full, name, Selector(selector, o, track))
              == Ok((full, Selector(selector, o, Tracking(Some(false), Some([SelectFailMessage(name)])))))
  {
    assert FirstIndex(full, SelectedBy(name, selector)).None?;
  }

  /** `discuss` on a method changes nothing and leaves its override unprocessed with
      exactly the discussion issue. Under a selector that selects an overload the
      selector itself is consumed; one that selects none is `SelectorWithoutCandidates`. */
  lemma MethodDiscuss(full: seq<Method>, name: string, o: MethodOverride, selector: seq<string>, track: Tracking)
    requires o.operation == Some("discuss")
    ensures MethodItemStep(full, name, Plain(o))
              == Ok((full, Plain(o.(track := Tracking(Some(false), Some([DiscussMessage]))))))
    ensures (exists k :: 0 <= k < |full| && full[k].name == name && SelectorMatch(full[k].parameters, selector)) ==>
              MethodItemStep(full, name, Selector(selector, o, track))
                == Ok((full, Selector(selector, o.(track := Tracking(Some(false), Some([DiscussMessage]))),
                                      Tracking(Some(true), Some([])))))
  {
    if exists k :: 0 <= k < |full| && full[k].name == name && SelectorMatch(full[k].parameters, selector) {
      var k :| 0 <= k < |full| && full[k].name == name && SelectorMatch(full[k].parameters, selector);
      assert SelectedBy(name, selector)(full[k]);
    }
  }

  /** A `remove` under a selector deletes exactly the first overload the selector
      selects, keeping the others in order, and both the selector and its override are
      consumed; a selector that selects none changes nothing and records its issue. */
  lemma SelectorRemove(full: seq<Method>, name: string, selector: seq<string>, o: MethodOverride, track: Tracking)
    requires o.operation == Some("remove")
    ensures MethodItemStep(full, name, Selector(selector, o, track)).Ok?
    ensures var pair := MethodItemStep(full, name, Selector(selector, o, track)).value;
            var r := pair.0;
            var item := pair.1;
            match FirstIndex(full, SelectedBy(name, selector))
            case None =>
              r == full && item == Selector(selector, o, Tracking(Some(false), Some([SelectFailMessage(name)])))
            case Some(j) =>
              && full[j].name == name && SelectorMatch(full[j].parameters, selector)
              && (forall k :: 0 <= k < j ==> !(full[k].name == name && SelectorMatch(full[k].parameters, selector)))
              && r == full[..j] + full[j + 1..]
              && item == Selector(selector, o.(track := Tracking(Some(true), Some([]))), Tracking(Some(true), Some([])))
  {
    match FirstIndex(full, SelectedBy(name, selector))
    case None =>
    case Some(j) =>
      forall k | 0 <= k < j
        ensures !(full[k].name == name && SelectorMatch(full[k].parameters, selector))
      {
        assert !SelectedBy(name, selector)(full[k]);
      }
  }

  /** Of the overloads `move(x, y)` and `move(target)`, the selector ["target"] with a
      description change rewrites only the second. */
  lemma SelectorDisambiguates(x: Field, y: Field, target: Field, o: MethodOverride)
    requires x.name == "x" && y.name == "y" && target.name == "target"
    requires o == MethodOverride(None, None, Some("D"), None, None, None, None, None, Tracking(None, None))
    ensures var first := Method("move", None, "moves by offset", "Server", [x, y], None);
            var second := Method("move", None, "moves to a target", "Server", [target], None);
            var step := MethodItemStep([first, second], "move", Selector(["target"], o, Tracking(None, None)));
            step.Ok? && step.value.0 == [first, second.(description := "D")]
  {
    var first := Method("move", None, "moves by offset", "Server", [x, y], None);
    var second := Method("move", None, "moves to a target", "Server", [target], None);
    assert first.parameters[0].name != ["target"][0];
    assert !SelectedBy("move", ["target"])(first);
    assert SelectedBy("move", ["target"])(second);
    assert FirstIndex([first, second], SelectedBy("move", ["target"])) == Some(1);
  }

  /** Entries of a method's `parameters` override ignore `_operation`: a "remove" or
      "add" entry edits the parameter exactly as a change would, and the list keeps its
      length. */
  lemma ParameterOperationIgnored(parameters: seq<Field>, name: string, po: FieldOverride)
    ensures var pair := PatchParameter(parameters, FieldEntry(name, po));
            var r := pair.0;
            var e := pair.1;
            var (r', e') := PatchParameter(parameters, FieldEntry(name, po.(operation := None)));
            && r == r' && |r| == |parameters|
            && e == FieldEntry(name, e'.edit.(operation := po.operation))
  {
  }

  /** A parameter of array type changed with `isArray` unset keeps its array-ness and
      label; a missing parameter records one issue. */
  lemma ParameterChange(parameters: seq<Field>, name: string, po: FieldOverride)
    ensures var pair := PatchParameter(parameters, FieldEntry(name, po));
            var r := pair.0;
            var e := pair.1;
            match FirstIndex(parameters, Named(name))
            case None =>
              r == parameters && e.edit.track == Tracking(Some(false), Some(["Could not find parameter with name " + name]))
            case Some(i) =>
              var p := parameters[i];
              && |r| == |parameters|
              && (forall k :: 0 <= k < |parameters| && k != i ==> r[k] == parameters[k])
              && r[i].name == po.name.GetOr(p.name)
              && (po.typ.None? ==> r[i].typ == p.typ)
              && (po.typ.Some? && p.typ.ArrayType? && po.isArray.None? ==>
                    r[i].typ == ArrayType(OverrideType(OrAny(Some(p.typ.elem)), po.typ).0, p.typ.originalType))
              && IsTrue(e.edit.track.processed)
  {
  }

  /** Where the selector test as written does not throw, it agrees with the intended
      test; it throws exactly when the selector is longer than the parameter list and
      every parameter matches the selector's name at its position. */
  lemma {:induction false} SelectorAsWrittenFrom(parameters: seq<Field>, selector: seq<string>, i: nat)
    requires i <= |selector| && i <= |parameters|
    requires forall t :: 0 <= t < i ==> parameters[t].name == selector[t]
    ensures var throws := |parameters| < |selector| && forall t :: 0 <= t < |parameters| ==> parameters[t].name == selector[t];
            SelectorMatchAsWritten(parameters, selector, i)
              == if throws then Throw(UndefinedNameMessage) else Ok(SelectorMatch(parameters, selector))
    decreases |selector| - i
  {
    if i < |selector| && i < |parameters| && parameters[i].name == selector[i] {
      SelectorAsWrittenFrom(parameters, selector, i + 1);
    }
  }

  /** The overload `move(x)` and the selector ["x", "y"]: the code as written throws where
      the intended test reports no match. */
  lemma SelectorBoundCounterexample(x: Field)
    requires x.name == "x"
    ensures SelectorMatchAsWritten([x], ["x", "y"], 0) == Throw(UndefinedNameMessage)
    ensures !SelectorMatch([x], ["x", "y"])
  {
  }
}
