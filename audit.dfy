/** The consumption auditor (`removeProcessedComponents`): a walk over the override
    file as a JSON tree that deletes every entry marked `_processed` whose own subtree
    was fully consumed, and reports whether every entry it met was consumed. */
module Audit {
  import opened Types

  /** The values an override file holds. No override carries `null`: the walk would
      throw reading `_processed` on it. */
  datatype Json =
    | JBool(b: bool)
    | JNum(n: int)
    | JStr(s: string)
    | JArr(items: seq<Json>)
    | JObj(props: seq<Prop>)

  datatype Prop = Prop(key: string, value: Json)

  /** JavaScript truthiness. */
  predicate Truthy(j: Json) {
    match j
    case JBool(b) => b
    case JNum(n) => n != 0
    case JStr(s) => s != ""
    case _ => true
  }

  /** Arrays and objects: the values `removeProcessedComponents` descends into. */
  predicate IsContainer(j: Json) {
    j.JArr? || j.JObj?
  }

  /** The value of the first property with the given key. */
  function Lookup(props: seq<Prop>, key: string): (r: Option<Json>)
    ensures r.Some? ==> exists i :: 0 <= i < |props| && props[i] == Prop(key, r.value)
    ensures r.None? ==> forall i :: 0 <= i < |props| ==> props[i].key != key
  {
    if props == [] then None
    else if props[0].key == key then Some(props[0].value)
    else Lookup(props[1..], key)
  }

  /** The entry's own `_processed` value, if it has one; only an object can. */
  function ProcessedOf(j: Json): Option<Json> {
    if j.JObj? then Lookup(j.props, "_processed") else None
  }

  /** The check on one entry (src/overrides.ts:736): its `_processed` is either absent
      or truthy. */
  predicate ProcessedOk(j: Json) {
    ProcessedOf(j).None? || Truthy(ProcessedOf(j).value)
  }

  /** The entry is marked consumed (src/overrides.ts:738): `_processed` is present and
      truthy. */
  predicate MarkedProcessed(j: Json) {
    ProcessedOf(j).Some? && Truthy(ProcessedOf(j).value)
  }

  function NotProcessedKey(): Prop -> bool {
    (p: Prop) => p.key != "_processed"
  }

  /** The entry without its own `_processed` key (src/overrides.ts:742); any other value
      is left as it is. */
  function WithoutProcessed(j: Json): (r: Json)
    ensures ProcessedOf(r).None?
  {
    if j.JObj? then JObj(Keep(j.props, NotProcessedKey())) else j
  }

  /** The reference meaning of a clean audit: every value inside `j`, at any depth,
      has `_processed` undefined or truthy. */
  predicate Consumed(j: Json) {
    match j
    case JArr(items) => forall i :: 0 <= i < |items| ==> ProcessedOk(items[i]) && Consumed(items[i])
    case JObj(props) => forall i :: 0 <= i < |props| ==> ProcessedOk(props[i].value) && Consumed(props[i].value)
    case _ => true
  }

  /** No value inside `j`, at any depth, carries a `_processed` key. */
  predicate Untracked(j: Json) {
    match j
    case JArr(items) => forall i :: 0 <= i < |items| ==> ProcessedOf(items[i]).None? && Untracked(items[i])
    case JObj(props) => forall i :: 0 <= i < |props| ==> ProcessedOf(props[i].value).None? && Untracked(props[i].value)
    case _ => true
  }

  /** Every `_processed` key inside `j` holds a plain value, as the engine writes it. */
  predicate WellFormed(j: Json) {
    match j
    case JArr(items) => forall i :: 0 <= i < |items| ==> WellFormed(items[i])
    case JObj(props) => forall i :: 0 <= i < |props| ==>
                          (props[i].key == "_processed" ==> !IsContainer(props[i].value)) && WellFormed(props[i].value)
    case _ => true
  }

  /** `removeProcessedComponents(items)`: whether everything inside was consumed, and
      what is left after the deletions. */
  function Prune(j: Json): (bool, Json)
    decreases j, 1
  {
    match j
    case JArr(items) =>
      var r := PruneItems(items);
      (r.0, JArr(r.1))
    case JObj(props) =>
      var r := PruneProps(props);
      (r.0, JObj(r.1))
    case _ => (true, j)
  }

  /** One entry of the walk: whether it and its subtree were consumed, and what remains
      of it (nothing when it is deleted). */
  function PruneChild(c: Json): (bool, Option<Json>)
    decreases c, 2
  {
    var r := Prune(c);
    var touched := r.0 && ProcessedOk(c);
    if MarkedProcessed(c) then
      (touched, if r.0 then None else Some(WithoutProcessed(r.1)))
    else
      (touched, Some(r.1))
  }

  function PruneItems(items: seq<Json>): (bool, seq<Json>)
    decreases items, 0
  {
    if items == [] then (true, [])
    else
      var init := PruneItems(items[..|items| - 1]);
      var last := PruneChild(items[|items| - 1]);
      (init.0 && last.0, init.1 + if last.1.Some? then [last.1.value] else [])
  }

  function PruneProps(props: seq<Prop>): (bool, seq<Prop>)
    decreases props, 0
  {
    if props == [] then (true, [])
    else
      var p := props[|props| - 1];
      var init := PruneProps(props[..|props| - 1]);
      var last := PruneChild(p.value);
      (init.0 && last.0, init.1 + if last.1.Some? then [Prop(p.key, last.1.value)] else [])
  }

  method RemoveProcessedComponents(items: Json) returns (allItemsTouched: bool, remaining: Json)
    ensures (allItemsTouched, remaining) == Prune(items)
    decreases items, 1
  {
    allItemsTouched := true;
    match items {
      case JArr(elements) =>
        var kept: seq<Json> := [];
        var i := 0;
        while i < |elements|
          invariant 0 <= i <= |elements|
          invariant (allItemsTouched, kept) == PruneItems(elements[..i])
        {
          assert elements[..i + 1][..i] == elements[..i];
          var touched, rest := RemoveEntry(elements[i]);
          allItemsTouched := allItemsTouched && touched;
          kept := kept + if rest.Some? then [rest.value] else [];
          i := i + 1;
        }
        assert elements[..i] == elements;
        remaining := JArr(kept);
      case JObj(props) =>
        var kept: seq<Prop> := [];
        var i := 0;
        while i < |props|
          invariant 0 <= i <= |props|
          invariant (allItemsTouched, kept) == PruneProps(props[..i])
        {
          assert props[..i + 1][..i] == props[..i];
          var touched, rest := RemoveEntry(props[i].value);
          allItemsTouched := allItemsTouched && touched;
          kept := kept + if rest.Some? then [Prop(props[i].key, rest.value)] else [];
          i := i + 1;
        }
        assert props[..i] == props;
        remaining := JObj(kept);
      case _ =>
        remaining := items;
    }
  }

  /** The body of the loop over the entries of one object or array. */
  method RemoveEntry(item: Json) returns (touched: bool, rest: Option<Json>)
    ensures (touched, rest) == PruneChild(item)
    decreases item, 2
  {
    var allChildItemsTouched := true;
    var pruned := item;
    if IsContainer(item) {
      allChildItemsTouched, pruned := RemoveProcessedComponents(item);
    }
    touched := allChildItemsTouched && ProcessedOk(item);
    rest := Some(pruned);
    if MarkedProcessed(item) {
      if allChildItemsTouched {
        rest := None;
      } else {
        rest := Some(WithoutProcessed(pruned));
      }
    }
  }
}

/** Properties of the consumption auditor. */
module AuditFacts {
  import opened Types
  import opened Audit

  predicate ItemsConsumed(items: seq<Json>) {
    forall i :: 0 <= i < |items| ==> ProcessedOk(items[i]) && Consumed(items[i])
  }

  predicate PropsConsumed(props: seq<Prop>) {
    forall i :: 0 <= i < |props| ==> ProcessedOk(props[i].value) && Consumed(props[i].value)
  }

  predicate ItemsUntracked(items: seq<Json>) {
    forall i :: 0 <= i < |items| ==> ProcessedOf(items[i]).None? && Untracked(items[i])
  }

  predicate PropsUntracked(props: seq<Prop>) {
    forall i :: 0 <= i < |props| ==> ProcessedOf(props[i].value).None? && Untracked(props[i].value)
  }

  predicate ItemsWellFormed(items: seq<Json>) {
    forall i :: 0 <= i < |items| ==> WellFormed(items[i])
  }

  predicate PropsWellFormed(props: seq<Prop>) {
    forall i :: 0 <= i < |props| ==>
      (props[i].key == "_processed" ==> !IsContainer(props[i].value)) && WellFormed(props[i].value)
  }

  lemma ItemsConsumedSplit(items: seq<Json>, n: nat)
    requires n == |items| - 1
    ensures ItemsConsumed(items) == (ItemsConsumed(items[..n]) && ProcessedOk(items[n]) && Consumed(items[n]))
  {
    if ItemsConsumed(items[..n]) && ProcessedOk(items[n]) && Consumed(items[n]) {
      forall i | 0 <= i < |items|
        ensures ProcessedOk(items[i]) && Consumed(items[i])
      {
        if i < n {
          assert items[i] == items[..n][i];
        }
      }
    }
  }

  lemma PropsConsumedSplit(props: seq<Prop>, n: nat)
    requires n == |props| - 1
    ensures PropsConsumed(props) == (PropsConsumed(props[..n]) && ProcessedOk(props[n].value) && Consumed(props[n].value))
  {
    if PropsConsumed(props[..n]) && ProcessedOk(props[n].value) && Consumed(props[n].value) {
      forall i | 0 <= i < |props|
        ensures ProcessedOk(props[i].value) && Consumed(props[i].value)
      {
        if i < n {
          assert props[i] == props[..n][i];
        }
      }
    }
  }

  lemma ItemsConsumedAppend(a: seq<Json>, b: seq<Json>)
    ensures ItemsConsumed(a + b) == (ItemsConsumed(a) && ItemsConsumed(b))
  {
    if ItemsConsumed(a + b) {
      assert forall i :: 0 <= i < |a| ==> (a + b)[i] == a[i];
      forall i | 0 <= i < |b| ensures ProcessedOk(b[i]) && Consumed(b[i]) {
        assert (a + b)[|a| + i] == b[i];
      }
    }
  }

  lemma PropsConsumedAppend(a: seq<Prop>, b: seq<Prop>)
    ensures PropsConsumed(a + b) == (PropsConsumed(a) && PropsConsumed(b))
  {
    if PropsConsumed(a + b) {
      assert forall i :: 0 <= i < |a| ==> (a + b)[i] == a[i];
      forall i | 0 <= i < |b| ensures ProcessedOk(b[i].value) && Consumed(b[i].value) {
        assert (a + b)[|a| + i] == b[i];
      }
    }
  }

  lemma {:induction false} LookupSnoc(props: seq<Prop>, p: Prop, key: string)
    ensures Lookup(props + [p], key)
              == if Lookup(props, key).Some? then Lookup(props, key)
                 else if p.key == key then Some(p.value) else None
  {
    if props == [] {
      assert props + [p] == [p];
    } else {
      assert (props + [p])[1..] == props[1..] + [p];
      LookupSnoc(props[1..], p, key);
    }
  }

  // ---- The verdict: `removeProcessedComponents` returns true exactly when consumed.

  lemma {:induction false} PruneDecides(j: Json)
    ensures Prune(j).0 == Consumed(j)
    decreases j, 1
  {
    match j {
      case JArr(items) => PruneItemsDecides(items);
      case JObj(props) => PrunePropsDecides(props);
      case _ =>
    }
  }

  lemma {:induction false} PruneChildDecides(c: Json)
    ensures PruneChild(c).0 == (ProcessedOk(c) && Consumed(c))
    decreases c, 2
  {
    PruneDecides(c);
  }

  lemma {:induction false} PruneItemsDecides(items: seq<Json>)
    ensures PruneItems(items).0 == ItemsConsumed(items)
    decreases items, 0
  {
    if items != [] {
      var n := |items| - 1;
      PruneItemsDecides(items[..n]);
      PruneChildDecides(items[n]);
      ItemsConsumedSplit(items, n);
    }
  }

  lemma {:induction false} PrunePropsDecides(props: seq<Prop>)
    ensures PruneProps(props).0 == PropsConsumed(props)
    decreases props, 0
  {
    if props != [] {
      var n := |props| - 1;
      PrunePropsDecides(props[..n]);
      PruneChildDecides(props[n].value);
      PropsConsumedSplit(props, n);
    }
  }

  // ---- A key the walk never deletes stays readable.

  lemma {:induction false} PruneKeepsAbsentKey(props: seq<Prop>, key: string)
    requires Lookup(props, key).None?
    ensures Lookup(PruneProps(props).1, key).None?
  {
    if props != [] {
      var n := |props| - 1;
      PruneKeepsAbsentKey(props[..n], key);
      var kept := PruneProps(props[..n]).1;
      var rest := PruneChild(props[n].value).1;
      if rest.Some? {
        LookupSnoc(kept, Prop(props[n].key, rest.value), key);
      } else {
        assert kept + [] == kept;
      }
    }
  }

  lemma {:induction false} PruneKeepsProcessed(props: seq<Prop>)
    requires PropsWellFormed(props)
    ensures Lookup(PruneProps(props).1, "_processed") == Lookup(props, "_processed")
  {
    if props != [] {
      var n := |props| - 1;
      assert PropsWellFormed(props[..n]) by {
        assert forall i :: 0 <= i < n ==> props[..n][i] == props[i];
      }
      PruneKeepsProcessed(props[..n]);
      PruneChildWellFormed(props[n].value);
      var kept := PruneProps(props[..n]).1;
      var rest := PruneChild(props[n].value).1;
      LookupSnoc(props[..n], props[n], "_processed");
      assert props[..n] + [props[n]] == props;
      if rest.Some? {
        LookupSnoc(kept, Prop(props[n].key, rest.value), "_processed");
      } else {
        assert kept + [] == kept;
      }
    }
  }

  // ---- A clean audit leaves no bookkeeping behind.

  lemma {:induction false} PruneUntracked(j: Json)
    requires Consumed(j)
    ensures Untracked(Prune(j).1)
    decreases j, 1
  {
    match j {
      case JArr(items) => PruneItemsUntracked(items);
      case JObj(props) => PrunePropsUntracked(props);
      case _ =>
    }
  }

  lemma {:induction false} PruneChildUntracked(c: Json)
    requires ProcessedOk(c) && Consumed(c)
    ensures PruneChild(c).1.Some? ==>
              ProcessedOf(PruneChild(c).1.value).None? && Untracked(PruneChild(c).1.value)
    decreases c, 2
  {
    PruneDecides(c);
    PruneUntracked(c);
    if c.JObj? && !MarkedProcessed(c) {
      PruneKeepsAbsentKey(c.props, "_processed");
    }
  }

  lemma {:induction false} PruneItemsUntracked(items: seq<Json>)
    requires ItemsConsumed(items)
    ensures ItemsUntracked(PruneItems(items).1)
    decreases items, 0
  {
    if items != [] {
      var n := |items| - 1;
      ItemsConsumedSplit(items, n);
      PruneItemsUntracked(items[..n]);
      PruneChildUntracked(items[n]);
    }
  }

  lemma {:induction false} PrunePropsUntracked(props: seq<Prop>)
    requires PropsConsumed(props)
    ensures PropsUntracked(PruneProps(props).1)
    decreases props, 0
  {
    if props != [] {
      var n := |props| - 1;
      PropsConsumedSplit(props, n);
      PrunePropsUntracked(props[..n]);
      PruneChildUntracked(props[n].value);
    }
  }

  // ---- The walk keeps the tree well formed.

  lemma WithoutProcessedWellFormed(x: Json)
    requires WellFormed(x)
    ensures WellFormed(WithoutProcessed(x))
  {
  }

  lemma {:induction false} PruneWellFormed(j: Json)
    requires WellFormed(j)
    ensures WellFormed(Prune(j).1)
    decreases j, 1
  {
    match j {
      case JArr(items) => PruneItemsWellFormed(items);
      case JObj(props) => PrunePropsWellFormed(props);
      case _ =>
    }
  }

  lemma {:induction false} PruneChildWellFormed(c: Json)
    requires WellFormed(c)
    ensures PruneChild(c).1.Some? ==> WellFormed(PruneChild(c).1.value)
    ensures !IsContainer(c) ==> PruneChild(c).1 == Some(c)
    decreases c, 2
  {
    PruneWellFormed(c);
    WithoutProcessedWellFormed(Prune(c).1);
  }

  lemma {:induction false} PruneItemsWellFormed(items: seq<Json>)
    requires ItemsWellFormed(items)
    ensures ItemsWellFormed(PruneItems(items).1)
    decreases items, 0
  {
    if items != [] {
      var n := |items| - 1;
      PruneItemsWellFormed(items[..n]);
      PruneChildWellFormed(items[n]);
    }
  }

  lemma {:induction false} PrunePropsWellFormed(props: seq<Prop>)
    requires PropsWellFormed(props)
    ensures PropsWellFormed(PruneProps(props).1)
    decreases props, 0
  {
    if props != [] {
      var n := |props| - 1;
      assert PropsWellFormed(props[..n]) by {
        assert forall i :: 0 <= i < n ==> props[..n][i] == props[i];
      }
      PrunePropsWellFormed(props[..n]);
      PruneChildWellFormed(props[n].value);
    }
  }

  // ---- A failed audit still shows a stale entry in its report.

  /** Deleting a well-formed object's own `_processed` key does not hide a stale entry. */
  lemma WithoutProcessedStale(x: Json)
    requires WellFormed(x) && !Consumed(x)
    ensures !Consumed(WithoutProcessed(x))
  {
    if x.JObj? {
      var i :| 0 <= i < |x.props| && !(ProcessedOk(x.props[i].value) && Consumed(x.props[i].value));
      assert IsContainer(x.props[i].value);
      assert NotProcessedKey()(x.props[i]);
      assert x.props[i] in WithoutProcessed(x).props;
    }
  }

  lemma {:induction false} PruneStale(j: Json)
    requires WellFormed(j) && !Consumed(j)
    ensures !Consumed(Prune(j).1)
    decreases j, 1
  {
    match j {
      case JArr(items) => PruneItemsStale(items);
      case JObj(props) => PrunePropsStale(props);
    }
  }

  /** A stale entry survives the walk, as a stale entry. */
  lemma {:induction false} PruneChildStale(c: Json)
    requires WellFormed(c) && !(ProcessedOk(c) && Consumed(c))
    ensures PruneChild(c).1.Some?
    ensures !(ProcessedOk(PruneChild(c).1.value) && Consumed(PruneChild(c).1.value))
    decreases c, 2
  {
    PruneDecides(c);
    if !ProcessedOk(c) {
      PruneKeepsProcessed(c.props);
    } else {
      PruneStale(c);
      PruneWellFormed(c);
      if MarkedProcessed(c) {
        WithoutProcessedStale(Prune(c).1);
      }
    }
  }

  lemma {:induction false} PruneItemsStale(items: seq<Json>)
    requires ItemsWellFormed(items) && !ItemsConsumed(items)
    ensures !ItemsConsumed(PruneItems(items).1)
    decreases items, 0
  {
    var n := |items| - 1;
    ItemsConsumedSplit(items, n);
    var kept := PruneItems(items[..n]).1;
    var rest := PruneChild(items[n]).1;
    ItemsConsumedAppend(kept, if rest.Some? then [rest.value] else []);
    if !ItemsConsumed(items[..n]) {
      PruneItemsStale(items[..n]);
    } else {
      PruneChildStale(items[n]);
      assert !ItemsConsumed([rest.value]) by {
        assert [rest.value][0] == rest.value;
      }
    }
  }

  lemma {:induction false} PrunePropsStale(props: seq<Prop>)
    requires PropsWellFormed(props) && !PropsConsumed(props)
    ensures !PropsConsumed(PruneProps(props).1)
    decreases props, 0
  {
    var n := |props| - 1;
    PropsConsumedSplit(props, n);
    assert PropsWellFormed(props[..n]) by {
      assert forall i :: 0 <= i < n ==> props[..n][i] == props[i];
    }
    var kept := PruneProps(props[..n]).1;
    var rest := PruneChild(props[n].value).1;
    PropsConsumedAppend(kept, if rest.Some? then [Prop(props[n].key, rest.value)] else []);
    if !PropsConsumed(props[..n]) {
      PrunePropsStale(props[..n]);
    } else {
      PruneChildStale(props[n].value);
      var last := Prop(props[n].key, rest.value);
      assert !PropsConsumed([last]) by {
        assert [last][0].value == rest.value;
      }
    }
  }

  /** The audit of one override collection: it passes exactly when every entry at every
      depth was consumed; a passing audit deletes every consumed entry, so no
      bookkeeping is left in the report; a failing one leaves a stale entry in it. */
  lemma AuditVerdict(j: Json)
    requires WellFormed(j)
    ensures Prune(j).0 <==> Consumed(j)
    ensures Consumed(j) ==> Untracked(Prune(j).1)
    ensures !Consumed(j) ==> !Consumed(Prune(j).1)
  {
    PruneDecides(j);
    if Consumed(j) {
      PruneUntracked(j);
    } else {
      PruneStale(j);
    }
  }
}
