/** Sorting of the documentation (`sort.ts`): components, events, filters and the
    fields of object types are ordered by name with a stable sort, recursing through
    object, array and union types. */
module Sorting {
  import opened Types

  /** JavaScript `<` on strings: lexicographic order on characters, a proper prefix first. */
  predicate Less(a: string, b: string) {
    if a == [] then b != []
    else if b == [] then false
    else if a[0] != b[0] then a[0] < b[0]
    else Less(a[1..], b[1..])
  }

  lemma {:induction false} LessIrreflexive(a: string)
    ensures !Less(a, a)
  {
    if a != [] {
      LessIrreflexive(a[1..]);
    }
  }

  lemma {:induction false} LessTransitive(a: string, b: string, c: string)
    requires Less(a, b) && Less(b, c)
    ensures Less(a, c)
  {
    if a != [] && b != [] && c != [] && a[0] == b[0] && b[0] == c[0] {
      LessTransitive(a[1..], b[1..], c[1..]);
    }
  }

  lemma {:induction false} LessTotal(a: string, b: string)
    ensures a == b || Less(a, b) || Less(b, a)
  {
    if a != [] && b != [] && a[0] == b[0] {
      LessTotal(a[1..], b[1..]);
      if a[1..] == b[1..] {
        assert a == [a[0]] + a[1..] && b == [b[0]] + b[1..];
      }
    }
  }

  lemma {:induction false} LessAsymmetric(a: string, b: string)
    requires Less(a, b)
    ensures !Less(b, a)
  {
    if a != [] && b != [] && a[0] == b[0] {
      LessAsymmetric(a[1..], b[1..]);
    }
  }

  lemma LessDiffers(a: string, b: string)
    requires Less(a, b)
    ensures a != b
  {
    if a == b {
      LessIrreflexive(a);
    }
  }

  /** `a` may come before `b`: the comparator does not put `b` first. */
  predicate NotAfter(a: string, b: string) {
    !Less(b, a)
  }

  lemma NotAfterTransitive(a: string, b: string, c: string)
    requires NotAfter(a, b) && NotAfter(b, c)
    ensures NotAfter(a, c)
  {
    if Less(c, a) {
      LessTotal(b, c);
      if Less(b, c) {
        LessTransitive(b, c, a);
      }
    }
  }

  predicate SortedBy<T>(s: seq<T>, name: T -> string) {
    forall i, j :: 0 <= i < j < |s| ==> NotAfter(name(s[i]), name(s[j]))
  }

  /** `x` placed into `s` from the back: it passes every element the comparator puts
      after it, and stops behind the first one it does not, so equal names keep their
      order. */
  function Insert<T>(s: seq<T>, x: T, name: T -> string): seq<T> {
    if s == [] || !Less(name(x), name(s[|s| - 1])) then s + [x]
    else Insert(s[..|s| - 1], x, name) + [s[|s| - 1]]
  }

  /** `sortByName` (src/sort.ts:22-24): the comparator puts the smaller name first and
      leaves equal names in place; modelled as a stable insertion sort by name. */
  function SortByNameSpec<T>(s: seq<T>, name: T -> string): seq<T> {
    if s == [] then []
    else Insert(SortByNameSpec(s[..|s| - 1], name), s[|s| - 1], name)
  }

  lemma {:induction false} InsertPermutes<T>(s: seq<T>, x: T, name: T -> string)
    ensures multiset(Insert(s, x, name)) == multiset(s) + multiset{x}
  {
    if s != [] && Less(name(x), name(s[|s| - 1])) {
      InsertPermutes(s[..|s| - 1], x, name);
      assert s == s[..|s| - 1] + [s[|s| - 1]];
    }
  }

  lemma {:induction false} InsertSorted<T>(s: seq<T>, x: T, name: T -> string)
    requires SortedBy(s, name)
    ensures SortedBy(Insert(s, x, name), name)
  {
    var n := |s|;
    if s == [] || !Less(name(x), name(s[n - 1])) {
      forall i | 0 <= i < n
        ensures NotAfter(name(s[i]), name(x))
      {
        if i < n - 1 {
          NotAfterTransitive(name(s[i]), name(s[n - 1]), name(x));
        }
      }
    } else {
      var init := s[..n - 1];
      var last := s[n - 1];
      assert SortedBy(init, name);
      InsertSorted(init, x, name);
      InsertPermutes(init, x, name);
      var r := Insert(init, x, name);
      LessAsymmetric(name(x), name(last));
      forall k | 0 <= k < |r|
        ensures NotAfter(name(r[k]), name(last))
      {
        assert r[k] in multiset(r);
        if r[k] != x {
          assert r[k] in multiset(init);
        }
      }
    }
  }

  /** The sort yields its input, reordered. */
  lemma {:induction false} SortPermutes<T>(s: seq<T>, name: T -> string)
    ensures multiset(SortByNameSpec(s, name)) == multiset(s)
  {
    if s != [] {
      var init := s[..|s| - 1];
      var last := s[|s| - 1];
      SortPermutes(init, name);
      InsertPermutes(SortByNameSpec(init, name), last, name);
      assert s == init + [last];
      assert multiset(s) == multiset(init) + multiset{last};
    }
  }

  /** The sort yields names in non-decreasing order. */
  lemma {:induction false} SortSorts<T>(s: seq<T>, name: T -> string)
    ensures SortedBy(SortByNameSpec(s, name), name)
  {
    if s != [] {
      SortSorts(s[..|s| - 1], name);
      InsertSorted(SortByNameSpec(s[..|s| - 1], name), s[|s| - 1], name);
    }
  }

  /** A list already in order is left as it is; in particular sorting twice is sorting once. */
  lemma {:induction false} SortKeepsSorted<T>(s: seq<T>, name: T -> string)
    requires SortedBy(s, name)
    ensures SortByNameSpec(s, name) == s
  {
    if s != [] {
      var n := |s|;
      assert SortedBy(s[..n - 1], name);
      SortKeepsSorted(s[..n - 1], name);
      if n > 1 {
        assert NotAfter(name(s[n - 2]), name(s[n - 1]));
      }
      assert s[..n - 1] + [s[n - 1]] == s;
    }
  }

  lemma SortIdempotent<T>(s: seq<T>, name: T -> string)
    ensures SortByNameSpec(SortByNameSpec(s, name), name) == SortByNameSpec(s, name)
  {
    SortSorts(s, name);
    SortKeepsSorted(SortByNameSpec(s, name), name);
  }

  /** Being named `n`. */
  function NamedAs<T>(name: T -> string, n: string): T -> bool {
    (y: T) => name(y) == n
  }

  /** The entries of `s` that satisfy `p`, in their order in `s`. */
  function Only<T>(s: seq<T>, p: T -> bool): seq<T> {
    if s == [] then []
    else Only(s[..|s| - 1], p) + if p(s[|s| - 1]) then [s[|s| - 1]] else []
  }

  lemma OnlySnoc<T>(s: seq<T>, x: T, p: T -> bool)
    ensures Only(s + [x], p) == Only(s, p) + if p(x) then [x] else []
  {
    assert (s + [x])[..|s|] == s;
  }

  lemma {:induction false} OnlyAppend<T>(a: seq<T>, b: seq<T>, p: T -> bool)
    ensures Only(a + b, p) == Only(a, p) + Only(b, p)
  {
    if b == [] {
      assert a + b == a;
    } else {
      var init := b[..|b| - 1];
      var last := b[|b| - 1];
      OnlyAppend(a, init, p);
      assert a + b == (a + init) + [last];
      OnlySnoc(a + init, last, p);
      var tail := if p(last) then [last] else [];
      assert Only(a, p) + (Only(init, p) + tail) == (Only(a, p) + Only(init, p)) + tail;
    }
  }

  lemma {:induction false} OnlyNone<T>(t: seq<T>, p: T -> bool)
    requires forall m :: 0 <= m < |t| ==> !p(t[m])
    ensures Only(t, p) == []
  {
    if t != [] {
      OnlyNone(t[..|t| - 1], p);
    }
  }

  /** Where `Insert` places `x`. */
  function InsertPos<T>(s: seq<T>, x: T, name: T -> string): (p: nat)
    ensures p <= |s|
  {
    if s == [] || !Less(name(x), name(s[|s| - 1])) then |s|
    else InsertPos(s[..|s| - 1], x, name)
  }

  /** `x` goes in at its position, and passes only elements it sorts before. */
  lemma {:induction false} InsertSplits<T>(s: seq<T>, x: T, name: T -> string)
    ensures Insert(s, x, name) == s[..InsertPos(s, x, name)] + [x] + s[InsertPos(s, x, name)..]
    ensures forall m :: InsertPos(s, x, name) <= m < |s| ==> Less(name(x), name(s[m]))
  {
    var k := |s|;
    if s != [] && Less(name(x), name(s[k - 1])) {
      var init := s[..k - 1];
      InsertSplits(init, x, name);
      var p := InsertPos(init, x, name);
      assert init[..p] == s[..p];
      assert s[p..] == init[p..] + [s[k - 1]];
    }
  }

  lemma InsertStable<T>(s: seq<T>, x: T, name: T -> string, n: string)
    ensures Only(Insert(s, x, name), NamedAs(name, n)) ==
            Only(s, NamedAs(name, n)) + if name(x) == n then [x] else []
  {
    var p := NamedAs(name, n);
    InsertSplits(s, x, name);
    var k := InsertPos(s, x, name);
    var front := s[..k];
    var back := s[k..];
    assert s == front + back;
    OnlyAppend(front, back, p);
    OnlyAppend(front + [x], back, p);
    OnlySnoc(front, x, p);
    var none: seq<T> := [];
    if name(x) == n {
      forall m | 0 <= m < |back|
        ensures !p(back[m])
      {
        LessDiffers(name(x), name(back[m]));
      }
      OnlyNone(back, p);
      assert Only(front, p) + none == Only(front, p);
      assert (Only(front, p) + [x]) + none == Only(front, p) + [x];
    } else {
      assert Only(front, p) + none == Only(front, p);
    }
  }

  /** The sort is stable: the entries sharing a name keep their relative order. */
  lemma {:induction false} SortStable<T>(s: seq<T>, name: T -> string, n: string)
    ensures Only(SortByNameSpec(s, name), NamedAs(name, n)) == Only(s, NamedAs(name, n))
  {
    if s != [] {
      var k := |s|;
      SortStable(s[..k - 1], name, n);
      InsertStable(SortByNameSpec(s[..k - 1], name), s[k - 1], name, n);
      assert s == s[..k - 1] + [s[k - 1]];
      OnlySnoc(s[..k - 1], s[k - 1], NamedAs(name, n));
    }
  }

  /** `sortByName`, in place: each element in turn is moved towards the front. */
  method SortByName<T>(a: array<T>, name: T -> string)
    modifies a
    ensures a[..] == SortByNameSpec(old(a[..]), name)
  {
    ghost var input := a[..];
    var i := 0;
    while i < a.Length
      invariant 0 <= i <= a.Length
      invariant a[..i] == SortByNameSpec(input[..i], name)
      invariant a[i..] == input[i..]
    {
      assert input[..i + 1][..i] == input[..i];
      assert a[i] == input[i];
      InsertLast(a, i, name);
      assert a[i + 1..] == input[i + 1..];
      i := i + 1;
    }
    assert input[..i] == input;
  }

  /** One step of the sort: `a[i]` is swapped towards the front past the elements of
      `a[..i]` whose name is greater than its own. */
  method InsertLast<T>(a: array<T>, i: nat, name: T -> string)
    requires i < a.Length
    modifies a
    ensures a[..i + 1] == Insert(old(a[..i]), old(a[i]), name)
    ensures a[i + 1..] == old(a[i + 1..])
  {
    ghost var prefix := a[..i];
    var x := a[i];
    var j := i;
    while j > 0 && Less(name(x), name(a[j - 1]))
      invariant 0 <= j <= i
      invariant forall m :: 0 <= m < j ==> a[m] == prefix[m]
      invariant a[j] == x
      invariant forall m :: j < m <= i ==> a[m] == prefix[m - 1]
      invariant forall m :: i < m < a.Length ==> a[m] == old(a[m])
      invariant forall m :: j <= m < i ==> Less(name(x), name(prefix[m]))
    {
      a[j - 1], a[j] := x, a[j - 1];
      j := j - 1;
    }
    InsertAt(prefix, j, x, name);
    Arranged(a[..i + 1], prefix, j, x);
  }

  /** A list holding `prefix` with `x` at position `j`. */
  lemma Arranged<T>(s: seq<T>, prefix: seq<T>, j: nat, x: T)
    requires j <= |prefix| && |s| == |prefix| + 1
    requires forall m :: 0 <= m < j ==> s[m] == prefix[m]
    requires s[j] == x
    requires forall m :: j < m < |s| ==> s[m] == prefix[m - 1]
    ensures s == prefix[..j] + [x] + prefix[j..]
  {
  }

  /** `x` lands at `j` when it sorts before everything from `j` on and not before the
      element just ahead of `j`. */
  lemma {:induction false} InsertAt<T>(prefix: seq<T>, j: nat, x: T, name: T -> string)
    requires j <= |prefix|
    requires j == 0 || !Less(name(x), name(prefix[j - 1]))
    requires forall m :: j <= m < |prefix| ==> Less(name(x), name(prefix[m]))
    ensures Insert(prefix, x, name) == prefix[..j] + [x] + prefix[j..]
  {
    var n := |prefix|;
    if j < n {
      var init := prefix[..n - 1];
      InsertAt(init, j, x, name);
      assert init[..j] == prefix[..j];
      assert prefix[j..] == init[j..] + [prefix[n - 1]];
    }
  }

  /** `f` applied to each element, in place. */
  function Map<T>(s: seq<T>, f: T -> T): (r: seq<T>)
    ensures |r| == |s|
    ensures forall k :: 0 <= k < |s| ==> r[k] == f(s[k])
  {
    seq(|s|, k requires 0 <= k < |s| => f(s[k]))
  }

  lemma {:induction false} InsertMap<T>(s: seq<T>, x: T, name: T -> string, f: T -> T)
    requires forall y :: name(f(y)) == name(y)
    ensures Map(Insert(s, x, name), f) == Insert(Map(s, f), f(x), name)
  {
    var n := |s|;
    if s == [] || !Less(name(x), name(s[n - 1])) {
      assert Map(s + [x], f) == Map(s, f) + [f(x)];
    } else {
      InsertMap(s[..n - 1], x, name, f);
      assert Map(s, f)[..n - 1] == Map(s[..n - 1], f);
      var ins := Insert(s[..n - 1], x, name);
      assert Map(ins + [s[n - 1]], f) == Map(ins, f) + [f(s[n - 1])];
    }
  }

  /** Changing the elements without changing their names commutes with the sort. */
  lemma {:induction false} SortMap<T>(s: seq<T>, name: T -> string, f: T -> T)
    requires forall y :: name(f(y)) == name(y)
    ensures Map(SortByNameSpec(s, name), f) == SortByNameSpec(Map(s, f), name)
  {
    if s != [] {
      var n := |s|;
      SortMap(s[..n - 1], name, f);
      InsertMap(SortByNameSpec(s[..n - 1], name), s[n - 1], name, f);
      assert Map(s, f)[..n - 1] == Map(s[..n - 1], f);
    }
  }

  function FieldName(): Field -> string {
    (f: Field) => f.name
  }

  /** `sortType`: the fields of an object type are sorted, recursively; the element of an
      array type and each alternative of a union are sorted where they stand; a leaf is
      left as it is. */
  function SortedType(t: Type): Type
    decreases t, 0
  {
    match t
    case ObjectType(fields) => ObjectType(SortedFields(fields))
    case ArrayType(elem, originalType) => ArrayType(SortedType(elem), originalType)
    case UnionType(alternatives) => UnionType(seq(|alternatives|, k requires 0 <= k < |alternatives| => SortedType(alternatives[k])))
    case Leaf(_) => t
  }

  /** `sortParameters`: the fields ordered by name, each with its type sorted. */
  function SortedFields(fields: seq<Field>): seq<Field>
    decreases fields, 3
  {
    SortByNameSpec(RetypedFields(fields), FieldName())
  }

  function RetypedFields(fields: seq<Field>): (r: seq<Field>)
    decreases fields, 2
    ensures |r| == |fields|
    ensures forall k :: 0 <= k < |fields| ==> r[k] == RetypedField(fields[k])
  {
    seq(|fields|, k requires 0 <= k < |fields| => RetypedField(fields[k]))
  }

  function RetypedField(f: Field): Field
    decreases f, 1
  {
    f.(typ := SortedType(f.typ))
  }

  /** Every field list, at every depth, is in name order. */
  predicate DeepSorted(t: Type) {
    match t
    case ObjectType(fields) =>
      SortedBy(fields, FieldName()) && forall k :: 0 <= k < |fields| ==> DeepSorted(fields[k].typ)
    case ArrayType(elem, _) => DeepSorted(elem)
    case UnionType(alternatives) => forall k :: 0 <= k < |alternatives| ==> DeepSorted(alternatives[k])
    case Leaf(_) => true
  }

  lemma RetypedFieldsAsMap(fields: seq<Field>)
    ensures RetypedFields(fields) == Map(fields, RetypedField)
  {
  }

  /** Sorting a type leaves every field list, at every depth, in name order. */
  lemma {:induction false} SortedTypeDeepSorted(t: Type)
    ensures DeepSorted(SortedType(t))
    decreases t
  {
    match t
    case ObjectType(fields) =>
      var retyped := RetypedFields(fields);
      var sorted := SortedFields(fields);
      SortSorts(retyped, FieldName());
      SortPermutes(retyped, FieldName());
      forall k | 0 <= k < |sorted|
        ensures DeepSorted(sorted[k].typ)
      {
        assert sorted[k] in multiset(retyped);
        var j :| 0 <= j < |retyped| && retyped[j] == sorted[k];
        SortedTypeDeepSorted(fields[j].typ);
      }
    case ArrayType(elem, _) =>
      SortedTypeDeepSorted(elem);
    case UnionType(alternatives) =>
      forall k | 0 <= k < |alternatives|
        ensures DeepSorted(SortedType(alternatives[k]))
      {
        SortedTypeDeepSorted(alternatives[k]);
      }
    case Leaf(_) =>
  }

  /** A type whose field lists are all in order is left as it is. */
  lemma {:induction false} DeepSortedUnchanged(t: Type)
    requires DeepSorted(t)
    ensures SortedType(t) == t
    decreases t
  {
    match t
    case ObjectType(fields) =>
      forall k | 0 <= k < |fields|
        ensures RetypedField(fields[k]) == fields[k]
      {
        DeepSortedUnchanged(fields[k].typ);
      }
      assert RetypedFields(fields) == fields;
      SortKeepsSorted(fields, FieldName());
    case ArrayType(elem, _) =>
      DeepSortedUnchanged(elem);
    case UnionType(alternatives) =>
      forall k | 0 <= k < |alternatives|
        ensures SortedType(alternatives[k]) == alternatives[k]
      {
        DeepSortedUnchanged(alternatives[k]);
      }
      assert SortedType(t).unionTypes == alternatives;
    case Leaf(_) =>
  }

  /** Sorting a type twice is sorting it once. */
  lemma SortTypeIdempotent(t: Type)
    ensures SortedType(SortedType(t)) == SortedType(t)
  {
    SortedTypeDeepSorted(t);
    DeepSortedUnchanged(SortedType(t));
  }

  /** What sorting does to each kind of type: a leaf is unchanged, an array keeps the
      token it came from, a union keeps its alternatives in their places, and an object
      keeps its fields, reordered by name, with each field's type sorted. */
  lemma SortedTypeShape(t: Type)
    ensures t.Leaf? ==> SortedType(t) == t
    ensures t.ArrayType? ==> SortedType(t).ArrayType? && SortedType(t).originalType == t.originalType
    ensures t.UnionType? ==> (SortedType(t).UnionType? && |SortedType(t).unionTypes| == |t.unionTypes| &&
                              forall k :: 0 <= k < |t.unionTypes| ==>
                                SortedType(t).unionTypes[k] == SortedType(t.unionTypes[k]))
    ensures t.ObjectType? ==> (SortedType(t).ObjectType? &&
                               multiset(SortedType(t).fields) == multiset(RetypedFields(t.fields)) &&
                               SortedBy(SortedType(t).fields, FieldName()))
  {
    if t.ObjectType? {
      SortPermutes(RetypedFields(t.fields), FieldName());
      SortSorts(RetypedFields(t.fields), FieldName());
    }
  }

  /** `sortType`, on a value: the nested field lists are sorted through a copy. */
  method SortType(t: Type) returns (r: Type)
    ensures r == SortedType(t)
    decreases t, 1
  {
    match t
    case ObjectType(fields) =>
      var sorted := SortParameters(fields);
      r := ObjectType(sorted);
    case ArrayType(elem, originalType) =>
      var e := SortType(elem);
      r := ArrayType(e, originalType);
    case UnionType(alternatives) =>
      var done: seq<Type> := [];
      for k := 0 to |alternatives|
        invariant |done| == k
        invariant forall m :: 0 <= m < k ==> done[m] == SortedType(alternatives[m])
      {
        var u := SortType(alternatives[k]);
        done := done + [u];
      }
      r := UnionType(done);
    case Leaf(_) =>
      r := t;
  }

  /** `sortParameters`: the fields are sorted by name in an array, then each field's
      type is sorted. */
  method SortParameters(parameters: seq<Field>) returns (r: seq<Field>)
    ensures r == SortedFields(parameters)
    decreases parameters, 3
  {
    var a := new Field[|parameters|](k requires 0 <= k < |parameters| => parameters[k]);
    assert a[..] == parameters;
    SortByName(a, FieldName());
    ghost var sorted := a[..];
    SortPermutes(parameters, FieldName());
    forall f | f in sorted
      ensures f in parameters
    {
      assert f in multiset(sorted);
    }
    SortFieldTypes(a, parameters);
    r := a[..];
    SortMap(parameters, FieldName(), RetypedField);
    RetypedFieldsAsMap(parameters);
  }

  /** `parameters.forEach(p => sortType(p.type))`, over fields drawn from `parameters`. */
  method SortFieldTypes(a: array<Field>, ghost parameters: seq<Field>)
    requires forall k :: 0 <= k < a.Length ==> a[k] in parameters
    modifies a
    ensures a[..] == Map(old(a[..]), RetypedField)
    decreases parameters, 2
  {
    ghost var before := a[..];
    for k := 0 to a.Length
      invariant forall m :: 0 <= m < k ==> a[m] == RetypedField(before[m])
      invariant forall m :: k <= m < a.Length ==> a[m] == before[m]
    {
      var typ := SortType(a[k].typ);
      a[k] := a[k].(typ := typ);
    }
  }

  function ElementName(): Element -> string {
    (e: Element) => e.name
  }

  /** `sortType(c.type)` on a component or event; an undefined type is left alone. */
  function SortedElement(e: Element): Element {
    if e.typ.Some? then e.(typ := Some(SortedType(e.typ.value))) else e
  }

  /** `sortComponents` and `sortEvents`: ordered by name, then each type sorted. */
  function SortedElements(elements: seq<Element>): seq<Element> {
    Map(SortByNameSpec(elements, ElementName()), SortedElement)
  }

  /** The list comes out in name order, holding the input's entries with their types
      sorted. */
  lemma SortedElementsPermutes(elements: seq<Element>)
    ensures SortedBy(SortedElements(elements), ElementName())
    ensures multiset(SortedElements(elements)) == multiset(Map(elements, SortedElement))
  {
    var retyped := Map(elements, SortedElement);
    SortMap(elements, ElementName(), SortedElement);
    SortSorts(retyped, ElementName());
    SortPermutes(retyped, ElementName());
  }

  /** Every field list, at every depth, of every entry's type is in name order. */
  lemma SortedElementsDeep(elements: seq<Element>)
    ensures forall e :: e in SortedElements(elements) && e.typ.Some? ==> DeepSorted(e.typ.value)
  {
    var retyped := Map(elements, SortedElement);
    var r := SortedElements(elements);
    SortedElementsPermutes(elements);
    forall e | e in r && e.typ.Some?
      ensures DeepSorted(e.typ.value)
    {
      assert e in multiset(retyped);
      var j :| 0 <= j < |elements| && retyped[j] == e;
      SortedTypeDeepSorted(elements[j].typ.value);
    }
  }

  /** Sorting a list of components or events twice is sorting it once. */
  lemma SortedElementsIdempotent(elements: seq<Element>)
    ensures SortedElements(SortedElements(elements)) == SortedElements(elements)
  {
    var r := SortedElements(elements);
    SortedElementsPermutes(elements);
    SortedElementsDeep(elements);
    forall k | 0 <= k < |r|
      ensures SortedElement(r[k]) == r[k]
    {
      if r[k].typ.Some? {
        DeepSortedUnchanged(r[k].typ.value);
      }
    }
    SortKeepsSorted(r, ElementName());
    assert Map(r, SortedElement) == r;
  }

  /** `sortComponents` / `sortEvents`, in place. */
  method SortElements(elements: array<Element>)
    modifies elements
    ensures elements[..] == SortedElements(old(elements[..]))
  {
    SortByName(elements, ElementName());
    SortElementTypes(elements);
  }

  /** The per-element pass of `sortComponents` and `sortEvents` (src/sort.ts:33, 46):
      every element's type, when it has one, is sorted; the order of elements is kept. */
  method SortElementTypes(elements: array<Element>)
    modifies elements
    ensures elements[..] == Map(old(elements[..]), SortedElement)
  {
    ghost var before := elements[..];
    for k := 0 to elements.Length
      invariant forall m :: 0 <= m < k ==> elements[m] == SortedElement(before[m])
      invariant forall m :: k <= m < elements.Length ==> elements[m] == before[m]
    {
      if elements[k].typ.Some? {
        var typ := SortType(elements[k].typ.value);
        elements[k] := elements[k].(typ := Some(typ));
      }
    }
  }

  function FilterName(): Filter -> string {
    (f: Filter) => f.name
  }

  /** The default order of `Array.prototype.sort` on strings: the string itself. */
  function OptionText(): string -> string {
    (o: string) => o
  }

  /** One filter after `sortFilters` (src/sort.ts:39-40): its options, when present, in
      string order; an empty list of options counts as present. */
  function SortedFilter(f: Filter): Filter {
    if f.options.Some? then f.(options := Some(SortByNameSpec(f.options.value, OptionText()))) else f
  }

  /** `sortFilters`: ordered by name, then the options of each. */
  function SortedFilters(filters: seq<Filter>): seq<Filter> {
    Map(SortByNameSpec(filters, FilterName()), SortedFilter)
  }

  /** The filters come out in name order, each the input's filter with its options, if
      any, reordered into order. */
  lemma SortedFiltersFacts(filters: seq<Filter>)
    ensures SortedBy(SortedFilters(filters), FilterName())
    ensures multiset(SortedFilters(filters)) == multiset(Map(filters, SortedFilter))
    ensures forall f :: f in SortedFilters(filters) && f.options.Some? ==>
      SortedBy(f.options.value, OptionText())
  {
    var r := SortedFilters(filters);
    var reordered := Map(filters, SortedFilter);
    SortMap(filters, FilterName(), SortedFilter);
    SortSorts(reordered, FilterName());
    SortPermutes(reordered, FilterName());
    forall f | f in r && f.options.Some?
      ensures SortedBy(f.options.value, OptionText())
    {
      assert f in multiset(reordered);
      var j :| 0 <= j < |filters| && reordered[j] == f;
      SortSorts(filters[j].options.value, OptionText());
    }
  }

  /** A filter's options within one filter keep their multiset. */
  lemma SortedFilterOptions(f: Filter)
    ensures SortedFilter(f).name == f.name
    ensures SortedFilter(f).options.Some? == f.options.Some?
    ensures f.options.Some? ==> multiset(SortedFilter(f).options.value) == multiset(f.options.value)
  {
    if f.options.Some? {
      SortPermutes(f.options.value, OptionText());
    }
  }

  /** `f.options.sort()`, on a copy of the options. */
  method SortOptions(options: seq<string>) returns (r: seq<string>)
    ensures r == SortByNameSpec(options, OptionText())
  {
    var a := new string[|options|](k requires 0 <= k < |options| => options[k]);
    assert a[..] == options;
    SortByName(a, OptionText());
    r := a[..];
  }

  /** `sortFilters`, in place. */
  method SortFilters(filters: array<Filter>)
    modifies filters
    ensures filters[..] == SortedFilters(old(filters[..]))
  {
    SortByName(filters, FilterName());
    SortFilterOptions(filters);
  }

  /** The per-filter pass of `sortFilters` (src/sort.ts:38-41): the options of every
      filter that has them are sorted; the order of filters is kept. */
  method SortFilterOptions(filters: array<Filter>)
    modifies filters
    ensures filters[..] == Map(old(filters[..]), SortedFilter)
  {
    ghost var before := filters[..];
    for k := 0 to filters.Length
      invariant forall m :: 0 <= m < k ==> filters[m] == SortedFilter(before[m])
      invariant forall m :: k <= m < filters.Length ==> filters[m] == before[m]
    {
      if filters[k].options.Some? {
        var options := SortOptions(filters[k].options.value);
        filters[k] := filters[k].(options := Some(options));
      }
    }
  }
}
