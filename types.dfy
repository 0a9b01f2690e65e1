/** The documentation model that the override engine patches: types, fields,
    components and events, methods and their return types. */
module Types {

  datatype Option<+T> = None | Some(value: T) {
    /** The value, or `default` when absent (an override attribute that is left undefined). */
    function GetOr(default: T): T {
      match this
      case Some(v) => v
      case None => default
    }

    /** This value when defined, else `other`. */
    function OrElse(other: Option<T>): Option<T> {
      if Some? then this else other
    }
  }

  /** A computation that either yields a value or throws an `Error` with a message. */
  datatype Outcome<+T> = Ok(value: T) | Throw(message: string)

  datatype Version = Version(major: int, minor: int, revision: int, build: int)

  /** A type in the documentation: a leaf name such as "string" or "any", an object
      with named fields, an array of an element type (remembering the source token that
      produced it, e.g. "list"), or a union of alternatives. */
  datatype Type =
    | Leaf(name: string)
    | ObjectType(fields: seq<Field>)
    | ArrayType(elem: Type, originalType: Option<string>)
    | UnionType(unionTypes: seq<Type>)

  /** A field of an object type, or a parameter of a method. `defaultValue` is kept
      as its JSON text. */
  datatype Field = Field(
    name: string,
    description: string,
    isOptional: Option<bool>,
    defaultValue: Option<string>,
    typ: Type)

  /** Components and events have the same shape; their type may be undefined. */
  datatype Element = Element(name: string, description: string, typ: Option<Type>)

  datatype ReturnedType = ReturnedType(typ: Type, value: Option<string>, description: string)

  /** A system method. `system` is a string because an override may assign a value
      outside Client/Server/Both. Overloads share a name. */
  datatype Method = Method(
    name: string,
    category: Option<string>,
    description: string,
    system: string,
    parameters: seq<Field>,
    returnTypes: Option<seq<ReturnedType>>)

  datatype Filter = Filter(name: string, options: Option<seq<string>>)

  datatype Events = Events(
    clientListening: seq<Element>,
    clientTriggerable: seq<Element>,
    serverListening: seq<Element>,
    serverTriggerable: seq<Element>)

  datatype Documentation = Documentation(
    version: Option<Version>,
    components: seq<Element>,
    events: Events,
    systemMethods: seq<Method>)

  predicate ValidSystem(s: string) {
    s == "Server" || s == "Client" || s == "Both"
  }

  /** JavaScript truthiness of an optional string: undefined and "" are falsy. */
  predicate Present(s: Option<string>) {
    s.Some? && s.value != ""
  }

  /** JavaScript truthiness of an optional boolean. */
  predicate IsTrue(b: Option<bool>) {
    b.Some? && b.value
  }

  /** An optional boolean that is defined and false. */
  predicate IsFalse(b: Option<bool>) {
    b.Some? && !b.value
  }

  /** How a template literal renders an optional string. */
  function Show(s: Option<string>): string {
    if s.Some? then s.value else "undefined"
  }

  /** `type || "any"` on an optional type: undefined and the empty leaf become "any". */
  function OrAny(t: Option<Type>): (r: Type)
    ensures r != Leaf("")
    ensures t.Some? && t.value != Leaf("") ==> r == t.value
  {
    if t.None? || t.value == Leaf("") then Leaf("any") else t.value
  }

  /** `Array.prototype.find`: the index of the first element satisfying `p`. */
  function FirstIndex<T>(s: seq<T>, p: T -> bool): (r: Option<nat>)
    ensures r.Some? ==> r.value < |s| && p(s[r.value])
    ensures r.Some? ==> forall k :: 0 <= k < r.value ==> !p(s[k])
    ensures r.None? ==> forall k :: 0 <= k < |s| ==> !p(s[k])
  {
    if s == [] then None
    else if p(s[0]) then Some(0)
    else match FirstIndex(s[1..], p)
      case None => None
      case Some(i) => Some(i + 1)
  }

  /** `Array.prototype.filter`: the elements satisfying `p`, in their order. */
  function Keep<T>(s: seq<T>, p: T -> bool): (r: seq<T>)
    ensures |r| <= |s|
    ensures forall k :: 0 <= k < |r| ==> r[k] in s && p(r[k])
    ensures forall k :: 0 <= k < |s| && p(s[k]) ==> s[k] in r
  {
    if s == [] then []
    else if p(s[0]) then [s[0]] + Keep(s[1..], p)
    else Keep(s[1..], p)
  }

  /** Removes the element at index `i`: a filter by object identity, with identity
      modelled as position. */
  function RemoveAt<T>(s: seq<T>, i: nat): (r: seq<T>)
    requires i < |s|
    ensures |r| == |s| - 1
    ensures forall k :: 0 <= k < i ==> r[k] == s[k]
    ensures forall k :: i <= k < |r| ==> r[k] == s[k + 1]
  {
    s[..i] + s[i + 1..]
  }

  lemma {:induction false} KeepAll<T>(s: seq<T>, p: T -> bool)
    requires forall k :: 0 <= k < |s| ==> p(s[k])
    ensures Keep(s, p) == s
  {
    if s != [] {
      KeepAll(s[1..], p);
    }
  }

  /** Filtering distributes over appending one element. */
  lemma {:induction false} KeepSnoc<T>(s: seq<T>, x: T, p: T -> bool)
    ensures Keep(s + [x], p) == Keep(s, p) + (if p(x) then [x] else [])
  {
    if s == [] {
      assert [x][1..] == [];
    } else {
      assert (s + [x])[1..] == s[1..] + [x];
      KeepSnoc(s[1..], x, p);
    }
  }
}
