/** The override file: entries that add, remove, change or discuss parts of the
    documentation, each carrying its own consumption bookkeeping. The runtime
    duck typing of override values (string, array of strings, object) is decided
    once, by the constructors of `TypeOverride`, `MethodItem` and `ReturnItem`. */
module OverrideFile {
  import opened Types

  /** `_processed` and `_issues` of an entry. Both are undefined in an authored file. */
  datatype Tracking = Tracking(processed: Option<bool>, issues: Option<seq<string>>) {
    function IssueList(): seq<string> {
      if issues.Some? then issues.value else []
    }

    /** The tracking with one more issue appended, the flag unchanged. */
    function Note(msg: string): (t: Tracking)
      ensures t.processed == processed
      ensures t.IssueList() == IssueList() + [msg]
      ensures t.issues.Some?
      ensures IssueList() == [] ==> t.issues == Some([msg])
    {
      var none: seq<string> := [];
      assert none + [msg] == [msg];
      this.(issues := Some(IssueList() + [msg]))
    }

    function Mark(done: bool): Tracking {
      this.(processed := Some(done))
    }
  }

  /** `_processed = false; _issues = []`: the state an entry is put in when the
      engine starts on it. */
  const Started := Tracking(Some(false), Some([]))

  /** The override of a type: a leaf name replaces the type, a list of names makes a
      union, and a map of field overrides patches an object type field by field. */
  datatype TypeOverride =
    | LeafOverride(leaf: string)
    | UnionOverride(names: seq<string>)
    | FieldsOverride(entries: seq<FieldEntry>)

  /** One key of an object-type override (or of a method's `parameters` override). */
  datatype FieldEntry = FieldEntry(key: string, edit: FieldOverride)

  datatype FieldOverride = FieldOverride(
    operation: Option<string>,
    name: Option<string>,
    description: Option<string>,
    isOptional: Option<bool>,
    isArray: Option<bool>,
    defaultValue: Option<string>,
    typ: Option<TypeOverride>,
    track: Tracking)

  /** An override of a component or event. */
  datatype ElementOverride = ElementOverride(
    operation: Option<string>,
    name: Option<string>,
    description: Option<string>,
    isArray: Option<bool>,
    typ: Option<TypeOverride>,
    track: Tracking)

  datatype ElementEntry = ElementEntry(key: string, edit: ElementOverride)

  /** An override of one returned type; its `typ` is a field override applied to a
      temporary field named "return". */
  datatype ReturnOverride = ReturnOverride(
    operation: Option<string>,
    description: Option<string>,
    isArray: Option<bool>,
    value: Option<string>,
    typ: Option<FieldOverride>,
    track: Tracking)

  /** An element of `returnTypes`: a selector `{findByType, override}`, or an entry
      without `findByType`, which the engine skips. */
  datatype ReturnItem =
    | ReturnSelector(findByType: string, edit: ReturnOverride, track: Tracking)
    | PlainReturn(edit: ReturnOverride)

  datatype MethodOverride = MethodOverride(
    operation: Option<string>,
    name: Option<string>,
    description: Option<string>,
    category: Option<string>,
    system: Option<string>,
    parameters: Option<seq<FieldEntry>>,
    returnIsArray: Option<bool>,
    returnTypes: Option<seq<ReturnItem>>,
    track: Tracking)

  /** A plain method override, or a selector `{findByParameters, override}` that picks
      overloads by their leading parameter names. */
  datatype MethodItem =
    | Plain(edit: MethodOverride)
    | Selector(findByParameters: seq<string>, edit: MethodOverride, track: Tracking)

  /** The value under a method name: one item, or an ordered list of items. */
  datatype MethodValue = One(item: MethodItem) | Many(items: seq<MethodItem>) {
    function Items(): seq<MethodItem> {
      match this
      case One(item) => [item]
      case Many(items) => items
    }

    /** The same shape with its items replaced. */
    function WithItems(items': seq<MethodItem>): MethodValue
      requires |items'| == |Items()|
    {
      match this
      case One(_) => One(items'[0])
      case Many(_) => Many(items')
    }
  }

  datatype MethodEntry = MethodEntry(key: string, value: MethodValue)

  datatype EventGroupOverrides = EventGroupOverrides(
    listening: Option<seq<ElementEntry>>,
    triggerable: Option<seq<ElementEntry>>)

  datatype EventOverrides = EventOverrides(
    client: Option<EventGroupOverrides>,
    server: Option<EventGroupOverrides>)

  datatype Overrides = Overrides(
    systemMethods: Option<seq<MethodEntry>>,
    component: Option<seq<ElementEntry>>,
    event: Option<EventOverrides>)

  datatype OverrideDefinitionFile = OverrideDefinitionFile(version: Version, overrides: Overrides)

  /** An operation that means "change" (src/overrides.ts:264): absent, empty or
      literally "change". */
  predicate IsChange(op: Option<string>) {
    op == None || op == Some("change") || op == Some("")
  }

  /** JavaScript truthiness of an optional type override: undefined and "" are falsy. */
  predicate PresentType(ov: Option<TypeOverride>) {
    ov.Some? && ov.value != LeafOverride("")
  }

  const DiscussMessage := "Element was marked for discussion. No changes are applied, no children are processed"
}
