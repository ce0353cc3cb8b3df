/** Meta information as typed messages, and what the consumer hands to its callbacks. */
module Messages {
  import opened Words
  import opened Values
  import Layout

  /** A node that may carry an id: a string, a number (taken by its text) or something else. */
  datatype IdNode = Text(text: string) | Number(text: string) | NotAnId

  datatype NumberNode = Numeric(value: Word64) | NotNumeric

  datatype RuleName = LinearRule | ExplicitRule | ConstantRule | UnknownRule

  /** The "definition" object of a signal description; every member is optional. */
  datatype Definition = Definition(
    linearDelta: Option<NumberNode>,
    constantStart: Option<NumberNode>,
    rule: Option<RuleName>,
    layout: Layout.Node,
    unit: UnitPatch,
    resolution: ResolutionPatch,
    range: RangePatch,
    scaling: ScalingPatch)

  /** A definition that mentions nothing. */
  const NO_DEFINITION := Definition(None, None, None, Layout.Node(Layout.NoDimensions, Layout.Missing),
                                    UnitPatch(None, None, None), ResolutionPatch(None, None),
                                    RangePatch(None, None), ScalingPatch(None, None))

  datatype Message =
    | Subscribe(signalId: Option<IdNode>)
    | Signal(tableId: Option<IdNode>, valueIndex: Option<Word64>, definition: Option<Definition>)
    | Unsubscribe
    | ApiVersion(tokens: Option<seq<nat>>)
    | Available(ids: seq<string>)
    | Unavailable(ids: seq<string>)
    | OtherMethod

  /** Callback invocations. `Values` also records the linear delta that the signal handed to the
      callback carries at that moment. */
  datatype Event =
    | MetaEvent(number: nat, message: Message)
    | StreamEvent(message: Message)
    | Raw(number: nat, timeStamp: Word64, data: seq<Byte>)
    | Values(number: nat, timeStamp: Word64, data: seq<Byte>, valueCount: nat, delta: Word64)
}
