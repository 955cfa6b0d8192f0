/** Component metadata: a table the compiler only reads. */
module Registry {
  import opened Wrappers
  import opened Graph
  import opened Ast

  datatype DataType = Boolean | Integer | Decimal | NumberType | StringType | Timestamp | Any

  /** `id` may start with '*'; the slot it names is then "SLOT" plus the rest. */
  datatype Input = Input(id: string, dataType: DataType, allowMultipleConnections: bool)

  datatype OutputPort = OutputPort(id: string, dataType: DataType)

  /** `scalar` components are constants: the same in every timeframe. */
  datatype Component = Component(options: set<string>, inputs: seq<Input>, outputs: seq<OutputPort>, scalar: bool)

  /** A node's options, timeframe and session once validated and defaulted. */
  datatype Config = Config(options: map<string, OptionValue>, timeframe: Option<string>, session: Option<Session>)

  /**
   `configure` is option validation with defaults and clamping plus the special timeframe and
   session parameters; `literalCall` parses custom constructors such as EventMarkerSchema(...);
   `slotNumber` is std::stoull.  All three are arbitrary functions that may fail.  `external` holds
   of words that no node of a program is called: a text "word#..." with one of them refers to nothing.
   */
  datatype Registry = Registry(
    components: map<string, Component>,
    configure: (string, map<string, OptionValue>) -> Option<Config>,
    literalCall: Expr -> Option<OptionValue>,
    slotNumber: string -> Option<nat>,
    external: string -> bool)

  function SlotName(id: string): string {
    if id != [] && id[0] == '*' then "SLOT" + id[1..] else id
  }

  function InputNames(c: Component): seq<string> {
    seq(|c.inputs|, i requires 0 <= i < |c.inputs| => SlotName(c.inputs[i].id))
  }

  /** The type tables have no entry for Timestamp: it is treated as Any. */
  function Declared(t: DataType): DataType { if t == Timestamp then Any else t }

  /** `input_types[name]`: the last input of that name decides. */
  function InputType(inputs: seq<Input>, name: string): DataType {
    if inputs == [] then Any
    else if SlotName(inputs[|inputs| - 1].id) == name then Declared(inputs[|inputs| - 1].dataType)
    else InputType(inputs[..|inputs| - 1], name)
  }

  /** First declared output of that id. */
  function OutputType(outputs: seq<OutputPort>, id: string): Option<DataType> {
    if outputs == [] then None
    else if outputs[0].id == id then Some(Declared(outputs[0].dataType))
    else OutputType(outputs[1..], id)
  }

  predicate IsSink(reg: Registry, kind: string) {
    kind in reg.components && reg.components[kind].outputs == []
  }
}
