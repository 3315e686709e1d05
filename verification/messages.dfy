/** Chat messages and the loosely typed values the source inspects with
    `typeof`, `in` and optional chaining. */
module Messages {
  import opened Wrappers

  /** A JavaScript value, as far as the source looks into it. Numbers are
      integers (no NaN or fractions are needed by the core). */
  datatype Value =
    | Undefined
    | Null
    | Bool(b: bool)
    | Num(n: int)
    | Str(s: string)
    | Arr(items: seq<Value>)
    | Obj(fields: map<string, Value>)

  /** JavaScript truthiness. */
  predicate Truthy(v: Value) {
    match v
    case Undefined => false
    case Null => false
    case Bool(b) => b
    case Num(n) => n != 0
    case Str(s) => s != ""
    case Arr(_) => true
    case Obj(_) => true
  }

  /** `v?.[key]`: a property of an object, and `undefined` for anything else
      (no property the core reads exists on primitives or arrays). */
  function Get(v: Value, key: string): (r: Value)
    ensures r != Undefined ==> v.Obj? && key in v.fields
  {
    if v.Obj? && key in v.fields then v.fields[key] else Undefined
  }

  /** One element of a structured (non-string) message content. Only parts
      that carry a `text` key are text parts. */
  datatype ContentPart = TextPart(text: string) | OtherPart(kind: string)

  /** `MessageContent`: either a plain string or a list of parts. */
  datatype MessageContent = Text(s: string) | Parts(parts: seq<ContentPart>)

  /** A chat message: its type tag (`"human"`, `"ai"`, ...), optional id,
      content, and the remaining object keys (`additional_kwargs`, `kwargs`)
      as they appear on the message object. */
  datatype Message = Message(kind: string, id: Option<string>, content: MessageContent, fields: map<string, Value>)

  /** The message as an object value. */
  function AsValue(m: Message): Value {
    Obj(m.fields)
  }

  /** `new HumanMessage(text)`. */
  function HumanMessage(text: string): Message {
    Message("human", None, Text(text), map["additional_kwargs" := Obj(map[])])
  }

  /** `new AIMessage({ id, content })`. */
  function AIMessage(id: Option<string>, text: string): Message {
    Message("ai", id, Text(text), map["additional_kwargs" := Obj(map[])])
  }

  predicate IsHuman(m: Message) {
    m.kind == "human"
  }
}
