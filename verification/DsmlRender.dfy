/** Rendering remembered or canonical tool calls as prompt text. */
module DsmlRender {
  import opened ByteStrings
  import opened Dsml

  /** One member of a JSON argument object: a string, or the raw text of another
      JSON value. */
  datatype Arg = Arg(key: Bytes, isString: bool, value: Bytes)

  /** The arguments of a call: a parsed object, or text that is not one. */
  datatype Arguments = Members(args: seq<Arg>) | Unparsed(text: Bytes)

  datatype Call = Call(name: Bytes, arguments: Arguments)

  /** The calls of a message; a non-empty `raw` is replayed as it is. */
  datatype Calls = Calls(list: seq<Call>, raw: Bytes)

  const NL: Byte := 10

  /** The closing tag of a parameter. */
  const END := FULL.paramEnd
  const NAME_OPEN := Ascii(" name=\"")
  const STRING_OPEN := Ascii("\" string=\"")
  const TAG_CLOSE := Ascii("\">")

  /** Attribute values escape the four bytes that could end them. */
  function AttrByte(b: Byte): Bytes {
    if b == AMP then AMP_ENTITY else if b == LT then LT_ENTITY
    else if b == GT then GT_ENTITY else if b == QUOTE then QUOT_ENTITY else [b]
  }

  function AttrEscaped(s: Bytes): Bytes {
    if s == [] then [] else AttrByte(s[0]) + AttrEscaped(s[1..])
  }

  /** Tool results escape three. */
  function TextByte(b: Byte): Bytes {
    if b == AMP then AMP_ENTITY else if b == LT then LT_ENTITY else if b == GT then GT_ENTITY else [b]
  }

  function TextEscaped(s: Bytes): Bytes {
    if s == [] then [] else TextByte(s[0]) + TextEscaped(s[1..])
  }

  /** A parameter value keeps every byte but the first of a closing tag. */
  function Shielded(s: Bytes, shield: Bytes): Bytes {
    if s == [] then []
    else (if IsAt(s, END, 0) then shield else [s[0]]) + Shielded(s[1..], shield)
  }

  function ParamText(s: Bytes): Bytes {
    Shielded(s, LT_ENTITY)
  }

  function JsonLiteral(s: Bytes): Bytes {
    Shielded(s, Ascii("\\u003c"))
  }

  function ArgText(a: Arg): Bytes {
    FULL.paramStart + NAME_OPEN + AttrEscaped(a.key) + STRING_OPEN
    + (if a.isString then Ascii("true") else Ascii("false")) + TAG_CLOSE
    + (if a.isString then ParamText(a.value) else JsonLiteral(a.value))
    + END + [NL]
  }

  function ArgsText(args: seq<Arg>): Bytes {
    if args == [] then [] else ArgText(args[0]) + ArgsText(args[1..])
  }

  /** Arguments that are not a JSON object become one string parameter. */
  function ArgumentsText(a: Arguments): Bytes {
    match a
    case Members(args) => ArgsText(args)
    case Unparsed(text) => ArgText(Arg(Ascii("arguments"), true, text))
  }

  function CallText(c: Call): Bytes {
    FULL.invokeStart + NAME_OPEN + AttrEscaped(c.name) + TAG_CLOSE + [NL]
    + ArgumentsText(c.arguments) + FULL.invokeEnd + [NL]
  }

  function CallListText(list: seq<Call>): Bytes {
    if list == [] then [] else CallText(list[0]) + CallListText(list[1..])
  }

  /** The text of a message's calls: nothing without calls. */
  function CallsText(calls: Calls): Bytes {
    if calls.list == [] then []
    else if calls.raw != [] then calls.raw
    else [NL, NL] + FULL.toolStart + [NL] + CallListText(calls.list) + FULL.toolEnd
  }
}
