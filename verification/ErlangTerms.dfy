/** The Python values that the term codec reads and writes. */
module ErlangTerms {
  import opened Prelude

  /** The value of an OtpErlangAtom: an int, a text (held as its UTF-8 bytes) or bytes. */
  datatype AtomValue = CacheRef(id: int) | Utf8(text: seq<byte>) | Latin1(name: seq<byte>)

  datatype Term =
    | ByteString(bytes: seq<byte>)
    | Text(bytes: seq<byte>)                   // str, held as its UTF-8 bytes
    | List(elements: seq<Term>)                // list
    | Tuple(elements: seq<Term>)
    | Boolean(flag: bool)
    | Integer(number: int)
    | Float(bits: seq<byte>)                   // float, held as its 8 IEEE bytes
    | Dict(pairs: seq<Entry>)                  // dict, in insertion order
    | Undefined                                // None
    | Atom(value: AtomValue)
    | OtpList(elements: seq<Term>, improper: bool)
    | Binary(bytes: seq<byte>, lastBits: int)
    | Function(tag: int, bytes: seq<byte>)
    | Reference(node: AtomValue, id: seq<byte>, creation: seq<byte>)
    | Port(node: AtomValue, id: seq<byte>, creation: seq<byte>)
    | Pid(node: AtomValue, id: seq<byte>, serial: seq<byte>, creation: seq<byte>)

  datatype Entry = Entry(key: Term, value: Term)

  const TRUE_NAME: seq<byte> := [116, 114, 117, 101]
  const FALSE_NAME: seq<byte> := [102, 97, 108, 115, 101]
  const UNDEFINED_NAME: seq<byte> := [117, 110, 100, 101, 102, 105, 110, 101, 100]

  // ---------- UTF-8 (RFC 3629), as bytes.decode('utf-8', 'strict') accepts it

  /** What the bytes read so far still ask for; Low and High bound the next continuation byte. */
  datatype Utf8State = Invalid | Expect(count: nat, low: byte, high: byte)

  const UTF8_START := Expect(0, 0x80, 0xBF)

  function Utf8Step(state: Utf8State, b: byte): Utf8State {
    match state
    case Invalid => Invalid
    case Expect(0, _, _) =>
      if b <= 0x7F then UTF8_START
      else if 0xC2 <= b <= 0xDF then Expect(1, 0x80, 0xBF)
      else if 0xE0 <= b <= 0xEF then
        Expect(2, if b == 0xE0 then 0xA0 else 0x80, if b == 0xED then 0x9F else 0xBF)
      else if 0xF0 <= b <= 0xF4 then
        Expect(3, if b == 0xF0 then 0x90 else 0x80, if b == 0xF4 then 0x8F else 0xBF)
      else Invalid
    case Expect(count, low, high) =>
      if low <= b <= high then Expect(count - 1, 0x80, 0xBF) else Invalid
  }

  function Utf8Run(s: seq<byte>): Utf8State {
    if s == [] then UTF8_START else Utf8Step(Utf8Run(s[..|s| - 1]), s[|s| - 1])
  }

  predicate ValidUtf8(s: seq<byte>) {
    Utf8Run(s) == UTF8_START
  }

  // ---------- Size of a term

  /** Number of Python values a term is made of. */
  function Nodes(t: Term): nat
    decreases t, 1
  {
    match t
    case List(es) => 1 + NodesAll(es)
    case Tuple(es) => 1 + NodesAll(es)
    case OtpList(es, _) => 1 + NodesAll(es)
    case Dict(ps) => 1 + NodesPairs(ps)
    case _ => 1
  }

  function NodesAll(ts: seq<Term>): nat
    decreases ts, 0
  {
    if ts == [] then 0 else Nodes(ts[0]) + NodesAll(ts[1..])
  }

  function NodesPairs(ps: seq<Entry>): nat
    decreases ps, 0
  {
    if ps == [] then 0
    else NodesPairs(ps[..|ps| - 1]) + NodesEntry(ps[|ps| - 1])
  }

  function NodesEntry(p: Entry): nat
    decreases p, 0
  {
    Nodes(p.key) + Nodes(p.value)
  }
}
