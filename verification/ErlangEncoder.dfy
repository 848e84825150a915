/** `_term_to_binary` and the `binary()` methods of src/api/python/erlang.py. */
module ErlangEncoder {
  import opened Prelude
  import opened ErlangTags
  import opened ErlangTerms
  import Integers

  /** OtpErlangAtom.binary */
  function EncodeAtom(a: AtomValue): Result<seq<byte>> {
    match a
    case CacheRef(id) =>
      if 0 <= id <= 255 then Ok([TAG_ATOM_CACHE_REF, id]) else Err(ByteValueError)
    case Utf8(text) =>
      if |text| <= 255 then Ok([TAG_SMALL_ATOM_UTF8_EXT, |text|] + text)
      else if |text| <= 65535 then Ok([TAG_ATOM_UTF8_EXT] + PackU16(|text|) + text)
      else Err(OutputUint16Overflow)
    case Latin1(name) =>
      if |name| <= 255 then Ok([TAG_SMALL_ATOM_EXT, |name|] + name)
      else if |name| <= 65535 then Ok([TAG_ATOM_EXT] + PackU16(|name|) + name)
      else Err(OutputUint16Overflow)
  }

  /** OtpErlangBinary.binary */
  function EncodeBinary(bytes: seq<byte>, lastBits: int): Result<seq<byte>> {
    if |bytes| >= U32_LIMIT then Err(OutputUint32Overflow)
    else if lastBits == 8 then Ok([TAG_BINARY_EXT] + PackU32(|bytes|) + bytes)
    else if 0 <= lastBits <= 255 then Ok([TAG_BIT_BINARY_EXT] + PackU32(|bytes|) + [lastBits] + bytes)
    else Err(ByteValueError)
  }

  /** OtpErlangFunction.binary */
  function EncodeFunction(tag: int, bytes: seq<byte>): Result<seq<byte>> {
    if 0 <= tag <= 255 then Ok([tag] + bytes) else Err(ByteValueError)
  }

  /** OtpErlangPid.binary */
  function EncodePid(node: AtomValue, id: seq<byte>, serial: seq<byte>, creation: seq<byte>): Result<seq<byte>> {
    if |creation| == 1 then
      var n :- EncodeAtom(node);
      Ok([TAG_PID_EXT] + n + id + serial + creation)
    else if |creation| == 4 then
      var n :- EncodeAtom(node);
      Ok([TAG_NEW_PID_EXT] + n + id + serial + creation)
    else
      Err(OutputUnknownPid)
  }

  /** OtpErlangPort.binary */
  function EncodePort(node: AtomValue, id: seq<byte>, creation: seq<byte>): Result<seq<byte>> {
    if |creation| == 1 then
      var n :- EncodeAtom(node);
      Ok([TAG_PORT_EXT] + n + id + creation)
    else if |creation| == 4 then
      var n :- EncodeAtom(node);
      Ok([TAG_NEW_PORT_EXT] + n + id + creation)
    else
      Err(OutputUnknownPort)
  }

  /** OtpErlangReference.binary */
  function EncodeReference(node: AtomValue, id: seq<byte>, creation: seq<byte>): Result<seq<byte>> {
    var length := |id| / 4;
    if length == 0 then
      var n :- EncodeAtom(node);
      Ok([TAG_REFERENCE_EXT] + n + id + creation)
    else if length <= 65535 then
      if |creation| == 1 then
        var n :- EncodeAtom(node);
        Ok([TAG_NEW_REFERENCE_EXT] + PackU16(length) + n + creation + id)
      else if |creation| == 4 then
        var n :- EncodeAtom(node);
        Ok([TAG_NEWER_REFERENCE_EXT] + PackU16(length) + n + creation + id)
      else
        Err(OutputUnknownReference)
    else
      Err(OutputUint16Overflow)
  }

  /** One SMALL_INTEGER_EXT for each byte of a string too long for STRING_EXT. */
  function EncodeByteElements(s: seq<byte>): seq<byte> {
    if s == [] then [] else [TAG_SMALL_INTEGER_EXT, s[0]] + EncodeByteElements(s[1..])
  }

  /** `_string_to_binary` */
  function EncodeString(s: seq<byte>): Result<seq<byte>> {
    if |s| == 0 then Ok([TAG_NIL_EXT])
    else if |s| <= 65535 then Ok([TAG_STRING_EXT] + PackU16(|s|) + s)
    else if |s| < U32_LIMIT then
      Ok([TAG_LIST_EXT] + PackU32(|s|) + EncodeByteElements(s) + [TAG_NIL_EXT])
    else Err(OutputUint32Overflow)
  }

  /** `_term_to_binary` */
  function Encode(t: Term): Result<seq<byte>>
    decreases t, 1
  {
    match t
    case ByteString(s) => EncodeString(s)
    case Text(s) => EncodeString(s)
    case List(es) => EncodeList(es, false)
    case Tuple(es) =>
      if |es| <= 255 then
        var body :- EncodeAll(es);
        Ok([TAG_SMALL_TUPLE_EXT, |es|] + body)
      else if |es| < U32_LIMIT then
        var body :- EncodeAll(es);
        Ok([TAG_LARGE_TUPLE_EXT] + PackU32(|es|) + body)
      else
        Err(OutputUint32Overflow)
    case Boolean(flag) => EncodeAtom(Latin1(if flag then TRUE_NAME else FALSE_NAME))
    case Integer(n) => Integers.EncodeInteger(n)
    case Float(bits) => Ok([TAG_NEW_FLOAT_EXT] + bits)
    case Dict(ps) =>
      if |ps| < U32_LIMIT then
        var body :- EncodePairs(ps);
        Ok([TAG_MAP_EXT] + PackU32(|ps|) + body)
      else
        Err(OutputUint32Overflow)
    case Undefined => EncodeAtom(Latin1(UNDEFINED_NAME))
    case Atom(a) => EncodeAtom(a)
    case OtpList(es, improper) => EncodeList(es, improper)
    case Binary(bytes, lastBits) => EncodeBinary(bytes, lastBits)
    case Function(tag, bytes) => EncodeFunction(tag, bytes)
    case Reference(node, id, creation) => EncodeReference(node, id, creation)
    case Port(node, id, creation) => EncodePort(node, id, creation)
    case Pid(node, id, serial, creation) => EncodePid(node, id, serial, creation)
  }

  /** OtpErlangList.binary */
  function EncodeList(es: seq<Term>, improper: bool): Result<seq<byte>>
    decreases es, 1
  {
    if |es| == 0 then Ok([TAG_NIL_EXT])
    else if |es| >= U32_LIMIT then Err(OutputUint32Overflow)
    else if improper then
      var body :- EncodeAll(es);
      Ok([TAG_LIST_EXT] + PackU32(|es| - 1) + body)
    else
      var body :- EncodeAll(es);
      Ok([TAG_LIST_EXT] + PackU32(|es|) + body + [TAG_NIL_EXT])
  }

  /** The joined encodings of a sequence of terms. */
  function EncodeAll(ts: seq<Term>): Result<seq<byte>>
    decreases ts, 0
  {
    if ts == [] then Ok([])
    else
      var first :- Encode(ts[0]);
      var rest :- EncodeAll(ts[1..]);
      Ok(first + rest)
  }

  /** The joined encodings of key and value of each pair. */
  function EncodePairs(ps: seq<Entry>): Result<seq<byte>>
    decreases ps, 0
  {
    if ps == [] then Ok([])
    else
      var first :- EncodeEntry(ps[0]);
      var rest :- EncodePairs(ps[1..]);
      Ok(first + rest)
  }

  function EncodeEntry(p: Entry): Result<seq<byte>>
    decreases p, 0
  {
    var key :- Encode(p.key);
    var value :- Encode(p.value);
    Ok(key + value)
  }

  // ---------- Shape of encodings

  lemma {:induction false} EncodeAllAppend(a: seq<Term>, b: seq<Term>)
    requires EncodeAll(a).Ok? && EncodeAll(b).Ok?
    ensures EncodeAll(a + b) == Ok(EncodeAll(a).value + EncodeAll(b).value)
  {
    if a == [] {
      assert a + b == b;
      assert [] + EncodeAll(b).value == EncodeAll(b).value;
    } else {
      assert (a + b)[1..] == a[1..] + b;
      EncodeAllAppend(a[1..], b);
      var first, rest, last := Encode(a[0]).value, EncodeAll(a[1..]).value, EncodeAll(b).value;
      assert first + (rest + last) == (first + rest) + last;
    }
  }

  lemma EncodeAllOne(t: Term)
    ensures EncodeAll([t]) == Encode(t)
  {
    assert [t][1..] == [];
    if Encode(t).Ok? {
      assert Encode(t).value + [] == Encode(t).value;
    }
  }

  /** The parts of a joined encoding can be encoded on their own. */
  lemma {:induction false} EncodeAllSplit(a: seq<Term>, b: seq<Term>)
    requires EncodeAll(a + b).Ok?
    ensures EncodeAll(a).Ok? && EncodeAll(b).Ok?
    ensures EncodeAll(a + b) == Ok(EncodeAll(a).value + EncodeAll(b).value)
  {
    if a == [] {
      assert a + b == b;
      assert [] + EncodeAll(b).value == EncodeAll(b).value;
    } else {
      assert (a + b)[1..] == a[1..] + b;
      EncodeAllSplit(a[1..], b);
      var first, rest, last := Encode(a[0]).value, EncodeAll(a[1..]).value, EncodeAll(b).value;
      assert first + (rest + last) == (first + rest) + last;
    }
  }

  lemma {:induction false} EncodeAllEach(ts: seq<Term>, k: nat)
    requires EncodeAll(ts).Ok? && k < |ts|
    ensures Encode(ts[k]).Ok?
  {
    if k > 0 {
      EncodeAllEach(ts[1..], k - 1);
    }
  }

  /** No encoding is empty. */
  lemma EncodeNonEmpty(t: Term)
    requires Encode(t).Ok?
    ensures |Encode(t).value| > 0
  {
  }
}
