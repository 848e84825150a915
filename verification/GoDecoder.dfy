/**
 The Go decoder of src/api/go/erlang/erlang.go. It keeps an absolute index beside the
 position of a bytes.Reader; a Read near the end fills its slice only partly and reports
 no error, a Seek may pass the end, and ReadAt uses the index instead of the position.
 */
module GoDecoder {
  import opened Prelude
  import opened ErlangTags
  import opened ErlangDecoder

  /** What a length of 16 bits can count. */
  type ShortBytes = s: seq<byte> | |s| < 0x1_0000

  datatype GoTerm =
    | Uint8(number: byte)
    | Int32(word: int)
    | BigInt(big: int)
    | Float64(bits: seq<byte>)
    | Atom(name: seq<byte>)
    | AtomUtf8(name: seq<byte>)
    | AtomCacheRef(id: byte)
    | GoString(value: seq<byte>)
    | Tuple(elements: seq<GoTerm>)
    | List(elements: seq<GoTerm>, improper: bool)
    | Binary(value: seq<byte>, lastBits: byte)
    | EmptyMap
    | Function(tag: byte, value: seq<byte>)
    | Pid(node: NodeName, pid: seq<byte>, serial: seq<byte>, creation: seq<byte>)
    | Port(node: NodeName, port: seq<byte>, creation: seq<byte>)
    | Reference(node: NodeName, ids: ShortBytes, creation: seq<byte>)

  /** NodeTag and Node: the bytes behind the tag, length field included. */
  datatype NodeName = NodeName(tag: byte, bytes: seq<byte>)

  // ---------- The grammar, read with every bound checked

  /**
   `binaryToAtom`: the slice for length field and name has a length of 8 or 16 bits, so
   it wraps around for the longest names.
   */
  function NodeGrammar(i: nat, data: seq<byte>): (r: Result<(nat, NodeName)>)
    ensures r.Ok? ==> i < r.value.0 <= |data|
  {
    var tag :- ByteAt(data, i);
    if tag == TAG_ATOM_EXT || tag == TAG_ATOM_UTF8_EXT then
      var j :- UintAt(2, data, i + 1);
      var bytes :- Take(Checked, data, i + 1, (2 + j) % 0x1_0000);
      if i + 3 + j <= |data| then Ok((i + 3 + j, NodeName(tag, bytes))) else Err(MissingData)
    else if tag == TAG_SMALL_ATOM_EXT || tag == TAG_SMALL_ATOM_UTF8_EXT then
      var j :- UintAt(1, data, i + 1);
      var bytes :- Take(Checked, data, i + 1, (1 + j) % 0x100);
      if i + 2 + j <= |data| then Ok((i + 2 + j, NodeName(tag, bytes))) else Err(MissingData)
    else if tag == TAG_ATOM_CACHE_REF then
      var id :- ByteAt(data, i + 1);
      Ok((i + 2, NodeName(tag, [id])))
    else
      Err(InvalidAtomTag)
  }

  function PidGrammar(tag: byte, i: nat, data: seq<byte>): (r: Result<(nat, GoTerm)>)
    ensures r.Ok? ==> i < r.value.0 <= |data|
  {
    var (n, node) :- NodeGrammar(i, data);
    var id :- Take(Checked, data, n, 4);
    var serial :- Take(Checked, data, n + 4, 4);
    var width: nat := if tag == TAG_NEW_PID_EXT then 4 else 1;
    var creation :- Take(Checked, data, n + 8, width);
    Ok((n + 8 + width, Pid(node, id, serial, creation)))
  }

  function PortGrammar(tag: byte, i: nat, data: seq<byte>): (r: Result<(nat, GoTerm)>)
    ensures r.Ok? ==> i < r.value.0 <= |data|
  {
    var (n, node) :- NodeGrammar(i, data);
    var id :- Take(Checked, data, n, 4);
    var width: nat := if tag == TAG_NEW_PORT_EXT then 4 else 1;
    var creation :- Take(Checked, data, n + 4, width);
    Ok((n + 4 + width, if tag == TAG_REFERENCE_EXT then Reference(node, id, creation) else Port(node, id, creation)))
  }

  /** The byte count of the ids is kept in 16 bits. */
  function ReferenceGrammar(tag: byte, i: nat, data: seq<byte>): (r: Result<(nat, GoTerm)>)
    ensures r.Ok? ==> i < r.value.0 <= |data|
  {
    var words :- UintAt(2, data, i);
    var j := words * 4 % 0x1_0000;
    var (n, node) :- NodeGrammar(i + 2, data);
    var width: nat := if tag == TAG_NEWER_REFERENCE_EXT then 4 else 1;
    var creation :- Take(Checked, data, n, width);
    var ids :- Take(Checked, data, n + width, j);
    Ok((n + width + j, Reference(node, ids, creation)))
  }

  function BignumGrammar(w: nat, i: nat, data: seq<byte>): (r: Result<(nat, GoTerm)>)
    requires w == 1 || w == 4
    ensures r.Ok? ==> i < r.value.0 <= |data|
  {
    var (k, t) :- DecodeBignumBody(w, i, data);
    Ok((k, BigInt(t.number)))
  }

  function ExportGrammar(i: nat, data: seq<byte>): (r: Result<(nat, GoTerm)>)
    ensures r.Ok? ==> i < r.value.0 <= |data|
  {
    var (m, _) :- NodeGrammar(i, data);
    var (f, _) :- NodeGrammar(m, data);
    var arityTag :- ByteAt(data, f);
    if arityTag != TAG_SMALL_INTEGER_EXT then Err(InvalidSmallIntegerTag)
    else
      var arity :- ByteAt(data, f + 1);
      Ok((f + 2, Function(TAG_EXPORT_EXT, data[i..f + 2])))
  }

  function IntegerGrammar(i: nat, data: seq<byte>): (r: Result<(nat, GoTerm)>)
    ensures r.Ok? ==> i < r.value.0 <= |data|
  {
    var tag :- ByteAt(data, i);
    if tag == TAG_SMALL_INTEGER_EXT then
      var n :- ByteAt(data, i + 1);
      Ok((i + 2, Uint8(n)))
    else if tag == TAG_INTEGER_EXT then
      var n :- I32At(data, i + 1);
      Ok((i + 5, Int32(n)))
    else
      Err(InvalidIntegerTag)
  }

  function FunHeaderGrammar(i: nat, data: seq<byte>): (r: Result<(nat, nat)>)
    ensures r.Ok? ==> i < r.value.0 <= |data|
  {
    var numfree :- UintAt(4, data, i);
    var tag :- ByteAt(data, i + 4);
    if tag != TAG_NEW_PID_EXT && tag != TAG_PID_EXT then Err(InvalidPidTag)
    else
      var (p, _) :- PidGrammar(tag, i + 5, data);
      var (m, _) :- NodeGrammar(p, data);
      var (x, _) :- IntegerGrammar(m, data);
      var (u, _) :- IntegerGrammar(x, data);
      Ok((u, numfree))
  }

  /** Terms that hold nothing but bytes behind the tag: width of the length field, 0 for other tags. */
  function BlockWidth(tag: byte): nat {
    if tag == TAG_ATOM_EXT || tag == TAG_STRING_EXT || tag == TAG_ATOM_UTF8_EXT then 2
    else if tag == TAG_SMALL_ATOM_EXT || tag == TAG_SMALL_ATOM_UTF8_EXT then 1
    else if tag == TAG_BINARY_EXT || tag == TAG_NEW_FUN_EXT then 4
    else 0
  }

  function BlockTerm(tag: byte, bytes: seq<byte>): GoTerm {
    if tag == TAG_ATOM_EXT || tag == TAG_SMALL_ATOM_EXT then Atom(bytes)
    else if tag == TAG_ATOM_UTF8_EXT || tag == TAG_SMALL_ATOM_UTF8_EXT then AtomUtf8(bytes)
    else if tag == TAG_STRING_EXT then GoString(bytes)
    else if tag == TAG_BINARY_EXT then Binary(bytes, 8)
    else Function(tag, bytes)
  }

  function LeafGrammar(tag: byte, i: nat, data: seq<byte>): (r: Result<(nat, GoTerm)>)
    requires i <= |data|
    ensures r.Ok? ==> i <= r.value.0 <= |data|
  {
    if BlockWidth(tag) > 0 then
      var (k, bytes) :- Block(Checked, BlockWidth(tag), i, data);
      Ok((k, BlockTerm(tag, bytes)))
    else if tag == TAG_NEW_FLOAT_EXT then
      if i + 8 <= |data| then Ok((i + 8, Float64(data[i..i + 8]))) else Err(MissingData)
    else if tag == TAG_BIT_BINARY_EXT then
      var j :- UintAt(4, data, i);
      var bits :- ByteAt(data, i + 4);
      var bytes :- Take(Checked, data, i + 5, j);
      Ok((i + 5 + j, Binary(bytes, bits)))
    else if tag == TAG_ATOM_CACHE_REF then
      var id :- ByteAt(data, i);
      Ok((i + 1, AtomCacheRef(id)))
    else if tag == TAG_SMALL_INTEGER_EXT then
      var n :- ByteAt(data, i);
      Ok((i + 1, Uint8(n)))
    else if tag == TAG_INTEGER_EXT then
      var n :- I32At(data, i);
      Ok((i + 4, Int32(n)))
    else if tag == TAG_NEW_PORT_EXT || tag == TAG_REFERENCE_EXT || tag == TAG_PORT_EXT then PortGrammar(tag, i, data)
    else if tag == TAG_NEW_PID_EXT || tag == TAG_PID_EXT then PidGrammar(tag, i, data)
    else if tag == TAG_NIL_EXT then Ok((i, List([], false)))
    else if tag == TAG_SMALL_BIG_EXT then BignumGrammar(1, i, data)
    else if tag == TAG_LARGE_BIG_EXT then BignumGrammar(4, i, data)
    else if tag == TAG_EXPORT_EXT then ExportGrammar(i, data)
    else if tag == TAG_NEWER_REFERENCE_EXT || tag == TAG_NEW_REFERENCE_EXT then ReferenceGrammar(tag, i, data)
    else if tag == TAG_FLOAT_EXT then Err(FloatText)
    else if tag == TAG_COMPRESSED_ZLIB then Err(ZlibError)
    else Err(InvalidTag)
  }

  function ListTermOf(es: seq<GoTerm>, tail: GoTerm): GoTerm {
    if tail.List? && tail.elements == [] then List(es, false) else List(es + [tail], true)
  }

  /** `binaryToTerms` */
  function Grammar(i: nat, data: seq<byte>): (r: Result<(nat, GoTerm)>)
    ensures r.Ok? ==> i < r.value.0 <= |data|
    decreases Remaining(i, data), 0, 0
  {
    var tag :- ByteAt(data, i);
    if tag == TAG_SMALL_TUPLE_EXT then
      var length :- UintAt(1, data, i + 1);
      var (k, es) :- SequenceGrammar(i + 2, length, data);
      Ok((k, Tuple(es)))
    else if tag == TAG_LARGE_TUPLE_EXT then
      var length :- UintAt(4, data, i + 1);
      var (k, es) :- SequenceGrammar(i + 5, length, data);
      Ok((k, Tuple(es)))
    else if tag == TAG_LIST_EXT then
      var length :- UintAt(4, data, i + 1);
      var (n, es) :- SequenceGrammar(i + 5, length, data);
      var (k, tail) :- Grammar(n, data);
      Ok((k, ListTermOf(es, tail)))
    else if tag == TAG_MAP_EXT then
      // the map is declared but never made, so storing into it panics
      var length :- UintAt(4, data, i + 1);
      if length == 0 then Ok((i + 5, EmptyMap)) else Err(UnhashableKey)
    else if tag == TAG_FUN_EXT then
      var (u, numfree) :- FunHeaderGrammar(i + 1, data);
      var (k, _) :- SequenceGrammar(u, numfree, data);
      Ok((k, Function(TAG_FUN_EXT, data[i + 1..k])))
    else
      LeafGrammar(tag, i + 1, data)
  }

  function SequenceGrammar(i: nat, length: nat, data: seq<byte>): (r: Result<(nat, seq<GoTerm>)>)
    ensures r.Ok? ==> i <= r.value.0 && (i <= |data| ==> r.value.0 <= |data|)
    decreases Remaining(i, data), 1, length
  {
    if length == 0 then Ok((i, []))
    else
      var (n, element) :- Grammar(i, data);
      var (k, es) :- SequenceGrammar(n, length - 1, data);
      Ok((k, [element] + es))
  }
}
