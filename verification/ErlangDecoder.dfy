/**
 `_binary_to_term` of src/api/python/erlang.py as a function of a cursor i and the data.

 The source slices without checking bounds and leaves it to the final comparison of the
 cursor with the data size to refuse truncated input. That reading is `Deferred`.
 `Checked` refuses a slice that is cut short at once, and `Exact` also refuses a
 NEW_FUN_EXT whose size field is below the 4 bytes of that field itself.
 */
module ErlangDecoder {
  import opened Prelude
  import opened ErlangTags
  import opened ErlangTerms
  import ErlangEncoder
  import Integers

  datatype Bounds = Deferred | Checked | Exact

  /** depth bounds the nesting of compressed terms; inflate stands for zlib.decompress. */
  datatype Env = Env(bounds: Bounds, depth: nat, inflate: seq<byte> -> Option<seq<byte>>)

  // ---------- Primitive reads

  /** `b_ord(data[i])` */
  function ByteAt(data: seq<byte>, i: nat): Result<byte> {
    if i < |data| then Ok(data[i]) else Err(MissingData)
  }

  /** The unsigned big-endian integer of w bytes: `b_ord`, `struct.unpack` with '>H' or '>I'. */
  function UintAt(w: nat, data: seq<byte>, i: nat): (r: Result<nat>)
    requires w == 1 || w == 2 || w == 4
    ensures r.Ok? ==> i + w <= |data|
  {
    if i + w <= |data| then Ok(Uint(data[i..i + w])) else Err(MissingData)
  }

  /** `struct.unpack(b'>i', data[i:i + 4])[0]` */
  function I32At(data: seq<byte>, i: nat): (r: Result<int>)
    ensures r.Ok? ==> i + 4 <= |data|
  {
    if i + 4 <= |data| then Ok(I32(data[i..i + 4])) else Err(MissingData)
  }

  /** `data[i:i + n]` */
  function Take(b: Bounds, data: seq<byte>, i: nat, n: nat): (r: Result<seq<byte>>)
    ensures r.Ok? ==> r.value == Slice(data, i, n) && (b != Deferred ==> i + n <= |data|)
    ensures i + n <= |data| ==> r == Ok(data[i..i + n])
  {
    if b != Deferred && |data| < i + n then Err(MissingData) else Ok(Slice(data, i, n))
  }

  /** A length field of w bytes and that many bytes behind it. */
  function Block(b: Bounds, w: nat, i: nat, data: seq<byte>): (r: Result<(nat, seq<byte>)>)
    requires w == 1 || w == 2 || w == 4
    ensures r.Ok? ==> i + w <= |data| && i + w <= r.value.0 && (b != Deferred ==> r.value.0 <= |data|)
  {
    var j :- UintAt(w, data, i);
    var bytes :- Take(b, data, i + w, j);
    Ok((i + w + j, bytes))
  }

  // ---------- Atoms, pids and integers inside other terms

  /** Width of the length field of an atom tag. */
  function AtomWidth(tag: byte): nat {
    if tag == TAG_ATOM_EXT || tag == TAG_ATOM_UTF8_EXT then 2
    else if tag == TAG_SMALL_ATOM_EXT || tag == TAG_SMALL_ATOM_UTF8_EXT then 1
    else 0
  }

  /** The atom name behind its tag; `TypeUnicode(..., encoding='utf-8', errors='strict')` checks a text. */
  function DecodeName(b: Bounds, tag: byte, i: nat, data: seq<byte>): (r: Result<(nat, AtomValue)>)
    requires AtomWidth(tag) > 0
    ensures r.Ok? ==> i < r.value.0 && i < |data| && (b != Deferred ==> r.value.0 <= |data|)
  {
    var (k, name) :- Block(b, AtomWidth(tag), i, data);
    if tag == TAG_ATOM_EXT || tag == TAG_SMALL_ATOM_EXT then Ok((k, Latin1(name)))
    else if ValidUtf8(name) then Ok((k, Utf8(name)))
    else Err(UnicodeDecodeError)
  }

  /** `_binary_to_atom` */
  function DecodeNode(b: Bounds, i: nat, data: seq<byte>): (r: Result<(nat, AtomValue)>)
    ensures r.Ok? ==> i < |data| && i + 1 < r.value.0 && (b != Deferred ==> r.value.0 <= |data|)
  {
    var tag :- ByteAt(data, i);
    if tag == TAG_ATOM_CACHE_REF then
      var id :- ByteAt(data, i + 1);
      Ok((i + 2, CacheRef(id)))
    else if AtomWidth(tag) > 0 then
      DecodeName(b, tag, i + 1, data)
    else
      Err(InvalidAtomTag)
  }

  /** Node, id, serial and creation, after the tag of a pid. */
  function DecodePidBody(b: Bounds, tag: byte, i: nat, data: seq<byte>): (r: Result<(nat, Term)>)
    ensures r.Ok? ==> i < |data| && i < r.value.0 && (b != Deferred ==> r.value.0 <= |data|)
  {
    var (n, node) :- DecodeNode(b, i, data);
    var id :- Take(b, data, n, 4);
    var serial :- Take(b, data, n + 4, 4);
    var width: nat := if tag == TAG_NEW_PID_EXT then 4 else 1;
    var creation :- Take(b, data, n + 8, width);
    Ok((n + 8 + width, Pid(node, id, serial, creation)))
  }

  /** `_binary_to_pid` */
  function DecodePid(b: Bounds, i: nat, data: seq<byte>): (r: Result<(nat, Term)>)
    ensures r.Ok? ==> i < |data| && i < r.value.0 && (b != Deferred ==> r.value.0 <= |data|)
  {
    var tag :- ByteAt(data, i);
    if tag == TAG_NEW_PID_EXT || tag == TAG_PID_EXT then DecodePidBody(b, tag, i + 1, data)
    else Err(InvalidPidTag)
  }

  /** `_binary_to_integer` */
  function DecodeInteger(i: nat, data: seq<byte>): (r: Result<(nat, int)>)
    ensures r.Ok? ==> i < |data| && i < r.value.0 <= |data|
  {
    var tag :- ByteAt(data, i);
    if tag == TAG_SMALL_INTEGER_EXT then
      var n :- ByteAt(data, i + 1);
      Ok((i + 2, n))
    else if tag == TAG_INTEGER_EXT then
      var n :- I32At(data, i + 1);
      Ok((i + 5, n))
    else
      Err(InvalidIntegerTag)
  }

  // ---------- Terms without nested terms; i is the index after the tag

  /** NEW_PORT_EXT, PORT_EXT and REFERENCE_EXT */
  function DecodePortBody(b: Bounds, tag: byte, i: nat, data: seq<byte>): (r: Result<(nat, Term)>)
    ensures r.Ok? ==> i < r.value.0 && (b != Deferred ==> r.value.0 <= |data|)
  {
    var (n, node) :- DecodeNode(b, i, data);
    var id :- Take(b, data, n, 4);
    var width: nat := if tag == TAG_NEW_PORT_EXT then 4 else 1;
    var creation :- Take(b, data, n + 4, width);
    Ok((n + 4 + width,
        if tag == TAG_REFERENCE_EXT then Reference(node, id, creation) else Port(node, id, creation)))
  }

  /** NEWER_REFERENCE_EXT and NEW_REFERENCE_EXT */
  function DecodeReferenceBody(b: Bounds, tag: byte, i: nat, data: seq<byte>): (r: Result<(nat, Term)>)
    ensures r.Ok? ==> i < r.value.0 && (b != Deferred ==> r.value.0 <= |data|)
  {
    var words :- UintAt(2, data, i);
    var (n, node) :- DecodeNode(b, i + 2, data);
    var width: nat := if tag == TAG_NEWER_REFERENCE_EXT then 4 else 1;
    var creation :- Take(b, data, n, width);
    var id :- Take(b, data, n + width, words * 4);
    Ok((n + width + words * 4, Reference(node, id, creation)))
  }

  /** SMALL_BIG_EXT and LARGE_BIG_EXT: digit count of w bytes, sign, digits. */
  function DecodeBignumBody(w: nat, i: nat, data: seq<byte>): (r: Result<(nat, Term)>)
    requires w == 1 || w == 4
    ensures r.Ok? ==> i < r.value.0 <= |data|
  {
    var j :- UintAt(w, data, i);
    var sign :- ByteAt(data, i + w);
    if j != 0 && |data| <= i + w + j then Err(MissingData)
    else
      var magnitude: int := Integers.Value(data[i + w + 1..i + w + 1 + j]);
      Ok((i + w + 1 + j, Integer(if sign == 1 then -magnitude else magnitude)))
  }

  /** EXPORT_EXT */
  function DecodeExportBody(b: Bounds, i: nat, data: seq<byte>): (r: Result<(nat, Term)>)
    ensures r.Ok? ==> i < r.value.0 && (b != Deferred ==> r.value.0 <= |data|)
  {
    var (m, _) :- DecodeNode(b, i, data);
    var (f, _) :- DecodeNode(b, m, data);
    var arityTag :- ByteAt(data, f);
    if arityTag != TAG_SMALL_INTEGER_EXT then Err(InvalidSmallIntegerTag)
    else
      var arity :- ByteAt(data, f + 1);
      var bytes :- Take(b, data, i, f + 2 - i);
      Ok((f + 2, Function(TAG_EXPORT_EXT, bytes)))
  }

  /** NEW_FUN_EXT, whose size field counts itself */
  function DecodeNewFunBody(b: Bounds, i: nat, data: seq<byte>): (r: Result<(nat, Term)>)
    ensures r.Ok? ==> i <= r.value.0 && (b != Deferred ==> r.value.0 <= |data|)
  {
    var length :- UintAt(4, data, i);
    if b == Exact && length < 4 then Err(FunctionSize)
    else
      var bytes :- Take(b, data, i, length);
      Ok((i + length, Function(TAG_NEW_FUN_EXT, bytes)))
  }

  function AtomTerm(name: seq<byte>): Term {
    if name == TRUE_NAME then Boolean(true)
    else if name == FALSE_NAME then Boolean(false)
    else Atom(Latin1(name))
  }

  /** BIT_BINARY_EXT */
  function DecodeBitsBody(b: Bounds, i: nat, data: seq<byte>): (r: Result<(nat, Term)>)
    ensures r.Ok? ==> i < r.value.0 && (b != Deferred ==> r.value.0 <= |data|)
  {
    var j :- UintAt(4, data, i);
    var bits :- ByteAt(data, i + 4);
    var bytes :- Take(b, data, i + 5, j);
    Ok((i + 5 + j, Binary(bytes, bits)))
  }

  function DecodeLeaf(b: Bounds, tag: byte, i: nat, data: seq<byte>): (r: Result<(nat, Term)>)
    requires i <= |data|
    ensures r.Ok? ==> i <= r.value.0 && (b != Deferred ==> r.value.0 <= |data|)
  {
    if tag == TAG_NEW_FLOAT_EXT then
      if i + 8 <= |data| then Ok((i + 8, Float(data[i..i + 8]))) else Err(MissingData)
    else if tag == TAG_BIT_BINARY_EXT then
      DecodeBitsBody(b, i, data)
    else if tag == TAG_ATOM_CACHE_REF then
      var id :- ByteAt(data, i);
      Ok((i + 1, Atom(CacheRef(id))))
    else if tag == TAG_SMALL_INTEGER_EXT then
      var n :- ByteAt(data, i);
      Ok((i + 1, Integer(n)))
    else if tag == TAG_INTEGER_EXT then
      var n :- I32At(data, i);
      Ok((i + 4, Integer(n)))
    else if tag == TAG_FLOAT_EXT then
      Err(FloatText)
    else if tag == TAG_ATOM_EXT then
      var (k, name) :- DecodeName(b, tag, i, data);
      Ok((k, Atom(name)))
    else if tag == TAG_NEW_PORT_EXT || tag == TAG_REFERENCE_EXT || tag == TAG_PORT_EXT then
      DecodePortBody(b, tag, i, data)
    else if tag == TAG_NEW_PID_EXT || tag == TAG_PID_EXT then
      DecodePidBody(b, tag, i, data)
    else if tag == TAG_NIL_EXT then
      Ok((i, List([])))
    else if tag == TAG_STRING_EXT then
      var (k, bytes) :- Block(b, 2, i, data);
      Ok((k, ByteString(bytes)))
    else if tag == TAG_BINARY_EXT then
      var (k, bytes) :- Block(b, 4, i, data);
      Ok((k, Binary(bytes, 8)))
    else if tag == TAG_SMALL_BIG_EXT then
      DecodeBignumBody(1, i, data)
    else if tag == TAG_LARGE_BIG_EXT then
      DecodeBignumBody(4, i, data)
    else if tag == TAG_NEW_FUN_EXT then
      DecodeNewFunBody(b, i, data)
    else if tag == TAG_EXPORT_EXT then
      DecodeExportBody(b, i, data)
    else if tag == TAG_NEWER_REFERENCE_EXT || tag == TAG_NEW_REFERENCE_EXT then
      DecodeReferenceBody(b, tag, i, data)
    else if tag == TAG_SMALL_ATOM_EXT then
      var (k, name) :- Block(b, 1, i, data);
      Ok((k, AtomTerm(name)))
    else if tag == TAG_ATOM_UTF8_EXT then
      var (k, text) :- DecodeName(b, tag, i, data);
      Ok((k, Atom(text)))
    else if tag == TAG_SMALL_ATOM_UTF8_EXT then
      var (k, text) :- DecodeName(b, tag, i, data);
      Ok((k, Atom(text)))
    else
      Err(InvalidTag)
  }

  // ---------- Dicts

  /** A list used as a key is wrapped; other keys are stored as they are. */
  function StoredKey(key: Term): Term {
    match key
    case List(es) => OtpList(es, false)
    case _ => key
  }

  predicate Hashable(t: Term) {
    match t
    case List(_) => false
    case Dict(_) => false
    case Tuple(es) => forall k :: 0 <= k < |es| ==> Hashable(es[k])
    case _ => true
  }

  /** Python's equality of two hashable keys: True is 1, and the OtpErlang classes compare encodings. */
  predicate SameKey(a: Term, b: Term) {
    match (a, b)
    case (Tuple(xs), Tuple(ys)) => |xs| == |ys| && forall k :: 0 <= k < |xs| ==> SameKey(xs[k], ys[k])
    case (Boolean(p), Integer(n)) => n == if p then 1 else 0
    case (Integer(n), Boolean(p)) => n == if p then 1 else 0
    case _ => a == b || (OtpObject(a) && OtpObject(b) && ErlangEncoder.Encode(a) == ErlangEncoder.Encode(b))
  }

  predicate OtpObject(t: Term) {
    t.Atom? || t.OtpList? || t.Binary? || t.Function? || t.Reference? || t.Port? || t.Pid?
  }

  function FindKey(ps: seq<Entry>, key: Term): (j: nat)
    ensures j <= |ps|
    ensures j < |ps| ==> SameKey(ps[j].key, key)
    ensures forall k :: 0 <= k < j ==> !SameKey(ps[k].key, key)
  {
    if ps == [] then 0 else if SameKey(ps[0].key, key) then 0 else 1 + FindKey(ps[1..], key)
  }

  /** `pairs[key] = value` */
  function Store(ps: seq<Entry>, key: Term, value: Term): Result<seq<Entry>> {
    var stored := StoredKey(key);
    if !Hashable(stored) then Err(UnhashableKey)
    else
      var j := FindKey(ps, stored);
      if j < |ps| then Ok(ps[j := Entry(ps[j].key, value)]) else Ok(ps + [Entry(stored, value)])
  }

  // ---------- Terms with nested terms

  /** The value of LIST_EXT: a tail other than the empty list makes it improper. */
  function ListTerm(es: seq<Term>, tail: Term): Term {
    if tail == List([]) then List(es) else OtpList(es + [tail], true)
  }

  function Remaining(i: nat, data: seq<byte>): nat {
    if i <= |data| then |data| - i else 0
  }

  /** What FUN_EXT holds before its free variables: their number, pid, module, index and uniq. */
  function DecodeFunHeader(b: Bounds, i: nat, data: seq<byte>): (r: Result<(nat, nat)>)
    ensures r.Ok? ==> i < r.value.0 && (b != Deferred ==> r.value.0 <= |data|)
  {
    var numfree :- UintAt(4, data, i);
    var (p, _) :- DecodePid(b, i + 4, data);
    var (m, _) :- DecodeNode(b, p, data);
    var (x, _) :- DecodeInteger(m, data);
    var (u, _) :- DecodeInteger(x, data);
    Ok((u, numfree))
  }

  /** `_binary_to_term` */
  function Decode(env: Env, i: nat, data: seq<byte>): (r: Result<(nat, Term)>)
    ensures r.Ok? ==> i < |data| && i < r.value.0 && (env.bounds != Deferred ==> r.value.0 <= |data|)
    decreases env.depth, Remaining(i, data), 0, 0
  {
    var tag :- ByteAt(data, i);
    if tag == TAG_SMALL_TUPLE_EXT then
      var length :- ByteAt(data, i + 1);
      var (k, es) :- DecodeSequence(env, i + 2, length, data);
      Ok((k, Tuple(es)))
    else if tag == TAG_LARGE_TUPLE_EXT then
      var length :- UintAt(4, data, i + 1);
      var (k, es) :- DecodeSequence(env, i + 5, length, data);
      Ok((k, Tuple(es)))
    else if tag == TAG_LIST_EXT then
      var length :- UintAt(4, data, i + 1);
      var (n, es) :- DecodeSequence(env, i + 5, length, data);
      var (k, tail) :- Decode(env, n, data);
      Ok((k, ListTerm(es, tail)))
    else if tag == TAG_MAP_EXT then
      var length :- UintAt(4, data, i + 1);
      var (k, ps) :- DecodePairs(env, i + 5, length, data, []);
      Ok((k, Dict(ps)))
    else if tag == TAG_FUN_EXT then
      var (u, numfree) :- DecodeFunHeader(env.bounds, i + 1, data);
      var (k, _) :- DecodeSequence(env, u, numfree, data);
      var bytes :- Take(env.bounds, data, i + 1, k - (i + 1));
      Ok((k, Function(TAG_FUN_EXT, bytes)))
    else if tag == TAG_COMPRESSED_ZLIB then
      DecodeCompressed(env, i + 1, data)
    else
      DecodeLeaf(env.bounds, tag, i + 1, data)
  }

  /** COMPRESSED_ZLIB: the rest of the data is one compressed term. */
  function DecodeCompressed(env: Env, i: nat, data: seq<byte>): (r: Result<(nat, Term)>)
    ensures r.Ok? ==> i < |data| && r.value.0 == |data|
    decreases env.depth, Remaining(i, data), 0, 1
  {
    var size :- UintAt(4, data, i);
    if size == 0 then Err(CompressedNull)
    else if env.depth == 0 then Err(RecursionError)
    else
      match env.inflate(data[i + 4..])
      case None => Err(ZlibError)
      case Some(plain) =>
        if size != |plain| then Err(CompressionCorrupt)
        else
          var (k, t) :- Decode(env.(depth := env.depth - 1), 0, plain);
          if k != size then Err(UnparsedData) else Ok((|data|, t))
  }

  /** `_binary_to_term_sequence`; it ends on any input, whatever element count the data claims. */
  function DecodeSequence(env: Env, i: nat, length: nat, data: seq<byte>): (r: Result<(nat, seq<Term>)>)
    ensures r.Ok? ==> i <= r.value.0 && |r.value.1| == length
    ensures r.Ok? && i <= |data| && env.bounds != Deferred ==> r.value.0 <= |data|
    decreases env.depth, Remaining(i, data), 1, length
  {
    if length == 0 then Ok((i, []))
    else
      var (n, element) :- Decode(env, i, data);
      var (k, es) :- DecodeSequence(env, n, length - 1, data);
      Ok((k, [element] + es))
  }

  /** The loop over the pairs of MAP_EXT. */
  function DecodePairs(env: Env, i: nat, length: nat, data: seq<byte>, ps: seq<Entry>): (r: Result<(nat, seq<Entry>)>)
    ensures r.Ok? ==> i <= r.value.0
    ensures r.Ok? && i <= |data| && env.bounds != Deferred ==> r.value.0 <= |data|
    decreases env.depth, Remaining(i, data), 1, length
  {
    if length == 0 then Ok((i, ps))
    else
      var (v, key) :- Decode(env, i, data);
      var (n, value) :- Decode(env, v, data);
      var stored :- Store(ps, key, value);
      DecodePairs(env, n, length - 1, data, stored)
  }

  // ---------- Entry points

  /** `binary_to_term` */
  function BinaryToTerm(env: Env, data: seq<byte>): Result<Term> {
    if |data| <= 1 then Err(NullInput)
    else if data[0] != TAG_VERSION then Err(InvalidVersion)
    else
      var (i, term) :- Decode(env, 1, data);
      if i != |data| then Err(UnparsedData) else Ok(term)
  }

  /** The elements read so far in front of those still to be read. */
  function After<T>(es: seq<T>, rest: Result<(nat, seq<T>)>): Result<(nat, seq<T>)> {
    match rest
    case Ok((k, more)) => Ok((k, es + more))
    case Err(e) => Err(e)
  }

  lemma AfterStep<T>(es: seq<T>, element: T, rest: Result<(nat, seq<T>)>)
    ensures After(es, After([element], rest)) == After(es + [element], rest)
  {
    if rest.Ok? {
      assert es + ([element] + rest.value.1) == (es + [element]) + rest.value.1;
    }
  }

  /** `_binary_to_term_sequence` as the source runs it. */
  method BinaryToTermSequence(env: Env, start: nat, length: nat, data: seq<byte>)
    returns (r: Result<(nat, seq<Term>)>)
    ensures r == DecodeSequence(env, start, length, data)
  {
    hide Decode;
    var i := start;
    var sequence: seq<Term> := [];
    ghost var whole := DecodeSequence(env, start, length, data);
    assert whole == After([], whole) by {
      assert whole.Ok? ==> [] + whole.value.1 == whole.value.1;
    }
    for n := 0 to length
      invariant whole == After(sequence, DecodeSequence(env, i, length - n, data))
    {
      var step := Decode(env, i, data);
      if step.Err? {
        return Err(step.error);
      }
      ghost var rest := DecodeSequence(env, step.value.0, length - n - 1, data);
      assert DecodeSequence(env, i, length - n, data) == After([step.value.1], rest);
      AfterStep(sequence, step.value.1, rest);
      i := step.value.0;
      sequence := sequence + [step.value.1];
    }
    assert sequence + [] == sequence;
    r := Ok((i, sequence));
  }

  /** The pair loop of the MAP_EXT branch as the source runs it. */
  method BinaryToPairs(env: Env, start: nat, length: nat, data: seq<byte>)
    returns (r: Result<(nat, seq<Entry>)>)
    ensures r == DecodePairs(env, start, length, data, [])
  {
    hide Decode, Store;
    var i := start;
    var pairs: seq<Entry> := [];
    for n := 0 to length
      invariant DecodePairs(env, start, length, data, []) == DecodePairs(env, i, length - n, data, pairs)
    {
      var key := Decode(env, i, data);
      if key.Err? {
        return Err(key.error);
      }
      var value := Decode(env, key.value.0, data);
      if value.Err? {
        return Err(value.error);
      }
      var stored := Store(pairs, key.value.1, value.value.1);
      if stored.Err? {
        return Err(stored.error);
      }
      i := value.value.0;
      pairs := stored.value;
    }
    r := Ok((i, pairs));
  }
}
