/** Results, bytes and fixed-width integers shared by every component. */
module Prelude {

  type byte = b: int | 0 <= b < 256

  datatype Option<+T> = None | Some(value: T) {
    predicate IsFailure() {
      None?
    }

    function PropagateFailure<U>(): Option<U>
      requires None?
    {
      None
    }

    function Extract(): T
      requires Some?
    {
      value
    }
  }

  /** The exceptions of the codec, one constructor per kind the source raises. */
  datatype Error =
    | OutputUint16Overflow
    | OutputUint32Overflow
    | OutputUnknownPid
    | OutputUnknownPort
    | OutputUnknownReference
    | ByteValueError          // b_chr of a number outside 0..255
    | InputCompressedLevel
    | NullInput
    | InvalidVersion
    | MissingData             // IndexError or struct.error
    | UnparsedData
    | InvalidTag
    | InvalidAtomTag
    | InvalidPidTag
    | InvalidIntegerTag
    | InvalidSmallIntegerTag
    | UnicodeDecodeError
    | UnhashableKey           // TypeError of a dict key
    | CompressedNull
    | CompressionCorrupt
    | ZlibError
    | RecursionError          // nested compressed terms beyond the allowed depth
    | FloatText               // FLOAT_EXT, whose text is not part of the model
    | FunctionSize            // refused only by the Exact reading of NEW_FUN_EXT

  datatype Result<+T> = Ok(value: T) | Err(error: Error) {
    predicate IsFailure() {
      Err?
    }

    function PropagateFailure<U>(): Result<U>
      requires Err?
    {
      Err(error)
    }

    function Extract(): T
      requires Ok?
    {
      value
    }
  }

  const U16_LIMIT: nat := 0x1_0000
  const U32_LIMIT: nat := 0x1_0000_0000

  // ---------- Big-endian fixed-width integers (struct formats '>H', '>I', '>i')

  function PackU16(n: nat): (s: seq<byte>)
    requires n < U16_LIMIT
    ensures |s| == 2
  {
    [n / 256, n % 256]
  }

  function PackU32(n: nat): (s: seq<byte>)
    requires n < U32_LIMIT
    ensures |s| == 4
  {
    [n / 0x100_0000, n / 0x1_0000 % 256, n / 256 % 256, n % 256]
  }

  function PackI32(n: int): (s: seq<byte>)
    requires -0x8000_0000 <= n < 0x8000_0000
    ensures |s| == 4
  {
    PackU32(if n < 0 then n + U32_LIMIT else n)
  }

  function U16(s: seq<byte>): (n: nat)
    requires |s| == 2
    ensures n < U16_LIMIT
  {
    var a: int, b: int := s[0], s[1];
    a * 256 + b
  }

  function U32(s: seq<byte>): (n: nat)
    requires |s| == 4
    ensures n < U32_LIMIT
  {
    var a: int, b: int, c: int, d: int := s[0], s[1], s[2], s[3];
    a * 0x100_0000 + b * 0x1_0000 + c * 256 + d
  }

  /** The unsigned integer of one, two or four big-endian bytes. */
  function Uint(s: seq<byte>): (n: nat)
    requires |s| == 1 || |s| == 2 || |s| == 4
    ensures |s| == 1 ==> n == s[0]
    ensures |s| == 2 ==> n == U16(s)
    ensures |s| == 4 ==> n == U32(s)
  {
    if |s| == 1 then s[0] else if |s| == 2 then U16(s) else U32(s)
  }

  function I32(s: seq<byte>): (n: int)
    requires |s| == 4
    ensures -0x8000_0000 <= n < 0x8000_0000
  {
    var u := U32(s);
    if u < 0x8000_0000 then u else u - U32_LIMIT
  }

  lemma UnpackPack16(n: nat)
    requires n < U16_LIMIT
    ensures U16(PackU16(n)) == n
  {
  }

  lemma UnpackPack32(n: nat)
    requires n < U32_LIMIT
    ensures U32(PackU32(n)) == n
  {
    var a, b, c := n / 256, n / 0x1_0000, n / 0x100_0000;
    assert b == a / 256 && c == b / 256;
    assert n == 256 * a + n % 256 && a == 256 * b + a % 256 && b == 256 * c + b % 256;
  }

  lemma UnpackPackSigned(n: int)
    requires -0x8000_0000 <= n < 0x8000_0000
    ensures I32(PackI32(n)) == n
  {
    UnpackPack32(if n < 0 then n + U32_LIMIT else n);
  }

  // ---------- Slices

  /** What Python's `data[i:i + n]` yields: shorter than n, without complaint, near the end. */
  function Slice(data: seq<byte>, i: nat, n: nat): (s: seq<byte>)
    ensures |s| <= n
    ensures i + n <= |data| ==> s == data[i..i + n]
  {
    if |data| <= i then [] else if |data| <= i + n then data[i..] else data[i..i + n]
  }

  /** e occupies data from index i on. */
  predicate At(data: seq<byte>, i: nat, e: seq<byte>) {
    i + |e| <= |data| && data[i..i + |e|] == e
  }

  lemma AtSplit(data: seq<byte>, i: nat, a: seq<byte>, b: seq<byte>)
    requires At(data, i, a + b)
    ensures At(data, i, a) && At(data, i + |a|, b)
  {
    assert (a + b)[..|a|] == a && (a + b)[|a|..] == b;
    assert data[i..i + |a + b|][..|a|] == data[i..i + |a|];
    assert data[i..i + |a + b|][|a|..] == data[i + |a|..i + |a| + |b|];
  }
}
