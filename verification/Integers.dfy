/**
 The integer forms of the term format: SMALL_INTEGER_EXT, INTEGER_EXT and the
 sign-magnitude SMALL_BIG_EXT / LARGE_BIG_EXT with little-endian base-256 digits.
 */
module Integers {
  import opened Prelude
  import opened ErlangTags

  /** The base-256 digits of n, least significant first, none of them a leading zero. */
  function Digits(n: nat): (s: seq<byte>) {
    if n == 0 then [] else [n % 256] + Digits(n / 256)
  }

  /** The number whose base-256 digits are s, least significant first. */
  function Value(s: seq<byte>): nat {
    if s == [] then 0 else (s[0] as int) + 256 * Value(s[1..])
  }

  function Pow256(k: nat): (p: nat)
    ensures 0 < p
  {
    if k == 0 then 1 else 256 * Pow256(k - 1)
  }

  /** What big.Int.Bytes() returns: the digits most significant first. */
  function BigEndian(n: nat): seq<byte> {
    if n == 0 then [] else BigEndian(n / 256) + [n % 256]
  }

  function Reversed(s: seq<byte>): (r: seq<byte>)
    ensures |r| == |s|
    ensures forall k :: 0 <= k < |s| ==> r[k] == s[|s| - 1 - k]
  {
    seq(|s|, k requires 0 <= k < |s| => s[|s| - 1 - k])
  }

  function Magnitude(n: int): nat {
    if n < 0 then -n else n
  }

  // ---------- Laws of the digit representation

  lemma {:induction false} ValueOfDigits(n: nat)
    ensures Value(Digits(n)) == n
  {
    if n != 0 {
      ValueOfDigits(n / 256);
      assert Digits(n)[1..] == Digits(n / 256);
    }
  }

  /** Without a leading zero the digits are determined by the number. */
  lemma {:induction false} DigitsOfValue(s: seq<byte>)
    requires s != [] ==> s[|s| - 1] != 0
    ensures Digits(Value(s)) == s
  {
    if s != [] {
      if |s| == 1 {
        assert s[1..] == [] && Value(s) == s[0];
        assert Digits(s[0] / 256) == [];
      } else {
        DigitsOfValue(s[1..]);
        var v := Value(s[1..]);
        assert Digits(v) != [];
        assert Value(s) / 256 == v && Value(s) % 256 == s[0];
      }
    }
  }

  /** The digit loop emits exactly as many digits as the magnitude needs. */
  lemma {:induction false} DigitCount(n: nat)
    requires 0 < n
    ensures |Digits(n)| >= 1
    ensures Pow256(|Digits(n)| - 1) <= n < Pow256(|Digits(n)|)
  {
    if n < 256 {
      assert Digits(n / 256) == [];
      assert Pow256(1) == 256 * Pow256(0);
    } else {
      DigitCount(n / 256);
    }
  }

  lemma {:induction false} BigEndianIsReversedDigits(n: nat)
    ensures Reversed(BigEndian(n)) == Digits(n)
  {
    if n != 0 {
      BigEndianIsReversedDigits(n / 256);
      var b := BigEndian(n / 256);
      var r := Reversed(b + [n % 256]);
      assert forall k :: 1 <= k < |r| ==> r[k] == Reversed(b)[k - 1];
      assert r == [n % 256] + Reversed(b);
    }
  }

  // ---------- Encoding

  /** `_bignum_to_binary`. */
  function EncodeBignum(n: int): Result<seq<byte>> {
    var sign: byte := if n < 0 then 1 else 0;
    var value := Digits(Magnitude(n));
    if |value| <= 255 then
      Ok([TAG_SMALL_BIG_EXT, |value|, sign] + value)
    else if |value| < U32_LIMIT then
      Ok([TAG_LARGE_BIG_EXT] + PackU32(|value|) + [sign] + value)
    else
      Err(OutputUint32Overflow)
  }

  /** `_long_to_binary` and `_integer_to_binary`. */
  function EncodeInteger(n: int): Result<seq<byte>> {
    if 0 <= n <= 255 then Ok([TAG_SMALL_INTEGER_EXT, n])
    else if -0x8000_0000 <= n <= 0x7fff_ffff then Ok([TAG_INTEGER_EXT] + PackI32(n))
    else EncodeBignum(n)
  }

  /** `_bignum_to_binary` as the source runs it: digits are split off until none is left. */
  method BignumToBinary(term: int) returns (r: Result<seq<byte>>)
    ensures r == EncodeBignum(term)
  {
    var bignum: nat := if term < 0 then -term else term;
    var sign: byte := if term < 0 then 1 else 0;
    var value: seq<byte> := [];
    while bignum > 0
      invariant value + Digits(bignum) == Digits(Magnitude(term))
    {
      value := value + [bignum % 256];
      bignum := bignum / 256;
    }
    assert value == Digits(Magnitude(term));
    var length := |value|;
    if length <= 255 {
      r := Ok([TAG_SMALL_BIG_EXT, length, sign] + value);
    } else if length <= 4294967295 {
      r := Ok([TAG_LARGE_BIG_EXT] + PackU32(length) + [sign] + value);
    } else {
      r := Err(OutputUint32Overflow);
    }
  }

  /**
   The digit loop of the two bignum branches of `_binary_to_term`: i is the index of
   the sign byte, j the digit count. Every index is checked, the highest one first.
   */
  method BignumFromDigits(data: seq<byte>, i: nat, j: nat) returns (r: Result<nat>)
    ensures r == if j == 0 then Ok(0)
                 else if i + j < |data| then Ok(Value(data[i + 1..i + 1 + j]))
                 else Err(MissingData)
  {
    var bignum: nat := 0;
    var bignumIndex := 0;
    while bignumIndex < j
      invariant 0 <= bignumIndex <= j
      invariant bignumIndex > 0 ==> i + j < |data|
      invariant i + j < |data| ==> bignum == Value(data[i + 1 + j - bignumIndex..i + 1 + j])
      invariant bignumIndex == 0 ==> bignum == 0
    {
      if |data| <= i + j - bignumIndex {
        return Err(MissingData);
      }
      var digit := data[i + j - bignumIndex];
      ghost var low := data[i + j - bignumIndex..i + 1 + j];
      assert low[1..] == data[i + 1 + j - bignumIndex..i + 1 + j];
      bignum := bignum * 256 + digit as int;
      bignumIndex := bignumIndex + 1;
    }
    r := Ok(bignum);
  }

  /** The in-place reversal of Go's `bignumToBinary`. */
  method ReverseInPlace(value: array<byte>)
    modifies value
    ensures value[..] == Reversed(old(value[..]))
  {
    var length := value.Length;
    var half := length / 2;
    var iLast := length - 1;
    for i := 0 to half
      invariant forall k :: 0 <= k < i ==> value[k] == old(value[iLast - k]) && value[iLast - k] == old(value[k])
      invariant forall k :: i <= k <= iLast - i ==> value[k] == old(value[k])
    {
      var j := iLast - i;
      value[i], value[j] := value[j], value[i];
    }
  }

  /** Go's `bignumToBinary` writes the bytes that `_bignum_to_binary` returns. */
  method GoBignumToBinary(term: int) returns (r: Result<seq<byte>>)
    ensures r == EncodeBignum(term)
  {
    var sign: byte := if term < 0 then 1 else 0;
    var bytes := BigEndian(Magnitude(term));
    var value := new byte[|bytes|](k requires 0 <= k < |bytes| => bytes[k]);
    assert value[..] == bytes;
    var header: seq<byte>;
    if value.Length <= 255 {
      header := [TAG_SMALL_BIG_EXT, value.Length];
    } else if value.Length <= 4294967295 {
      header := [TAG_LARGE_BIG_EXT] + PackU32(value.Length);
    } else {
      BigEndianIsReversedDigits(Magnitude(term));
      return Err(OutputUint32Overflow);
    }
    ReverseInPlace(value);
    BigEndianIsReversedDigits(Magnitude(term));
    assert value.Length <= 255 ==> header + [sign] == [TAG_SMALL_BIG_EXT, value.Length, sign];
    r := Ok(header + [sign] + value[..]);
  }
}
