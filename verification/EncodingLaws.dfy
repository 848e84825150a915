/** What `term_to_binary` and `binary_to_term` promise together. */
module EncodingLaws {
  import opened Prelude
  import opened ErlangTags
  import opened ErlangTerms
  import opened ErlangEncoder
  import opened ErlangDecoder
  import opened NormalForm
  import opened DecoderLaws
  import opened Truncation
  import opened BoundsChecking
  import opened RoundTrip
  import opened Reencoding

  // ---------- One term among other bytes

  /**
   Reading at the end of any p gives the normal form and stops exactly behind the encoding,
   whatever follows and whichever way of reading is used.
   */
  lemma ReadsBackAnywhere(env: Env, p: seq<byte>, t: Term, s: seq<byte>)
    requires WellFormed(t) && Encode(t).Ok?
    ensures var e := Encode(t).value; Decode(env, |p|, p + e + s) == Ok((|p| + |e|, Norm(t)))
  {
    hide Decode, Encode, Norm, WellFormed, Same;
    var e := Encode(t).value;
    TermRoundTrip(t);
    Embedded(p, e, s);
    Transport(env, 0, |e|, Norm(t), e, |p|, p + e + s);
  }

  /** No encoding is a proper prefix of another, and equal encodings have equal normal forms. */
  lemma PrefixFree(a: Term, b: Term, s: seq<byte>)
    requires WellFormed(a) && WellFormed(b) && Encode(a).Ok? && Encode(b).Ok?
    requires Encode(a).value + s == Encode(b).value
    ensures s == [] && Norm(a) == Norm(b)
  {
    hide Decode, Encode, Norm, WellFormed;
    var ea, eb := Encode(a).value, Encode(b).value;
    ReadsBackAnywhere(STRICT, [], a, s);
    ReadsBackAnywhere(STRICT, [], b, []);
    assert [] + ea + s == eb == [] + eb + [];
  }

  /** For stable terms equal encodings and equal normal forms are the same thing. */
  lemma SameBytesIffSameNormalForm(a: Term, b: Term)
    requires WellFormed(a) && WellFormed(b) && Encode(a).Ok? && Encode(b).Ok?
    requires Stable(a) && Stable(b)
    ensures Encode(a) == Encode(b) <==> Norm(a) == Norm(b)
  {
    hide Encode, Norm, WellFormed, Stable;
    Again(a);
    Again(b);
    if Encode(a) == Encode(b) {
      assert Encode(a).value + [] == Encode(b).value;
      PrefixFree(a, b, []);
    }
  }

  /** A concatenation of encodings determines the normal forms it was made from, and their number. */
  lemma {:induction false} UniquelyDecodable(xs: seq<Term>, ys: seq<Term>)
    requires WellFormedAll(xs) && WellFormedAll(ys) && EncodeAll(xs).Ok? && EncodeAll(ys).Ok?
    requires EncodeAll(xs).value == EncodeAll(ys).value
    ensures NormAll(xs) == NormAll(ys)
  {
    hide Decode, Encode, Norm, WellFormed;
    if xs == [] || ys == [] {
      if xs != [] { EncodeNonEmpty(xs[0]); }
      if ys != [] { EncodeNonEmpty(ys[0]); }
    } else {
      var x, xrest := Encode(xs[0]).value, EncodeAll(xs[1..]).value;
      var y, yrest := Encode(ys[0]).value, EncodeAll(ys[1..]).value;
      ReadsBackAnywhere(STRICT, [], xs[0], xrest);
      ReadsBackAnywhere(STRICT, [], ys[0], yrest);
      assert [] + x + xrest == x + xrest == y + yrest == [] + y + yrest;
      assert xrest == (x + xrest)[|x|..] == yrest;
      UniquelyDecodable(xs[1..], ys[1..]);
    }
  }

  // ---------- binary_to_term and term_to_binary

  /** The compressed argument: False, True or a level. */
  datatype Compression = Off | Default | Level(n: int)

  /** zlib.compress(data, level) */
  type Deflate = (seq<byte>, int) -> seq<byte>

  /** `term_to_binary` */
  function TermToBinary(deflate: Deflate, t: Term, compressed: Compression): Result<seq<byte>> {
    var plain :- Encode(t);
    if compressed.Off? then Ok([TAG_VERSION] + plain)
    else
      var level := if compressed.Default? then 6 else compressed.n;
      if level < 0 || 9 < level then Err(InputCompressedLevel)
      else if |plain| >= U32_LIMIT then Err(OutputUint32Overflow)
      else Ok([TAG_VERSION, TAG_COMPRESSED_ZLIB] + PackU32(|plain|) + deflate(plain, level))
  }

  lemma PlainRoundTrip(env: Env, t: Term)
    requires WellFormed(t) && Encode(t).Ok?
    ensures BinaryToTerm(env, [TAG_VERSION] + Encode(t).value) == Ok(Norm(t))
  {
    hide Decode, Encode, Norm, WellFormed;
    var e := Encode(t).value;
    EncodeNonEmpty(t);
    ReadsBackAnywhere(env, [TAG_VERSION], t, []);
    assert [TAG_VERSION] + e + [] == [TAG_VERSION] + e;
  }

  /**
   Whatever is asked for, what `term_to_binary` returns is read back as the normal form,
   given only that inflate undoes deflate.
   */
  lemma TermToBinaryRoundTrip(env: Env, deflate: Deflate, t: Term, compressed: Compression)
    requires WellFormed(t) && TermToBinary(deflate, t, compressed).Ok?
    requires env.depth > 0 && forall s, n :: env.inflate(deflate(s, n)) == Some(s)
    ensures BinaryToTerm(env, TermToBinary(deflate, t, compressed).value) == Ok(Norm(t))
  {
    hide Encode, Norm, WellFormed, DecodeLeaf;
    if compressed.Off? {
      PlainRoundTrip(env, t);
    } else {
      var plain := Encode(t).value;
      var level := if compressed.Default? then 6 else compressed.n;
      EncodeNonEmpty(t);
      CompressedRoundTrip(env, t, deflate(plain, level));
    }
  }

  lemma CompressedRoundTrip(env: Env, t: Term, packed: seq<byte>)
    requires WellFormed(t) && Encode(t).Ok? && |Encode(t).value| < U32_LIMIT
    requires env.depth > 0 && env.inflate(packed) == Some(Encode(t).value)
    ensures var plain := Encode(t).value;
            BinaryToTerm(env, [TAG_VERSION, TAG_COMPRESSED_ZLIB] + PackU32(|plain|) + packed) == Ok(Norm(t))
  {
    hide Encode, Norm, WellFormed, Decode, DecodeCompressed, PackU32, U32;
    var plain := Encode(t).value;
    var data := [TAG_VERSION, TAG_COMPRESSED_ZLIB] + PackU32(|plain|) + packed;
    EncodeNonEmpty(t);
    UnpackPack32(|plain|);
    assert data[2..6] == PackU32(|plain|);
    assert data[6..] == packed;
    ReadsBackAnywhere(env.(depth := env.depth - 1), [], t, []);
    assert [] + plain + [] == plain;
    Decompressed(env, 2, data, plain, Norm(t));
    CompressedTag(env, 1, data);
  }

  lemma CompressedTag(env: Env, i: nat, data: seq<byte>)
    requires i < |data| && data[i] == TAG_COMPRESSED_ZLIB
    ensures Decode(env, i, data) == DecodeCompressed(env, i + 1, data)
  {
    hide DecodeCompressed, DecodeLeaf;
  }

  lemma Decompressed(env: Env, i: nat, data: seq<byte>, plain: seq<byte>, t: Term)
    requires env.depth > 0 && i + 4 <= |data| && U32(data[i..i + 4]) == |plain| > 0
    requires env.inflate(data[i + 4..]) == Some(plain)
    requires Decode(env.(depth := env.depth - 1), 0, plain) == Ok((|plain|, t))
    ensures DecodeCompressed(env, i, data) == Ok((|data|, t))
  {
    hide Decode, U32;
  }

  /** Cut anywhere, an encoding is refused: no truncated message is taken for a whole one. */
  lemma ProperPrefixRefused(env: Env, t: Term, n: nat)
    requires WellFormed(t) && Encode(t).Ok? && n < 1 + |Encode(t).value|
    ensures BinaryToTerm(env, ([TAG_VERSION] + Encode(t).value)[..n]).Err?
  {
    hide Decode, Encode, Norm, WellFormed, Same;
    var e := Encode(t).value;
    var other := ([TAG_VERSION] + e)[..n];
    if n >= 1 {
      TermRoundTrip(t);
      forall x | 0 <= x < n - 1
        ensures e[x] == other[x + 1]
      {
      }
      SameIntro(e, 0, n - 1, other, 1);
      TermFollow(env, 0, |e|, Norm(t), e, n - 1, 1, other);
    }
  }

  /** Nor is anything accepted that goes on behind a term. */
  lemma TrailingBytesRefused(env: Env, t: Term, s: seq<byte>)
    requires WellFormed(t) && Encode(t).Ok? && s != []
    ensures BinaryToTerm(env, [TAG_VERSION] + Encode(t).value + s).Err?
  {
    hide Decode, Encode, Norm, WellFormed;
    EncodeNonEmpty(t);
    ReadsBackAnywhere(env, [TAG_VERSION], t, s);
  }

  /** What is accepted, whatever it is, is a version byte and one term that ends with the data. */
  lemma AcceptedIffOneTerm(env: Env, data: seq<byte>, t: Term)
    ensures BinaryToTerm(env, data) == Ok(t) <==>
            |data| >= 2 && data[0] == 131 && Decode(env, 1, data) == Ok((|data|, t))
  {
    hide Decode;
  }

  /** In a compressed term, likewise, one term fills what is inflated, and its size is the recorded one. */
  lemma CompressedIffOneTerm(env: Env, i: nat, data: seq<byte>, k: nat, t: Term)
    ensures DecodeCompressed(env, i, data) == Ok((k, t)) <==>
            && k == |data| && i + 4 <= |data| && env.depth > 0 && env.inflate(data[i + 4..]).Some?
            && var plain := env.inflate(data[i + 4..]).value;
               && |plain| == U32(data[i..i + 4]) > 0
               && Decode(env.(depth := env.depth - 1), 0, plain) == Ok((|plain|, t))
  {
    hide Decode, U32;
  }

  /** So a compressed message is refused when anything is behind the term inside, or the size is another. */
  lemma CompressedTrailingRefused(env: Env, t: Term, s: seq<byte>, size: nat, packed: seq<byte>)
    requires WellFormed(t) && Encode(t).Ok? && size < U32_LIMIT
    requires env.inflate(packed) == Some(Encode(t).value + s)
    requires s != [] || size != |Encode(t).value|
    ensures BinaryToTerm(env, [TAG_VERSION, TAG_COMPRESSED_ZLIB] + PackU32(size) + packed).Err?
  {
    hide Encode, Norm, WellFormed, Decode, DecodeCompressed, PackU32, U32;
    var plain := Encode(t).value;
    var data := [TAG_VERSION, TAG_COMPRESSED_ZLIB] + PackU32(size) + packed;
    CompressedTag(env, 1, data);
    UnpackPack32(size);
    assert data[2..6] == PackU32(size) && data[6..] == packed;
    assert [] + plain + s == plain + s && (s == [] ==> plain + s == plain);
    if env.depth > 0 {
      ReadsBackAnywhere(env.(depth := env.depth - 1), [], t, s);
    }
    if DecodeCompressed(env, 2, data).Ok? {
      var (k, u) := DecodeCompressed(env, 2, data).value;
      CompressedIffOneTerm(env, 2, data, k, u);
    }
  }

  /** The one final comparison refuses exactly what checking every slice would refuse. */
  lemma FinalCheckIsEnough(env: Env, data: seq<byte>, t: Term)
    ensures BinaryToTerm(env.(bounds := Deferred), data) == Ok(t) <==>
            BinaryToTerm(env.(bounds := Checked), data) == Ok(t)
  {
    hide Decode;
    TermAgree(env, 1, data);
  }
}
