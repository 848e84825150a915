/** Writing a well-formed term and reading it back yields its normal form. */
module RoundTrip {
  import opened Prelude
  import opened ErlangTags
  import opened ErlangTerms
  import opened ErlangEncoder
  import opened ErlangDecoder
  import opened NormalForm
  import opened DecoderLaws
  import opened FunctionPayloads
  import Integers

  function PackUint(w: nat, n: nat): (s: seq<byte>)
    requires (w == 1 && n < 256) || (w == 2 && n < U16_LIMIT) || (w == 4 && n < U32_LIMIT)
    ensures |s| == w && Uint(s) == n
  {
    if w == 1 then [n]
    else if w == 2 then (UnpackPack16(n); PackU16(n))
    else (UnpackPack32(n); PackU32(n))
  }

  // ---------- Leaves

  /** A length field and its bytes, behind the bytes pre, are read back. */
  lemma BlockOf(pre: seq<byte>, w: nat, s: seq<byte>)
    requires (w == 1 && |s| < 256) || (w == 2 && |s| < U16_LIMIT) || (w == 4 && |s| < U32_LIMIT)
    ensures Block(Exact, w, |pre|, pre + PackUint(w, |s|) + s) == Ok((|pre| + w + |s|, s))
  {
    var e := pre + PackUint(w, |s|) + s;
    assert e[|pre|..|pre| + w] == PackUint(w, |s|);
    assert e[|pre| + w..] == s;
  }

  lemma NodeRoundTrip(a: AtomValue)
    requires WellFormedAtom(a) && EncodeAtom(a).Ok?
    ensures var e := EncodeAtom(a).value; DecodeNode(Exact, 0, e) == Ok((|e|, a))
    ensures var e := EncodeAtom(a).value; |e| >= 2 && (a.CacheRef? <==> e[0] == TAG_ATOM_CACHE_REF)
    ensures !a.CacheRef? ==>
              var e := EncodeAtom(a).value; AtomWidth(e[0]) > 0 && DecodeName(Exact, e[0], 1, e) == Ok((|e|, a))
  {
    hide Block;
    var e := EncodeAtom(a).value;
    if !a.CacheRef? {
      var name := if a.Utf8? then a.text else a.name;
      BlockOf([e[0]], AtomWidth(e[0]), name);
      assert e == [e[0]] + PackUint(AtomWidth(e[0]), |name|) + name;
    }
  }

  lemma AtomRoundTrip(a: AtomValue)
    requires WellFormedAtom(a) && EncodeAtom(a).Ok?
    ensures var e := EncodeAtom(a).value; Decode(STRICT, 0, e) == Ok((|e|, Norm(Atom(a))))
  {
    hide Block, Same;
    NodeRoundTrip(a);
  }

  lemma StringRoundTrip(s: seq<byte>)
    requires 0 < |s| < U16_LIMIT
    ensures var e := [TAG_STRING_EXT] + PackU16(|s|) + s; Decode(STRICT, 0, e) == Ok((|e|, ByteString(s)))
  {
    hide Block;
    BlockOf([TAG_STRING_EXT], 2, s);
  }

  lemma FloatRoundTrip(bits: seq<byte>)
    requires |bits| == 8
    ensures Decode(STRICT, 0, [TAG_NEW_FLOAT_EXT] + bits) == Ok((9, Float(bits)))
  {
    assert ([TAG_NEW_FLOAT_EXT] + bits)[1..9] == bits;
  }

  lemma BinaryRoundTrip(bytes: seq<byte>, lastBits: int)
    requires EncodeBinary(bytes, lastBits).Ok?
    ensures var e := EncodeBinary(bytes, lastBits).value; Decode(STRICT, 0, e) == Ok((|e|, Binary(bytes, lastBits)))
  {
    hide Block;
    if lastBits == 8 {
      BlockOf([TAG_BINARY_EXT], 4, bytes);
    } else {
      var e := EncodeBinary(bytes, lastBits).value;
      UnpackPack32(|bytes|);
      assert e[1..5] == PackU32(|bytes|);
      assert e[5] == lastBits;
      assert e[6..6 + |bytes|] == bytes;
    }
  }

  lemma WordRoundTrip(n: int)
    requires -0x8000_0000 <= n < 0x8000_0000
    ensures Decode(STRICT, 0, [TAG_INTEGER_EXT] + PackI32(n)) == Ok((5, Integer(n)))
  {
    hide PackI32, I32;
    var word := PackI32(n);
    var e := [TAG_INTEGER_EXT] + word;
    UnpackPackSigned(n);
    assert e[1..5] == word;
  }

  /** Digit count of w bytes, sign and digits are read back as the number they stand for. */
  lemma BignumParts(tag: byte, w: nat, n: int, digits: seq<byte>)
    requires (tag == TAG_SMALL_BIG_EXT && w == 1 && |digits| < 256)
             || (tag == TAG_LARGE_BIG_EXT && w == 4 && |digits| < U32_LIMIT)
    requires Integers.Value(digits) == Integers.Magnitude(n)
    ensures var e := [tag] + PackUint(w, |digits|) + [if n < 0 then 1 else 0] + digits;
            Decode(STRICT, 0, e) == Ok((|e|, Integer(n)))
  {
    hide Integers.Value, PackUint;
    var sign: byte := if n < 0 then 1 else 0;
    var pre := [tag] + PackUint(w, |digits|);
    var e := pre + [sign] + digits;
    assert e[1..1 + w] == PackUint(w, |digits|);
    assert e[1 + w] == sign;
    assert e[2 + w..2 + w + |digits|] == digits;
  }

  lemma IntegerRoundTrip(n: int)
    requires Integers.EncodeInteger(n).Ok?
    ensures var e := Integers.EncodeInteger(n).value; Decode(STRICT, 0, e) == Ok((|e|, Integer(n)))
  {
    hide Integers.Digits, Integers.Value;
    if 0 <= n <= 255 {
    } else if -0x8000_0000 <= n <= 0x7fff_ffff {
      hide Decode;
      WordRoundTrip(n);
    } else {
      hide Decode;
      var digits := Integers.Digits(Integers.Magnitude(n));
      Integers.ValueOfDigits(Integers.Magnitude(n));
      var sign: byte := if n < 0 then 1 else 0;
      if |digits| <= 255 {
        BignumParts(TAG_SMALL_BIG_EXT, 1, n, digits);
        assert [TAG_SMALL_BIG_EXT, |digits|, sign] + digits
            == [TAG_SMALL_BIG_EXT] + PackUint(1, |digits|) + [sign] + digits;
      } else {
        BignumParts(TAG_LARGE_BIG_EXT, 4, n, digits);
      }
    }
  }

  /** What stands behind the encoded node of a pid, a port or a reference. */
  lemma NodeThen(pre: seq<byte>, node: AtomValue, post: seq<byte>)
    requires WellFormedAtom(node) && EncodeAtom(node).Ok?
    ensures var n := EncodeAtom(node).value;
            DecodeNode(Exact, |pre|, pre + n + post) == Ok((|pre| + |n|, node))
  {
    hide DecodeNode, EncodeAtom, Same;
    var n := EncodeAtom(node).value;
    var e := pre + n + post;
    NodeRoundTrip(node);
    forall x | 0 <= x < |n|
      ensures n[x] == e[x + |pre|]
    {
    }
    SameIntro(n, 0, |n|, e, |pre|);
    NodeTransport(Exact, 0, |n|, node, n, |pre|, e);
  }

  lemma TakeOf(pre: seq<byte>, s: seq<byte>, post: seq<byte>)
    ensures Take(Exact, pre + s + post, |pre|, |s|) == Ok(s)
  {
    assert (pre + s + post)[|pre|..|pre| + |s|] == s;
  }

  lemma PidBodyRoundTrip(node: AtomValue, id: seq<byte>, serial: seq<byte>, creation: seq<byte>)
    requires WellFormedAtom(node) && |id| == 4 && |serial| == 4 && EncodePid(node, id, serial, creation).Ok?
    ensures var e := EncodePid(node, id, serial, creation).value;
            DecodePidBody(Exact, e[0], 1, e) == Ok((|e|, Pid(node, id, serial, creation)))
  {
    hide DecodeNode, EncodeAtom, Take, Slice;
    var e := EncodePid(node, id, serial, creation).value;
    var n := EncodeAtom(node).value;
    var pre := [e[0]] + n;
    assert e == [e[0]] + n + (id + serial + creation);
    NodeThen([e[0]], node, id + serial + creation);
    assert e == pre + id + (serial + creation);
    TakeOf(pre, id, serial + creation);
    TakeOf(pre + id, serial, creation);
    assert e == pre + id + serial + creation + [];
    TakeOf(pre + id + serial, creation, []);
  }

  lemma PidRoundTrip(node: AtomValue, id: seq<byte>, serial: seq<byte>, creation: seq<byte>)
    requires WellFormedAtom(node) && |id| == 4 && |serial| == 4 && EncodePid(node, id, serial, creation).Ok?
    ensures var e := EncodePid(node, id, serial, creation).value;
            Decode(STRICT, 0, e) == Ok((|e|, Pid(node, id, serial, creation)))
  {
    hide DecodePidBody, EncodeAtom;
    PidBodyRoundTrip(node, id, serial, creation);
  }

  lemma PortRoundTrip(node: AtomValue, id: seq<byte>, creation: seq<byte>)
    requires WellFormedAtom(node) && |id| == 4 && EncodePort(node, id, creation).Ok?
    ensures var e := EncodePort(node, id, creation).value;
            Decode(STRICT, 0, e) == Ok((|e|, Port(node, id, creation)))
  {
    hide DecodeNode, EncodeAtom, Take, Slice;
    var e := EncodePort(node, id, creation).value;
    var n := EncodeAtom(node).value;
    NodeThen([e[0]], node, id + creation);
    assert e == [e[0]] + n + (id + creation);
    TakeOf([e[0]] + n, id, creation);
    TakeOf([e[0]] + n + id, creation, []);
    assert e == [e[0]] + n + id + creation + [];
  }

  lemma ReferenceRoundTrip(node: AtomValue, id: seq<byte>, creation: seq<byte>)
    requires WellFormedAtom(node) && 0 < |id| && |id| % 4 == 0 && EncodeReference(node, id, creation).Ok?
    ensures var e := EncodeReference(node, id, creation).value;
            Decode(STRICT, 0, e) == Ok((|e|, Reference(node, id, creation)))
  {
    hide DecodeNode, EncodeAtom, Take, Slice, PackU16, U16;
    var e := EncodeReference(node, id, creation).value;
    var n := EncodeAtom(node).value;
    var words := |id| / 4;
    var pre := [e[0]] + PackU16(words);
    UnpackPack16(words);
    assert e[1..3] == PackU16(words);
    NodeThen(pre, node, creation + id);
    assert e == pre + n + (creation + id);
    TakeOf(pre + n, creation, id);
    TakeOf(pre + n + creation, id, []);
    assert e == pre + n + creation + id + [];
  }

  // ---------- Composite terms

  /** The joined encodings of terms, standing anywhere, are read back element by element. */
  lemma {:induction false} SequenceRoundTrip(ts: seq<Term>, i: nat, data: seq<byte>)
    requires WellFormedAll(ts) && EncodeAll(ts).Ok?
    requires Same(EncodeAll(ts).value, 0, |EncodeAll(ts).value|, data, i)
    ensures DecodeSequence(STRICT, i, |ts|, data) == Ok((i + |EncodeAll(ts).value|, NormAll(ts)))
    decreases ts, 0
  {
    hide Decode, Encode, Same, Norm, WellFormed;
    if ts != [] {
      var first, rest := Encode(ts[0]).value, EncodeAll(ts[1..]).value;
      var b := first + rest;
      TermRoundTrip(ts[0]);
      PartsOf(first, rest, i, data);
      Transport(STRICT, 0, |first|, Norm(ts[0]), first, i, data);
      SequenceRoundTrip(ts[1..], i + |first|, data);
    }
  }

  lemma {:induction false} PairsRoundTrip(done: seq<Entry>, ps: seq<Entry>, i: nat, data: seq<byte>)
    requires WellFormedPairs(ps) && EncodePairs(ps).Ok?
    requires DistinctKeys(done + NormPairs(ps))
    requires Same(EncodePairs(ps).value, 0, |EncodePairs(ps).value|, data, i)
    ensures DecodePairs(STRICT, i, |ps|, data, done) == Ok((i + |EncodePairs(ps).value|, done + NormPairs(ps)))
    decreases ps, 0
  {
    hide Decode, Encode, Same, Norm, WellFormed, Store, SameKey, Hashable, StoredKey;
    if ps == [] {
      assert done + [] == done;
    } else {
      var p := ps[0];
      var key, value, rest := Encode(p.key).value, Encode(p.value).value, EncodePairs(ps[1..]).value;
      EntryRoundTrip(p);
      PartsOf(key + value, rest, i, data);
      PartsOf(key, value, i, data);
      Transport(STRICT, 0, |key|, Norm(p.key), key, i, data);
      Transport(STRICT, 0, |value|, Norm(p.value), value, i + |key|, data);
      assert done + NormPairs(ps) == done + [NormEntry(p)] + NormPairs(ps[1..]);
      StoreFresh(done, Norm(p.key), Norm(p.value), NormPairs(ps[1..]));
      PairsRoundTrip(done + [NormEntry(p)], ps[1..], i + |key + value|, data);
    }
  }

  lemma {:induction false} EntryRoundTrip(p: Entry)
    requires WellFormedEntry(p) && EncodeEntry(p).Ok?
    ensures var e := Encode(p.key).value; Decode(STRICT, 0, e) == Ok((|e|, Norm(p.key)))
    ensures var e := Encode(p.value).value; Decode(STRICT, 0, e) == Ok((|e|, Norm(p.value)))
    decreases p, 0
  {
    hide Decode, Encode, Norm, WellFormed;
    TermRoundTrip(p.key);
    TermRoundTrip(p.value);
  }

  /** A key unlike all before it is added at the end. */
  lemma StoreFresh(done: seq<Entry>, key: Term, value: Term, later: seq<Entry>)
    requires DistinctKeys(done + [Entry(StoredKey(key), value)] + later)
    ensures Store(done, key, value) == Ok(done + [Entry(StoredKey(key), value)])
  {
    hide SameKey, Hashable, StoredKey;
    var all := done + [Entry(StoredKey(key), value)] + later;
    assert all[|done|].key == StoredKey(key);
    forall k | 0 <= k < |done|
      ensures !SameKey(done[k].key, StoredKey(key))
    {
      assert all[k] == done[k];
    }
  }

  lemma {:induction false} TupleRoundTrip(es: seq<Term>)
    requires WellFormedAll(es) && Encode(Tuple(es)).Ok?
    ensures var e := Encode(Tuple(es)).value; Decode(STRICT, 0, e) == Ok((|e|, Tuple(NormAll(es))))
    decreases es, 1
  {
    hide DecodeSequence, EncodeAll, NormAll, Same, DecodeLeaf;
    var e, body := Encode(Tuple(es)).value, EncodeAll(es).value;
    if |es| <= 255 {
      var pre := [TAG_SMALL_TUPLE_EXT, |es|];
      Embedded(pre, body, []);
      assert e == pre + body + [];
      assert e[1..2] == [|es|];
      SequenceRoundTrip(es, 2, e);
    } else {
      var pre := [TAG_LARGE_TUPLE_EXT] + PackU32(|es|);
      Embedded(pre, body, []);
      assert e == pre + body + [];
      UnpackPack32(|es|);
      assert e[1..5] == PackU32(|es|);
      SequenceRoundTrip(es, 5, e);
    }
  }

  /** LIST_EXT with elements already known to be read back and a tail behind them. */
  lemma ListParts(es: seq<Term>, body: seq<byte>, tail: seq<byte>, t: Term)
    requires |es| < U32_LIMIT && Decode(STRICT, 0, tail) == Ok((|tail|, t))
    requires var e := [TAG_LIST_EXT] + PackU32(|es|) + body + tail;
             DecodeSequence(STRICT, 5, |es|, e) == Ok((5 + |body|, es))
    ensures var e := [TAG_LIST_EXT] + PackU32(|es|) + body + tail;
            Decode(STRICT, 0, e) == Ok((|e|, ListTerm(es, t)))
  {
    hide DecodeSequence, Same, DecodeLeaf, ListTerm;
    var pre := [TAG_LIST_EXT] + PackU32(|es|);
    var e := pre + body + tail;
    UnpackPack32(|es|);
    assert e[1..5] == PackU32(|es|);
    Embedded(pre + body, tail, []);
    assert e == pre + body + tail + [];
    Transport(STRICT, 0, |tail|, t, tail, 5 + |body|, e);
  }

  lemma NilRoundTrip()
    ensures Decode(STRICT, 0, [TAG_NIL_EXT]) == Ok((1, List([])))
  {
  }

  lemma {:induction false} NormAllAppend(a: seq<Term>, b: seq<Term>)
    ensures NormAll(a + b) == NormAll(a) + NormAll(b)
  {
    if a == [] {
      assert a + b == b;
    } else {
      assert (a + b)[1..] == a[1..] + b;
      NormAllAppend(a[1..], b);
    }
  }

  lemma {:induction false} WellFormedAt(ts: seq<Term>, k: nat)
    requires WellFormedAll(ts) && k < |ts|
    ensures WellFormed(ts[k]) && WellFormedAll(ts[..k])
  {
    if k == 0 {
      assert ts[..0] == [];
    } else {
      WellFormedAt(ts[1..], k - 1);
      assert ts[..k][1..] == ts[1..][..k - 1];
    }
  }

  lemma {:induction false} ProperListRoundTrip(es: seq<Term>, tail: seq<byte>, t: Term)
    requires WellFormedAll(es) && EncodeAll(es).Ok? && |es| < U32_LIMIT
    requires Decode(STRICT, 0, tail) == Ok((|tail|, t))
    ensures var e := [TAG_LIST_EXT] + PackU32(|es|) + EncodeAll(es).value + tail;
            Decode(STRICT, 0, e) == Ok((|e|, ListTerm(NormAll(es), t)))
    decreases es, 1
  {
    hide Decode, DecodeSequence, EncodeAll, NormAll, Same, ListTerm;
    var pre, body := [TAG_LIST_EXT] + PackU32(|es|), EncodeAll(es).value;
    Embedded(pre, body, tail);
    SequenceRoundTrip(es, 5, pre + body + tail);
    ListParts(NormAll(es), body, tail, t);
  }

  lemma {:induction false} ListRoundTrip(es: seq<Term>, improper: bool)
    requires WellFormedAll(es) && EncodeList(es, improper).Ok?
    ensures var e := EncodeList(es, improper).value;
            Decode(STRICT, 0, e) == Ok((|e|, Norm(OtpList(es, improper))))
    decreases es, 2
  {
    hide Decode, Encode, EncodeAll, NormAll, Same, WellFormed;
    NilRoundTrip();
    if es == [] {
      assert NormAll([]) == [];
    } else if improper {
      ImproperListRoundTrip(es);
    } else {
      ProperListRoundTrip(es, [TAG_NIL_EXT], List([]));
    }
  }

  lemma {:induction false} ImproperListRoundTrip(es: seq<Term>)
    requires es != [] && WellFormedAll(es) && EncodeList(es, true).Ok?
    ensures var e := EncodeList(es, true).value; Decode(STRICT, 0, e) == Ok((|e|, NormImproper(NormAll(es))))
    decreases es, 1
  {
    hide Decode, Encode, EncodeAll, Same, ListTerm, WellFormed, Norm;
    var front, last := es[..|es| - 1], es[|es| - 1];
    assert es == front + [last];
    EncodeAllSplit(front, [last]);
    EncodeAllOne(last);
    WellFormedAt(es, |es| - 1);
    TermRoundTrip(last);
    NormAllAppend(front, [last]);
    assert NormAll([last]) == [Norm(last)];
    assert NormAll(es)[..|es| - 1] == NormAll(front);
    ProperListRoundTrip(front, Encode(last).value, Norm(last));
    var header := [TAG_LIST_EXT] + PackU32(|front|);
    assert header + (EncodeAll(front).value + Encode(last).value)
        == header + EncodeAll(front).value + Encode(last).value;
  }

  lemma {:induction false} ByteElementsRoundTrip(s: seq<byte>, i: nat, data: seq<byte>)
    requires Same(EncodeByteElements(s), 0, |EncodeByteElements(s)|, data, i)
    ensures DecodeSequence(STRICT, i, |s|, data) == Ok((i + |EncodeByteElements(s)|, ByteTerms(s)))
  {
    hide Decode, Same;
    if s != [] {
      var first: seq<byte> := [TAG_SMALL_INTEGER_EXT, s[0]];
      PartsOf(first, EncodeByteElements(s[1..]), i, data);
      IntegerRoundTrip(s[0]);
      Transport(STRICT, 0, 2, Integer(s[0]), first, i, data);
      ByteElementsRoundTrip(s[1..], i + 2, data);
    }
  }

  lemma EncodedStringRoundTrip(s: seq<byte>)
    requires EncodeString(s).Ok?
    ensures var e := EncodeString(s).value; Decode(STRICT, 0, e) == Ok((|e|, NormString(s)))
  {
    hide Decode, DecodeSequence, EncodeByteElements, Same;
    NilRoundTrip();
    if 0 < |s| <= 65535 {
      StringRoundTrip(s);
    } else if |s| > 0 {
      var pre, body := [TAG_LIST_EXT] + PackU32(|s|), EncodeByteElements(s);
      Embedded(pre, body, [TAG_NIL_EXT]);
      ByteElementsRoundTrip(s, 5, pre + body + [TAG_NIL_EXT]);
      ListParts(ByteTerms(s), body, [TAG_NIL_EXT], List([]));
    }
  }

  lemma {:induction false} DictRoundTrip(ps: seq<Entry>)
    requires WellFormedPairs(ps) && DistinctKeys(NormPairs(ps)) && Encode(Dict(ps)).Ok?
    ensures var e := Encode(Dict(ps)).value; Decode(STRICT, 0, e) == Ok((|e|, Dict(NormPairs(ps))))
    decreases ps, 1
  {
    hide DecodePairs, EncodePairs, NormPairs, Same, DecodeLeaf, DistinctKeys;
    var pre, body := [TAG_MAP_EXT] + PackU32(|ps|), EncodePairs(ps).value;
    var e := pre + body;
    Embedded(pre, body, []);
    assert e == pre + body + [];
    UnpackPack32(|ps|);
    assert e[1..5] == PackU32(|ps|);
    assert [] + NormPairs(ps) == NormPairs(ps);
    PairsRoundTrip([], ps, 5, e);
  }

  // ---------- Main results

  /** Every well-formed term that can be written is read back as its normal form, in the strictest reading. */
  lemma {:induction false} TermRoundTrip(t: Term)
    requires WellFormed(t) && Encode(t).Ok?
    ensures var e := Encode(t).value; Decode(STRICT, 0, e) == Ok((|e|, Norm(t)))
    decreases t, 2
  {
    hide Decode, EncodeAll, EncodePairs, NormAll, NormPairs, DistinctKeys, WellFormedAll, WellFormedPairs,
         Integers.EncodeInteger, EncodeString, NormString;
    match t
    case ByteString(s) => EncodedStringRoundTrip(s);
    case Text(s) => EncodedStringRoundTrip(s);
    case List(es) => ListRoundTrip(es, false);
    case Tuple(es) => TupleRoundTrip(es);
    case Boolean(flag) => AtomRoundTrip(Latin1(if flag then TRUE_NAME else FALSE_NAME));
    case Integer(n) => IntegerRoundTrip(n);
    case Float(bits) => FloatRoundTrip(bits);
    case Dict(ps) => DictRoundTrip(ps);
    case Undefined => AtomRoundTrip(Latin1(UNDEFINED_NAME));
    case Atom(a) => AtomRoundTrip(a);
    case OtpList(es, improper) => ListRoundTrip(es, improper);
    case Binary(bytes, lastBits) => BinaryRoundTrip(bytes, lastBits);
    case Function(tag, bytes) => FunctionReadsBackIff(tag, bytes);
    case Reference(node, id, creation) => ReferenceRoundTrip(node, id, creation);
    case Port(node, id, creation) => PortRoundTrip(node, id, creation);
    case Pid(node, id, serial, creation) => PidRoundTrip(node, id, serial, creation);
  }
}
