/** Laws of `_binary_to_term` that hold for any input, encoded by this codec or not. */
module DecoderLaws {
  import opened Prelude
  import opened ErlangTags
  import opened ErlangTerms
  import opened ErlangDecoder
  import opened NormalForm
  import Integers

  // ---------- Equal windows of two byte strings

  /** data[i..k] also stands in other, from index j on. */
  predicate Same(data: seq<byte>, i: nat, k: nat, other: seq<byte>, j: nat)
    decreases k - i
  {
    && i <= k <= |data| && j + (k - i) <= |other|
    && (i < k ==> data[i] == other[j] && Same(data, i + 1, k, other, j + 1))
  }

  lemma {:induction false} SameByte(data: seq<byte>, i: nat, k: nat, other: seq<byte>, j: nat, a: nat, c: nat)
    requires Same(data, i, k, other, j) && i <= a < k && c - j == a - i
    ensures ByteAt(other, c) == ByteAt(data, a)
    decreases a - i
  {
    if i < a {
      SameByte(data, i + 1, k, other, j + 1, a, c);
    }
  }

  lemma {:induction false} SameIntro(data: seq<byte>, i: nat, k: nat, other: seq<byte>, j: nat)
    requires i <= k <= |data| && j + (k - i) <= |other|
    requires forall x :: i <= x < k ==> data[x] == other[x - i + j]
    ensures Same(data, i, k, other, j)
    decreases k - i
  {
    if i < k {
      SameIntro(data, i + 1, k, other, j + 1);
    }
  }

  lemma SameSlice(data: seq<byte>, i: nat, k: nat, other: seq<byte>, j: nat, a: nat, b: nat, c: nat)
    requires Same(data, i, k, other, j) && i <= a <= b <= k && c - j == a - i
    ensures c + (b - a) <= |other| && data[a..b] == other[c..c + (b - a)]
  {
    forall x | a <= x < b
      ensures data[x] == other[x - a + c]
    {
      SameByte(data, i, k, other, j, x, x - a + c);
    }
  }

  lemma SameSub(data: seq<byte>, i: nat, k: nat, other: seq<byte>, j: nat, a: nat, b: nat, c: nat)
    requires Same(data, i, k, other, j) && i <= a <= b <= k && c - j == a - i
    ensures Same(data, a, b, other, c)
  {
    forall x | a <= x < b
      ensures data[x] == other[x - a + c]
    {
      SameByte(data, i, k, other, j, x, x - a + c);
    }
    SameIntro(data, a, b, other, c);
  }

  lemma SameBounds(data: seq<byte>, i: nat, k: nat, other: seq<byte>, j: nat)
    requires Same(data, i, k, other, j)
    ensures i <= k <= |data| && j + (k - i) <= |other|
  {
  }

  /** Both parts of a byte string that stands in data at i. */
  lemma PartsOf(a: seq<byte>, b: seq<byte>, i: nat, data: seq<byte>)
    requires Same(a + b, 0, |a + b|, data, i)
    ensures Same(a, 0, |a|, data, i) && Same(b, 0, |b|, data, i + |a|)
  {
    hide Same;
    var ab := a + b;
    SameBounds(ab, 0, |ab|, data, i);
    SameSlice(ab, 0, |ab|, data, i, 0, |ab|, i);
    assert ab[0..|ab|] == ab;
    forall x | 0 <= x < |a|
      ensures a[x] == data[x + i]
    {
      assert ab[x] == a[x] && data[i..i + |ab|][x] == data[x + i];
    }
    SameIntro(a, 0, |a|, data, i);
    forall x | 0 <= x < |b|
      ensures b[x] == data[x + (i + |a|)]
    {
      assert ab[x + |a|] == b[x] && data[i..i + |ab|][x + |a|] == data[x + (i + |a|)];
    }
    SameIntro(b, 0, |b|, data, i + |a|);
  }

  /** A byte string stands in itself where it was put. */
  lemma Embedded(pre: seq<byte>, s: seq<byte>, post: seq<byte>)
    ensures Same(s, 0, |s|, pre + s + post, |pre|)
  {
    hide Same;
    var e := pre + s + post;
    forall x | 0 <= x < |s|
      ensures s[x] == e[x + |pre|]
    {
    }
    SameIntro(s, 0, |s|, e, |pre|);
  }

  lemma SameUint(w: nat, data: seq<byte>, i: nat, k: nat, other: seq<byte>, j: nat, a: nat, c: nat)
    requires w == 1 || w == 2 || w == 4
    requires Same(data, i, k, other, j) && i <= a && a + w <= k && c - j == a - i
    ensures UintAt(w, other, c) == UintAt(w, data, a)
    ensures w == 4 ==> I32At(other, c) == I32At(data, a)
  {
    SameSlice(data, i, k, other, j, a, a + w, c);
  }

  lemma SameTake(b: Bounds, data: seq<byte>, i: nat, k: nat, other: seq<byte>, j: nat, a: nat, c: nat, n: nat)
    requires Same(data, i, k, other, j) && i <= a && a + n <= k && c - j == a - i
    ensures Take(b, other, c, n) == Take(Exact, data, a, n)
  {
    SameSlice(data, i, k, other, j, a, a + n, c);
  }

  // ---------- Transport: a strict reading depends on nothing but the bytes it consumes

  lemma BlockTransport(b: Bounds, w: nat, i: nat, k: nat, s: seq<byte>, data: seq<byte>, j: nat, other: seq<byte>)
    requires w == 1 || w == 2 || w == 4
    requires Block(Exact, w, i, data) == Ok((k, s)) && Same(data, i, k, other, j)
    ensures Block(b, w, j, other) == Ok((j + (k - i), s))
  {
    hide Same, UintAt, Take, Slice;
    var n := UintAt(w, data, i).value;
    SameUint(w, data, i, k, other, j, i, j);
    SameTake(b, data, i, k, other, j, i + w, j + w, n);
  }

  lemma NameTransport(b: Bounds, tag: byte, i: nat, k: nat, node: AtomValue, data: seq<byte>, j: nat, other: seq<byte>)
    requires AtomWidth(tag) > 0
    requires DecodeName(Exact, tag, i, data) == Ok((k, node)) && Same(data, i, k, other, j)
    ensures DecodeName(b, tag, j, other) == Ok((j + (k - i), node))
  {
    hide Same, Block, ValidUtf8;
    var w := AtomWidth(tag);
    BlockTransport(b, w, i, k, Block(Exact, w, i, data).value.1, data, j, other);
  }

  lemma NodeTransport(b: Bounds, i: nat, k: nat, node: AtomValue, data: seq<byte>, j: nat, other: seq<byte>)
    requires DecodeNode(Exact, i, data) == Ok((k, node)) && Same(data, i, k, other, j)
    ensures DecodeNode(b, j, other) == Ok((j + (k - i), node))
  {
    hide Same, DecodeName;
    SameByte(data, i, k, other, j, i, j);
    SameByte(data, i, k, other, j, i + 1, j + 1);
    if data[i] != TAG_ATOM_CACHE_REF {
      SameSub(data, i, k, other, j, i + 1, k, j + 1);
      NameTransport(b, data[i], i + 1, k, node, data, j + 1, other);
    }
  }

  lemma PidTransport(b: Bounds, tag: byte, i: nat, k: nat, t: Term, data: seq<byte>, j: nat, other: seq<byte>)
    requires DecodePidBody(Exact, tag, i, data) == Ok((k, t)) && Same(data, i, k, other, j)
    ensures DecodePidBody(b, tag, j, other) == Ok((j + (k - i), t))
  {
    hide DecodeNode, Take, Slice, Same;
    var (n, node) := DecodeNode(Exact, i, data).value;
    var m := j + (n - i);
    var width := if tag == TAG_NEW_PID_EXT then 4 else 1;
    SameSub(data, i, k, other, j, i, n, j);
    NodeTransport(b, i, n, node, data, j, other);
    SameTake(b, data, i, k, other, j, n, m, 4);
    SameTake(b, data, i, k, other, j, n + 4, m + 4, 4);
    SameTake(b, data, i, k, other, j, n + 8, m + 8, width);
  }

  lemma PortTransport(b: Bounds, tag: byte, i: nat, k: nat, t: Term, data: seq<byte>, j: nat, other: seq<byte>)
    requires DecodePortBody(Exact, tag, i, data) == Ok((k, t)) && Same(data, i, k, other, j)
    ensures DecodePortBody(b, tag, j, other) == Ok((j + (k - i), t))
  {
    hide DecodeNode, Take, Slice, Same;
    var (n, node) := DecodeNode(Exact, i, data).value;
    var m := j + (n - i);
    var width := if tag == TAG_NEW_PORT_EXT then 4 else 1;
    SameSub(data, i, k, other, j, i, n, j);
    NodeTransport(b, i, n, node, data, j, other);
    SameTake(b, data, i, k, other, j, n, m, 4);
    SameTake(b, data, i, k, other, j, n + 4, m + 4, width);
  }

  lemma ReferenceTransport(b: Bounds, tag: byte, i: nat, k: nat, t: Term, data: seq<byte>, j: nat, other: seq<byte>)
    requires DecodeReferenceBody(Exact, tag, i, data) == Ok((k, t)) && Same(data, i, k, other, j)
    ensures DecodeReferenceBody(b, tag, j, other) == Ok((j + (k - i), t))
  {
    hide DecodeNode, Take, Slice, Same, UintAt;
    var words := UintAt(2, data, i).value;
    var (n, node) := DecodeNode(Exact, i + 2, data).value;
    var m := j + (n - i);
    var width := if tag == TAG_NEWER_REFERENCE_EXT then 4 else 1;
    SameUint(2, data, i, k, other, j, i, j);
    SameSub(data, i, k, other, j, i + 2, n, j + 2);
    NodeTransport(b, i + 2, n, node, data, j + 2, other);
    SameTake(b, data, i, k, other, j, n, m, width);
    SameTake(b, data, i, k, other, j, n + width, m + width, words * 4);
  }

  lemma ExportTransport(b: Bounds, i: nat, k: nat, t: Term, data: seq<byte>, j: nat, other: seq<byte>)
    requires DecodeExportBody(Exact, i, data) == Ok((k, t)) && Same(data, i, k, other, j)
    ensures DecodeExportBody(b, j, other) == Ok((j + (k - i), t))
  {
    hide DecodeNode, Take, Slice, Same, ByteAt;
    var (m, module_) := DecodeNode(Exact, i, data).value;
    var (f, function_) := DecodeNode(Exact, m, data).value;
    var m', f' := j + (m - i), j + (f - i);
    SameSub(data, i, k, other, j, i, m, j);
    NodeTransport(b, i, m, module_, data, j, other);
    SameSub(data, i, k, other, j, m, f, m');
    NodeTransport(b, m, f, function_, data, m', other);
    SameByte(data, i, k, other, j, f, f');
    SameByte(data, i, k, other, j, f + 1, f' + 1);
    SameTake(b, data, i, k, other, j, i, j, k - i);
  }

  lemma BignumTransport(w: nat, i: nat, k: nat, t: Term, data: seq<byte>, j: nat, other: seq<byte>)
    requires w == 1 || w == 4
    requires DecodeBignumBody(w, i, data) == Ok((k, t)) && Same(data, i, k, other, j)
    ensures DecodeBignumBody(w, j, other) == Ok((j + (k - i), t))
  {
    hide Same, UintAt, ByteAt, Integers.Value;
    SameUint(w, data, i, k, other, j, i, j);
    SameByte(data, i, k, other, j, i + w, j + w);
    SameSlice(data, i, k, other, j, i + w + 1, k, j + w + 1);
  }

  lemma BitsTransport(b: Bounds, i: nat, k: nat, t: Term, data: seq<byte>, j: nat, other: seq<byte>)
    requires DecodeBitsBody(Exact, i, data) == Ok((k, t)) && Same(data, i, k, other, j)
    ensures DecodeBitsBody(b, j, other) == Ok((j + (k - i), t))
  {
    hide Same, UintAt, ByteAt, Take, Slice;
    SameUint(4, data, i, k, other, j, i, j);
    SameByte(data, i, k, other, j, i + 4, j + 4);
    SameTake(b, data, i, k, other, j, i + 5, j + 5, UintAt(4, data, i).value);
  }

  lemma NewFunTransport(b: Bounds, i: nat, k: nat, t: Term, data: seq<byte>, j: nat, other: seq<byte>)
    requires DecodeNewFunBody(Exact, i, data) == Ok((k, t)) && Same(data, i, k, other, j)
    ensures DecodeNewFunBody(b, j, other) == Ok((j + (k - i), t))
  {
    hide Same, UintAt, Take, Slice;
    SameUint(4, data, i, k, other, j, i, j);
    SameTake(b, data, i, k, other, j, i, j, k - i);
  }

  lemma IntegerTransport(i: nat, k: nat, n: int, data: seq<byte>, j: nat, other: seq<byte>)
    requires DecodeInteger(i, data) == Ok((k, n)) && Same(data, i, k, other, j)
    ensures DecodeInteger(j, other) == Ok((j + (k - i), n))
  {
    hide Same, ByteAt, I32At;
    SameByte(data, i, k, other, j, i, j);
    SameByte(data, i, k, other, j, i + 1, j + 1);
    if k == i + 5 {
      SameUint(4, data, i, k, other, j, i + 1, j + 1);
    }
  }

  /** Tags with a fixed number of bytes behind them. */
  predicate FixedSize(tag: byte) {
    tag in {TAG_NEW_FLOAT_EXT, TAG_ATOM_CACHE_REF, TAG_SMALL_INTEGER_EXT, TAG_INTEGER_EXT, TAG_NIL_EXT}
  }

  lemma FixedTransport(b: Bounds, tag: byte, i: nat, k: nat, t: Term, data: seq<byte>, j: nat, other: seq<byte>)
    requires FixedSize(tag)
    requires i <= |data| && DecodeLeaf(Exact, tag, i, data) == Ok((k, t)) && Same(data, i, k, other, j)
    ensures DecodeLeaf(b, tag, j, other) == Ok((j + (k - i), t))
  {
    hide Same, ByteAt, I32At;
    if tag == TAG_NEW_FLOAT_EXT {
      SameSlice(data, i, k, other, j, i, k, j);
    } else if tag == TAG_ATOM_CACHE_REF || tag == TAG_SMALL_INTEGER_EXT {
      SameByte(data, i, k, other, j, i, j);
    } else if tag == TAG_INTEGER_EXT {
      SameUint(4, data, i, k, other, j, i, j);
    }
  }

  lemma LeafTransport(b: Bounds, tag: byte, i: nat, k: nat, t: Term, data: seq<byte>, j: nat, other: seq<byte>)
    requires i <= |data| && DecodeLeaf(Exact, tag, i, data) == Ok((k, t)) && Same(data, i, k, other, j)
    ensures DecodeLeaf(b, tag, j, other) == Ok((j + (k - i), t))
  {
    hide Same, ByteAt, I32At, Take, Slice, Block, DecodeName, DecodeBitsBody, DecodePortBody, DecodePidBody,
         DecodeBignumBody, DecodeNewFunBody, DecodeExportBody, DecodeReferenceBody, AtomTerm;
    if FixedSize(tag) {
      FixedTransport(b, tag, i, k, t, data, j, other);
    } else if tag == TAG_BIT_BINARY_EXT {
      BitsTransport(b, i, k, t, data, j, other);
    } else if tag == TAG_NEW_PORT_EXT || tag == TAG_REFERENCE_EXT || tag == TAG_PORT_EXT {
      PortTransport(b, tag, i, k, t, data, j, other);
    } else if tag == TAG_NEW_PID_EXT || tag == TAG_PID_EXT {
      PidTransport(b, tag, i, k, t, data, j, other);
    } else if tag == TAG_STRING_EXT || tag == TAG_BINARY_EXT || tag == TAG_SMALL_ATOM_EXT {
      var w := if tag == TAG_STRING_EXT then 2 else if tag == TAG_BINARY_EXT then 4 else 1;
      BlockTransport(b, w, i, k, Block(Exact, w, i, data).value.1, data, j, other);
    } else if tag == TAG_SMALL_BIG_EXT || tag == TAG_LARGE_BIG_EXT {
      BignumTransport(if tag == TAG_SMALL_BIG_EXT then 1 else 4, i, k, t, data, j, other);
    } else if tag == TAG_NEW_FUN_EXT {
      NewFunTransport(b, i, k, t, data, j, other);
    } else if tag == TAG_EXPORT_EXT {
      ExportTransport(b, i, k, t, data, j, other);
    } else if tag == TAG_NEWER_REFERENCE_EXT || tag == TAG_NEW_REFERENCE_EXT {
      ReferenceTransport(b, tag, i, k, t, data, j, other);
    } else if tag == TAG_ATOM_EXT || tag == TAG_ATOM_UTF8_EXT || tag == TAG_SMALL_ATOM_UTF8_EXT {
      NameTransport(b, tag, i, k, DecodeName(Exact, tag, i, data).value.1, data, j, other);
    }
  }

  lemma FunHeaderTransport(b: Bounds, i: nat, k: nat, n: nat, data: seq<byte>, j: nat, other: seq<byte>)
    requires DecodeFunHeader(Exact, i, data) == Ok((k, n)) && Same(data, i, k, other, j)
    ensures DecodeFunHeader(b, j, other) == Ok((j + (k - i), n))
  {
    hide Same, UintAt, DecodePidBody, DecodeNode, DecodeInteger;
    var (p, pid) := DecodePid(Exact, i + 4, data).value;
    var (m, name) := DecodeNode(Exact, p, data).value;
    var (x, index) := DecodeInteger(m, data).value;
    var uniq := DecodeInteger(x, data).value.1;
    SameUint(4, data, i, k, other, j, i, j);
    SameByte(data, i, k, other, j, i + 4, j + 4);
    SameSub(data, i, k, other, j, i + 5, p, j + 5);
    PidTransport(b, data[i + 4], i + 5, p, pid, data, j + 5, other);
    SameSub(data, i, k, other, j, p, m, j + (p - i));
    NodeTransport(b, p, m, name, data, j + (p - i), other);
    SameSub(data, i, k, other, j, m, x, j + (m - i));
    IntegerTransport(m, x, index, data, j + (m - i), other);
    SameSub(data, i, k, other, j, x, k, j + (x - i));
    IntegerTransport(x, k, uniq, data, j + (x - i), other);
  }

  /** A strict reading of a term gives the same term wherever its bytes stand and however they are read. */
  lemma {:induction false} Transport(env: Env, i: nat, k: nat, t: Term, data: seq<byte>, j: nat, other: seq<byte>)
    requires Decode(STRICT, i, data) == Ok((k, t)) && Same(data, i, k, other, j)
    ensures Decode(env, j, other) == Ok((j + (k - i), t))
    decreases Remaining(i, data), 0, 1
  {
    hide Same, DecodeLeaf, DecodeFunHeader, Take, ListTerm, DecodeSequence, DecodePairs;
    var tag := data[i];
    SameByte(data, i, k, other, j, i, j);
    if tag == TAG_SMALL_TUPLE_EXT {
      TupleTransport(env, 1, i, k, t, data, j, other);
    } else if tag == TAG_LARGE_TUPLE_EXT {
      TupleTransport(env, 4, i, k, t, data, j, other);
    } else if tag == TAG_LIST_EXT {
      ListTransport(env, i, k, t, data, j, other);
    } else if tag == TAG_MAP_EXT {
      MapTransport(env, i, k, t, data, j, other);
    } else if tag == TAG_FUN_EXT {
      FunTransport(env, i, k, t, data, j, other);
    } else if tag != TAG_COMPRESSED_ZLIB {
      SameSub(data, i, k, other, j, i + 1, k, j + 1);
      LeafTransport(env.bounds, tag, i + 1, k, t, data, j + 1, other);
    }
  }

  lemma {:induction false} TupleTransport(env: Env, w: nat, i: nat, k: nat, t: Term, data: seq<byte>, j: nat,
      other: seq<byte>)
    requires i < |data| && Decode(STRICT, i, data) == Ok((k, t)) && Same(data, i, k, other, j)
    requires data[i] == (if w == 1 then TAG_SMALL_TUPLE_EXT else TAG_LARGE_TUPLE_EXT) && (w == 1 || w == 4)
    ensures Decode(env, j, other) == Ok((j + (k - i), t))
    decreases Remaining(i, data), 0, 0
  {
    hide Same, DecodeLeaf, DecodeSequence;
    var n := UintAt(w, data, i + 1).value;
    SameByte(data, i, k, other, j, i, j);
    SameByte(data, i, k, other, j, i + 1, j + 1);
    SameUint(w, data, i, k, other, j, i + 1, j + 1);
    SameSub(data, i, k, other, j, i + 1 + w, k, j + 1 + w);
    SequenceTransport(env, i + 1 + w, n, k, t.elements, data, j + 1 + w, other);
  }

  lemma {:induction false} ListTransport(env: Env, i: nat, k: nat, t: Term, data: seq<byte>, j: nat, other: seq<byte>)
    requires i < |data| && Decode(STRICT, i, data) == Ok((k, t)) && Same(data, i, k, other, j)
    requires data[i] == TAG_LIST_EXT
    ensures Decode(env, j, other) == Ok((j + (k - i), t))
    decreases Remaining(i, data), 0, 0
  {
    hide Same, UintAt, DecodeLeaf, DecodeSequence, ListTerm;
    var n := UintAt(4, data, i + 1).value;
    var (m, es) := DecodeSequence(STRICT, i + 5, n, data).value;
    SameByte(data, i, k, other, j, i, j);
    SameUint(4, data, i, k, other, j, i + 1, j + 1);
    SameSub(data, i, k, other, j, i + 5, m, j + 5);
    SequenceTransport(env, i + 5, n, m, es, data, j + 5, other);
    SameSub(data, i, k, other, j, m, k, j + (m - i));
    Transport(env, m, k, Decode(STRICT, m, data).value.1, data, j + (m - i), other);
  }

  lemma {:induction false} MapTransport(env: Env, i: nat, k: nat, t: Term, data: seq<byte>, j: nat, other: seq<byte>)
    requires i < |data| && Decode(STRICT, i, data) == Ok((k, t)) && Same(data, i, k, other, j)
    requires data[i] == TAG_MAP_EXT
    ensures Decode(env, j, other) == Ok((j + (k - i), t))
    decreases Remaining(i, data), 0, 0
  {
    hide Same, UintAt, DecodeLeaf, DecodePairs;
    var n := UintAt(4, data, i + 1).value;
    SameByte(data, i, k, other, j, i, j);
    SameUint(4, data, i, k, other, j, i + 1, j + 1);
    SameSub(data, i, k, other, j, i + 5, k, j + 5);
    PairsTransport(env, i + 5, n, k, [], t.pairs, data, j + 5, other);
  }

  lemma {:induction false} FunTransport(env: Env, i: nat, k: nat, t: Term, data: seq<byte>, j: nat, other: seq<byte>)
    requires i < |data| && Decode(STRICT, i, data) == Ok((k, t)) && Same(data, i, k, other, j)
    requires data[i] == TAG_FUN_EXT
    ensures Decode(env, j, other) == Ok((j + (k - i), t))
    decreases Remaining(i, data), 0, 0
  {
    hide Same, DecodeLeaf, DecodeFunHeader, DecodeSequence, Take, Slice;
    var (u, n) := DecodeFunHeader(Exact, i + 1, data).value;
    var free := DecodeSequence(STRICT, u, n, data).value.1;
    SameByte(data, i, k, other, j, i, j);
    SameSub(data, i, k, other, j, i + 1, u, j + 1);
    FunHeaderTransport(env.bounds, i + 1, u, n, data, j + 1, other);
    SameSub(data, i, k, other, j, u, k, j + (u - i));
    SequenceTransport(env, u, n, k, free, data, j + (u - i), other);
    SameTake(env.bounds, data, i, k, other, j, i + 1, j + 1, k - (i + 1));
  }

  lemma {:induction false} SequenceTransport(
      env: Env, i: nat, n: nat, k: nat, es: seq<Term>, data: seq<byte>, j: nat, other: seq<byte>)
    requires DecodeSequence(STRICT, i, n, data) == Ok((k, es)) && Same(data, i, k, other, j)
    ensures DecodeSequence(env, j, n, other) == Ok((j + (k - i), es))
    decreases Remaining(i, data), 1, n
  {
    hide Same, Decode;
    if n > 0 {
      var (m, e) := Decode(STRICT, i, data).value;
      SameSub(data, i, k, other, j, i, m, j);
      Transport(env, i, m, e, data, j, other);
      SameSub(data, i, k, other, j, m, k, j + (m - i));
      SequenceTransport(env, m, n - 1, k, es[1..], data, j + (m - i), other);
    }
  }

  lemma {:induction false} PairsTransport(
      env: Env, i: nat, n: nat, k: nat, before: seq<Entry>, after: seq<Entry>, data: seq<byte>, j: nat,
      other: seq<byte>)
    requires DecodePairs(STRICT, i, n, data, before) == Ok((k, after)) && Same(data, i, k, other, j)
    ensures DecodePairs(env, j, n, other, before) == Ok((j + (k - i), after))
    decreases Remaining(i, data), 1, n
  {
    hide Same, Decode, Store;
    if n > 0 {
      var (v, key) := Decode(STRICT, i, data).value;
      var (m, value) := Decode(STRICT, v, data).value;
      SameSub(data, i, k, other, j, i, v, j);
      Transport(env, i, v, key, data, j, other);
      SameSub(data, i, k, other, j, v, m, j + (v - i));
      Transport(env, v, m, value, data, j + (v - i), other);
      SameSub(data, i, k, other, j, m, k, j + (m - i));
      PairsTransport(env, m, n - 1, k, Store(before, key, value).value, after, data, j + (m - i), other);
    }
  }
}
