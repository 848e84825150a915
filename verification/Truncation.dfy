/**
 What becomes of a reading when its input ends early. The unchecked slices of the source
 let it go on past the end, but the cursor is then beyond the data and stays there.
 */
module Truncation {
  import opened Prelude
  import opened ErlangTags
  import opened ErlangTerms
  import opened ErlangDecoder
  import opened NormalForm
  import opened DecoderLaws
  import Integers

  /** The reading failed or left its cursor beyond the data. */
  predicate Overrun<T>(r: Result<(nat, T)>, data: seq<byte>) {
    r.Ok? ==> |data| < r.value.0
  }

  /** other holds data[i..c] from index j on and ends there. */
  predicate Cut(data: seq<byte>, i: nat, c: nat, other: seq<byte>, j: nat) {
    Same(data, i, c, other, j) && |other| == j + (c - i)
  }

  lemma CutSub(data: seq<byte>, i: nat, c: nat, other: seq<byte>, j: nat, a: nat, b: nat)
    requires Cut(data, i, c, other, j) && i <= a <= c && b == j + (a - i)
    ensures Cut(data, a, c, other, b)
  {
    SameSub(data, i, c, other, j, a, c, b);
  }

  lemma BlockCut(b: Bounds, w: nat, i: nat, k: nat, s: seq<byte>, data: seq<byte>, c: nat, j: nat, other: seq<byte>)
    requires w == 1 || w == 2 || w == 4
    requires Block(Exact, w, i, data) == Ok((k, s)) && i <= c < k && Cut(data, i, c, other, j)
    ensures Overrun(Block(b, w, j, other), other)
  {
    hide Same, Take, Slice;
    if i + w <= c {
      SameUint(w, data, i, c, other, j, i, j);
    }
  }

  lemma NameCut(b: Bounds, tag: byte, i: nat, k: nat, node: AtomValue, data: seq<byte>, c: nat, j: nat,
      other: seq<byte>)
    requires AtomWidth(tag) > 0
    requires DecodeName(Exact, tag, i, data) == Ok((k, node)) && i <= c < k && Cut(data, i, c, other, j)
    ensures Overrun(DecodeName(b, tag, j, other), other)
  {
    hide Same, Block, ValidUtf8;
    var w := AtomWidth(tag);
    BlockCut(b, w, i, k, Block(Exact, w, i, data).value.1, data, c, j, other);
  }

  lemma NodeCut(b: Bounds, i: nat, k: nat, node: AtomValue, data: seq<byte>, c: nat, j: nat, other: seq<byte>)
    requires DecodeNode(Exact, i, data) == Ok((k, node)) && i <= c < k && Cut(data, i, c, other, j)
    ensures Overrun(DecodeNode(b, j, other), other)
  {
    hide Same, DecodeName;
    if i < c {
      SameByte(data, i, c, other, j, i, j);
      if data[i] != TAG_ATOM_CACHE_REF {
        CutSub(data, i, c, other, j, i + 1, j + 1);
        NameCut(b, data[i], i + 1, k, node, data, c, j + 1, other);
      }
    }
  }

  /** A node name read from cut data: whole, or else overrun. */
  lemma NodeFollow(b: Bounds, i: nat, k: nat, node: AtomValue, data: seq<byte>, c: nat, j: nat, other: seq<byte>)
    requires DecodeNode(Exact, i, data) == Ok((k, node)) && i <= c && Cut(data, i, c, other, j)
    ensures k <= c ==> DecodeNode(b, j, other) == Ok((j + (k - i), node)) && Cut(data, k, c, other, j + (k - i))
    ensures c < k ==> Overrun(DecodeNode(b, j, other), other)
  {
    hide Same, DecodeNode;
    if k <= c {
      SameSub(data, i, c, other, j, i, k, j);
      NodeTransport(b, i, k, node, data, j, other);
      CutSub(data, i, c, other, j, k, j + (k - i));
    } else {
      NodeCut(b, i, k, node, data, c, j, other);
    }
  }

  lemma PidCut(b: Bounds, tag: byte, i: nat, k: nat, t: Term, data: seq<byte>, c: nat, j: nat, other: seq<byte>)
    requires DecodePidBody(Exact, tag, i, data) == Ok((k, t)) && i <= c < k && Cut(data, i, c, other, j)
    ensures Overrun(DecodePidBody(b, tag, j, other), other)
  {
    hide Same, DecodeNode, Take, Slice;
    var (n, node) := DecodeNode(Exact, i, data).value;
    NodeFollow(b, i, n, node, data, c, j, other);
  }

  lemma PortCut(b: Bounds, tag: byte, i: nat, k: nat, t: Term, data: seq<byte>, c: nat, j: nat, other: seq<byte>)
    requires DecodePortBody(Exact, tag, i, data) == Ok((k, t)) && i <= c < k && Cut(data, i, c, other, j)
    ensures Overrun(DecodePortBody(b, tag, j, other), other)
  {
    hide Same, DecodeNode, Take, Slice;
    var (n, node) := DecodeNode(Exact, i, data).value;
    NodeFollow(b, i, n, node, data, c, j, other);
  }

  lemma ReferenceCut(b: Bounds, tag: byte, i: nat, k: nat, t: Term, data: seq<byte>, c: nat, j: nat, other: seq<byte>)
    requires DecodeReferenceBody(Exact, tag, i, data) == Ok((k, t)) && i <= c < k && Cut(data, i, c, other, j)
    ensures Overrun(DecodeReferenceBody(b, tag, j, other), other)
  {
    hide Same, DecodeNode, Take, Slice;
    if i + 2 <= c {
      var (n, node) := DecodeNode(Exact, i + 2, data).value;
      SameUint(2, data, i, c, other, j, i, j);
      CutSub(data, i, c, other, j, i + 2, j + 2);
      NodeFollow(b, i + 2, n, node, data, c, j + 2, other);
    }
  }

  lemma ExportCut(b: Bounds, i: nat, k: nat, t: Term, data: seq<byte>, c: nat, j: nat, other: seq<byte>)
    requires DecodeExportBody(Exact, i, data) == Ok((k, t)) && i <= c < k && Cut(data, i, c, other, j)
    ensures Overrun(DecodeExportBody(b, j, other), other)
  {
    hide Same, DecodeNode, Take, Slice;
    var (m, module_) := DecodeNode(Exact, i, data).value;
    var (f, function_) := DecodeNode(Exact, m, data).value;
    NodeFollow(b, i, m, module_, data, c, j, other);
    if m <= c {
      NodeFollow(b, m, f, function_, data, c, j + (m - i), other);
    }
  }

  lemma BignumCut(w: nat, i: nat, k: nat, t: Term, data: seq<byte>, c: nat, j: nat, other: seq<byte>)
    requires w == 1 || w == 4
    requires DecodeBignumBody(w, i, data) == Ok((k, t)) && i <= c < k && Cut(data, i, c, other, j)
    ensures Overrun(DecodeBignumBody(w, j, other), other)
  {
    hide Same, Integers.Value;
    if i + w <= c {
      SameUint(w, data, i, c, other, j, i, j);
    }
  }

  lemma BitsCut(b: Bounds, i: nat, k: nat, t: Term, data: seq<byte>, c: nat, j: nat, other: seq<byte>)
    requires DecodeBitsBody(Exact, i, data) == Ok((k, t)) && i <= c < k && Cut(data, i, c, other, j)
    ensures Overrun(DecodeBitsBody(b, j, other), other)
  {
    hide Same, Take, Slice;
    if i + 4 <= c {
      SameUint(4, data, i, c, other, j, i, j);
    }
  }

  lemma NewFunCut(b: Bounds, i: nat, k: nat, t: Term, data: seq<byte>, c: nat, j: nat, other: seq<byte>)
    requires DecodeNewFunBody(Exact, i, data) == Ok((k, t)) && i <= c < k && Cut(data, i, c, other, j)
    ensures Overrun(DecodeNewFunBody(b, j, other), other)
  {
    hide Same, Take, Slice;
    if i + 4 <= c {
      SameUint(4, data, i, c, other, j, i, j);
    }
  }

  lemma IntegerFollow(i: nat, k: nat, n: int, data: seq<byte>, c: nat, j: nat, other: seq<byte>)
    requires DecodeInteger(i, data) == Ok((k, n)) && i <= c && Cut(data, i, c, other, j)
    ensures k <= c ==> DecodeInteger(j, other) == Ok((j + (k - i), n)) && Cut(data, k, c, other, j + (k - i))
    ensures c < k ==> Overrun(DecodeInteger(j, other), other)
  {
    hide Same;
    if k <= c {
      SameSub(data, i, c, other, j, i, k, j);
      IntegerTransport(i, k, n, data, j, other);
      CutSub(data, i, c, other, j, k, j + (k - i));
    } else if i < c {
      SameByte(data, i, c, other, j, i, j);
    }
  }

  lemma FixedCut(b: Bounds, tag: byte, i: nat, k: nat, t: Term, data: seq<byte>, c: nat, j: nat, other: seq<byte>)
    requires FixedSize(tag)
    requires i <= |data| && DecodeLeaf(Exact, tag, i, data) == Ok((k, t)) && i <= c < k && Cut(data, i, c, other, j)
    ensures Overrun(DecodeLeaf(b, tag, j, other), other)
  {
    hide Same;
  }

  lemma LeafCut(b: Bounds, tag: byte, i: nat, k: nat, t: Term, data: seq<byte>, c: nat, j: nat, other: seq<byte>)
    requires i <= |data| && DecodeLeaf(Exact, tag, i, data) == Ok((k, t)) && i <= c < k && Cut(data, i, c, other, j)
    ensures Overrun(DecodeLeaf(b, tag, j, other), other)
  {
    hide Same, ByteAt, I32At, AtomTerm, Take, Slice, Block, DecodeName, DecodeBitsBody, DecodePortBody, DecodePidBody,
         DecodeBignumBody, DecodeNewFunBody, DecodeExportBody, DecodeReferenceBody;
    if FixedSize(tag) {
      FixedCut(b, tag, i, k, t, data, c, j, other);
    } else if tag == TAG_BIT_BINARY_EXT {
      BitsCut(b, i, k, t, data, c, j, other);
    } else if tag == TAG_NEW_PORT_EXT || tag == TAG_REFERENCE_EXT || tag == TAG_PORT_EXT {
      PortCut(b, tag, i, k, t, data, c, j, other);
    } else if tag == TAG_NEW_PID_EXT || tag == TAG_PID_EXT {
      PidCut(b, tag, i, k, t, data, c, j, other);
    } else if tag == TAG_STRING_EXT || tag == TAG_BINARY_EXT || tag == TAG_SMALL_ATOM_EXT {
      var w := if tag == TAG_STRING_EXT then 2 else if tag == TAG_BINARY_EXT then 4 else 1;
      BlockCut(b, w, i, k, Block(Exact, w, i, data).value.1, data, c, j, other);
    } else if tag == TAG_SMALL_BIG_EXT || tag == TAG_LARGE_BIG_EXT {
      BignumCut(if tag == TAG_SMALL_BIG_EXT then 1 else 4, i, k, t, data, c, j, other);
    } else if tag == TAG_NEW_FUN_EXT {
      NewFunCut(b, i, k, t, data, c, j, other);
    } else if tag == TAG_EXPORT_EXT {
      ExportCut(b, i, k, t, data, c, j, other);
    } else if tag == TAG_NEWER_REFERENCE_EXT || tag == TAG_NEW_REFERENCE_EXT {
      ReferenceCut(b, tag, i, k, t, data, c, j, other);
    } else if tag == TAG_ATOM_EXT || tag == TAG_ATOM_UTF8_EXT || tag == TAG_SMALL_ATOM_UTF8_EXT {
      NameCut(b, tag, i, k, DecodeName(Exact, tag, i, data).value.1, data, c, j, other);
    }
  }

  lemma FunHeaderFollow(b: Bounds, i: nat, k: nat, n: nat, data: seq<byte>, c: nat, j: nat, other: seq<byte>)
    requires DecodeFunHeader(Exact, i, data) == Ok((k, n)) && i <= c && Cut(data, i, c, other, j)
    ensures k <= c ==> DecodeFunHeader(b, j, other) == Ok((j + (k - i), n)) && Cut(data, k, c, other, j + (k - i))
    ensures c < k ==> Overrun(DecodeFunHeader(b, j, other), other)
  {
    hide Same, UintAt, DecodePidBody, DecodeNode, DecodeInteger;
    if k <= c {
      SameSub(data, i, c, other, j, i, k, j);
      FunHeaderTransport(b, i, k, n, data, j, other);
      CutSub(data, i, c, other, j, k, j + (k - i));
    } else if i + 5 <= c {
      FunHeaderCut(b, i, k, n, data, c, j, other);
    }
  }

  lemma FunHeaderCut(b: Bounds, i: nat, k: nat, n: nat, data: seq<byte>, c: nat, j: nat, other: seq<byte>)
    requires DecodeFunHeader(Exact, i, data) == Ok((k, n)) && i + 5 <= c < k && Cut(data, i, c, other, j)
    ensures Overrun(DecodeFunHeader(b, j, other), other)
  {
    hide Same, UintAt, DecodePidBody, DecodeNode, DecodeInteger;
    var (p, pid) := DecodePid(Exact, i + 4, data).value;
    var (m, name) := DecodeNode(Exact, p, data).value;
    var (x, index) := DecodeInteger(m, data).value;
    var uniq := DecodeInteger(x, data).value.1;
    SameByte(data, i, c, other, j, i + 4, j + 4);
    CutSub(data, i, c, other, j, i + 5, j + 5);
    if c < p {
      PidCut(b, data[i + 4], i + 5, p, pid, data, c, j + 5, other);
    } else {
      SameSub(data, i, c, other, j, i + 5, p, j + 5);
      PidTransport(b, data[i + 4], i + 5, p, pid, data, j + 5, other);
      CutSub(data, i, c, other, j, p, j + (p - i));
      NodeFollow(b, p, m, name, data, c, j + (p - i), other);
      if m <= c {
        IntegerFollow(m, x, index, data, c, j + (m - i), other);
        if x <= c {
          IntegerFollow(x, k, uniq, data, c, j + (x - i), other);
        }
      }
    }
  }

  /** A strictly readable term whose bytes end early is refused, or overrun, in every way of reading. */
  lemma {:induction false} TermFollow(env: Env, i: nat, k: nat, t: Term, data: seq<byte>, c: nat, j: nat,
      other: seq<byte>)
    requires Decode(STRICT, i, data) == Ok((k, t)) && i <= c && Cut(data, i, c, other, j)
    ensures k <= c ==> Decode(env, j, other) == Ok((j + (k - i), t)) && Cut(data, k, c, other, j + (k - i))
    ensures c < k ==> Overrun(Decode(env, j, other), other)
    decreases Remaining(i, data), 0, 2
  {
    hide Same, Decode;
    if k <= c {
      SameSub(data, i, c, other, j, i, k, j);
      Transport(env, i, k, t, data, j, other);
      CutSub(data, i, c, other, j, k, j + (k - i));
    } else if i < c {
      TermCut(env, i, k, t, data, c, j, other);
    }
  }

  lemma {:induction false} TermCut(env: Env, i: nat, k: nat, t: Term, data: seq<byte>, c: nat, j: nat, other: seq<byte>)
    requires Decode(STRICT, i, data) == Ok((k, t)) && i < c < k && Cut(data, i, c, other, j)
    ensures Overrun(Decode(env, j, other), other)
    decreases Remaining(i, data), 0, 1
  {
    hide Same, DecodeLeaf, DecodeFunHeader, Take, ListTerm, DecodeSequence, DecodePairs;
    var tag := data[i];
    SameByte(data, i, c, other, j, i, j);
    if tag == TAG_SMALL_TUPLE_EXT {
      TupleCut(env, 1, i, k, t, data, c, j, other);
    } else if tag == TAG_LARGE_TUPLE_EXT {
      TupleCut(env, 4, i, k, t, data, c, j, other);
    } else if tag == TAG_LIST_EXT {
      ListCut(env, i, k, t, data, c, j, other);
    } else if tag == TAG_MAP_EXT {
      MapCut(env, i, k, t, data, c, j, other);
    } else if tag == TAG_FUN_EXT {
      FunCut(env, i, k, t, data, c, j, other);
    } else if tag != TAG_COMPRESSED_ZLIB {
      CutSub(data, i, c, other, j, i + 1, j + 1);
      LeafCut(env.bounds, tag, i + 1, k, t, data, c, j + 1, other);
    }
  }

  lemma {:induction false} TupleCut(env: Env, w: nat, i: nat, k: nat, t: Term, data: seq<byte>, c: nat, j: nat,
      other: seq<byte>)
    requires i < |data| && Decode(STRICT, i, data) == Ok((k, t)) && i < c < k && Cut(data, i, c, other, j)
    requires data[i] == (if w == 1 then TAG_SMALL_TUPLE_EXT else TAG_LARGE_TUPLE_EXT) && (w == 1 || w == 4)
    ensures Overrun(Decode(env, j, other), other)
    decreases Remaining(i, data), 0, 0
  {
    hide Same, DecodeLeaf, DecodeSequence;
    SameByte(data, i, c, other, j, i, j);
    if i + 1 + w <= c {
      var n := UintAt(w, data, i + 1).value;
      SameByte(data, i, c, other, j, i + 1, j + 1);
      SameUint(w, data, i, c, other, j, i + 1, j + 1);
      CutSub(data, i, c, other, j, i + 1 + w, j + 1 + w);
      SequenceFollow(env, i + 1 + w, n, k, t.elements, data, c, j + 1 + w, other);
    }
  }

  lemma {:induction false} ListCut(env: Env, i: nat, k: nat, t: Term, data: seq<byte>, c: nat, j: nat, other: seq<byte>)
    requires i < |data| && Decode(STRICT, i, data) == Ok((k, t)) && i < c < k && Cut(data, i, c, other, j)
    requires data[i] == TAG_LIST_EXT
    ensures Overrun(Decode(env, j, other), other)
    decreases Remaining(i, data), 0, 0
  {
    hide Same, DecodeLeaf, DecodeSequence, ListTerm;
    SameByte(data, i, c, other, j, i, j);
    if i + 5 <= c {
      var n := UintAt(4, data, i + 1).value;
      var (m, es) := DecodeSequence(STRICT, i + 5, n, data).value;
      SameUint(4, data, i, c, other, j, i + 1, j + 1);
      CutSub(data, i, c, other, j, i + 5, j + 5);
      SequenceFollow(env, i + 5, n, m, es, data, c, j + 5, other);
      if m <= c {
        TermFollow(env, m, k, Decode(STRICT, m, data).value.1, data, c, j + (m - i), other);
      }
    }
  }

  lemma {:induction false} MapCut(env: Env, i: nat, k: nat, t: Term, data: seq<byte>, c: nat, j: nat, other: seq<byte>)
    requires i < |data| && Decode(STRICT, i, data) == Ok((k, t)) && i < c < k && Cut(data, i, c, other, j)
    requires data[i] == TAG_MAP_EXT
    ensures Overrun(Decode(env, j, other), other)
    decreases Remaining(i, data), 0, 0
  {
    hide Same, DecodeLeaf, DecodePairs;
    SameByte(data, i, c, other, j, i, j);
    if i + 5 <= c {
      var n := UintAt(4, data, i + 1).value;
      SameUint(4, data, i, c, other, j, i + 1, j + 1);
      CutSub(data, i, c, other, j, i + 5, j + 5);
      PairsFollow(env, i + 5, n, k, [], t.pairs, data, c, j + 5, other);
    }
  }

  lemma {:induction false} FunCut(env: Env, i: nat, k: nat, t: Term, data: seq<byte>, c: nat, j: nat, other: seq<byte>)
    requires i < |data| && Decode(STRICT, i, data) == Ok((k, t)) && i < c < k && Cut(data, i, c, other, j)
    requires data[i] == TAG_FUN_EXT
    ensures Overrun(Decode(env, j, other), other)
    decreases Remaining(i, data), 0, 0
  {
    hide Same, DecodeLeaf, DecodeFunHeader, DecodeSequence, Take, Slice;
    var (u, n) := DecodeFunHeader(Exact, i + 1, data).value;
    var free := DecodeSequence(STRICT, u, n, data).value.1;
    SameByte(data, i, c, other, j, i, j);
    CutSub(data, i, c, other, j, i + 1, j + 1);
    FunHeaderFollow(env.bounds, i + 1, u, n, data, c, j + 1, other);
    if u <= c {
      SequenceFollow(env, u, n, k, free, data, c, j + (u - i), other);
    }
  }

  lemma {:induction false} SequenceFollow(
      env: Env, i: nat, n: nat, k: nat, es: seq<Term>, data: seq<byte>, c: nat, j: nat, other: seq<byte>)
    requires DecodeSequence(STRICT, i, n, data) == Ok((k, es)) && i <= c && Cut(data, i, c, other, j)
    ensures k <= c ==> DecodeSequence(env, j, n, other) == Ok((j + (k - i), es)) && Cut(data, k, c, other, j + (k - i))
    ensures c < k ==> Overrun(DecodeSequence(env, j, n, other), other)
    decreases Remaining(i, data), 1, n
  {
    hide Same, Decode;
    if n > 0 {
      var (m, e) := Decode(STRICT, i, data).value;
      TermFollow(env, i, m, e, data, c, j, other);
      if m <= c {
        SequenceFollow(env, m, n - 1, k, es[1..], data, c, j + (m - i), other);
      }
    }
  }

  lemma {:induction false} PairsFollow(
      env: Env, i: nat, n: nat, k: nat, before: seq<Entry>, after: seq<Entry>, data: seq<byte>, c: nat, j: nat,
      other: seq<byte>)
    requires DecodePairs(STRICT, i, n, data, before) == Ok((k, after)) && i <= c && Cut(data, i, c, other, j)
    ensures k <= c ==>
              DecodePairs(env, j, n, other, before) == Ok((j + (k - i), after)) && Cut(data, k, c, other, j + (k - i))
    ensures c < k ==> Overrun(DecodePairs(env, j, n, other, before), other)
    decreases Remaining(i, data), 1, n
  {
    hide Same, Decode, Store;
    if n > 0 {
      var (v, key) := Decode(STRICT, i, data).value;
      var (m, value) := Decode(STRICT, v, data).value;
      TermFollow(env, i, v, key, data, c, j, other);
      if v <= c {
        TermFollow(env, v, m, value, data, c, j + (v - i), other);
        if m <= c {
          PairsFollow(env, m, n - 1, k, Store(before, key, value).value, after, data, c, j + (m - i), other);
        }
      }
    }
  }
}
