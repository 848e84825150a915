/**
 On which bytes a successful reading depends. A reading from i to k depends on data[i..k]
 alone, unless it meets a NEW_FUN_EXT whose size field, which counts its own 4 bytes, is
 below 4: the cursor then stops inside the field that was read. Such a function can only
 be the last thing read, because the next byte is no tag.
 */
module Locality {
  import opened Prelude
  import opened ErlangTags
  import opened ErlangTerms
  import opened ErlangDecoder
  import opened NormalForm
  import opened DecoderLaws

  /** No term starts at k. */
  predicate NoTagAt(data: seq<byte>, k: nat) {
    k < |data| && (data[k] == 0 || data[k] == 3)
  }

  lemma NothingFollows(env: Env, data: seq<byte>, k: nat)
    requires NoTagAt(data, k)
    ensures Decode(env, k, data).Err?
  {
  }

  // ---------- Apart from NEW_FUN_EXT, Exact reads as Checked does

  lemma NodeExact(i: nat, data: seq<byte>)
    ensures DecodeNode(Exact, i, data) == DecodeNode(Checked, i, data)
  {
    hide UintAt, Slice, ValidUtf8;
  }

  lemma FunHeaderExact(i: nat, data: seq<byte>)
    ensures DecodeFunHeader(Exact, i, data) == DecodeFunHeader(Checked, i, data)
  {
    hide UintAt, Slice, DecodeNode, DecodeInteger;
    NodeExact(i + 5, data);
    if DecodePid(Exact, i + 4, data).Ok? {
      NodeExact(DecodePid(Exact, i + 4, data).value.0, data);
    }
  }

  lemma ExportExact(i: nat, data: seq<byte>)
    ensures DecodeExportBody(Exact, i, data) == DecodeExportBody(Checked, i, data)
  {
    hide Slice, DecodeNode;
    NodeExact(i, data);
    if DecodeNode(Exact, i, data).Ok? {
      NodeExact(DecodeNode(Exact, i, data).value.0, data);
    }
  }

  lemma NodeBodiesExact(tag: byte, i: nat, data: seq<byte>)
    ensures DecodePortBody(Exact, tag, i, data) == DecodePortBody(Checked, tag, i, data)
    ensures DecodePidBody(Exact, tag, i, data) == DecodePidBody(Checked, tag, i, data)
  {
    hide Slice, DecodeNode;
    NodeExact(i, data);
  }

  lemma ReferenceExact(tag: byte, i: nat, data: seq<byte>)
    ensures DecodeReferenceBody(Exact, tag, i, data) == DecodeReferenceBody(Checked, tag, i, data)
  {
    hide Slice, DecodeNode, UintAt;
    NodeExact(i + 2, data);
  }

  lemma LeafExact(tag: byte, i: nat, data: seq<byte>)
    requires i <= |data|
    requires tag != TAG_NEW_FUN_EXT
    ensures DecodeLeaf(Exact, tag, i, data) == DecodeLeaf(Checked, tag, i, data)
  {
    hide UintAt, Slice, ValidUtf8, DecodeExportBody, DecodePortBody, DecodePidBody, DecodeReferenceBody;
    NodeBodiesExact(tag, i, data);
    ReferenceExact(tag, i, data);
    ExportExact(i, data);
  }

  // ---------- A reading that is not exact stops before a byte that is no tag

  lemma NewFunGap(i: nat, k: nat, t: Term, data: seq<byte>)
    requires DecodeNewFunBody(Checked, i, data) == Ok((k, t)) && DecodeNewFunBody(Exact, i, data) != Ok((k, t))
    ensures NoTagAt(data, k) && k < i + 4
    ensures DecodeNewFunBody(Checked, i, data[..k]).Err?
  {
    hide Slice;
    var s := data[i..i + 4];
    assert U32(s) == k - i < 4;
    assert s[0] == 0 && s[1] == 0 && s[2] == 0 && s[3] == k - i;
    assert s[k - i] == data[k];
  }

  predicate Gap(i: nat, k: nat, data: seq<byte>) {
    NoTagAt(data, k) && Decode(CHECKED, i, data[..k]).Err?
  }

  lemma Restrict(i: nat, m: nat, k: nat, data: seq<byte>)
    requires i <= m <= k <= |data|
    ensures Same(data, i, m, data[..k], i)
  {
    SameIntro(data, i, m, data[..k], i);
  }

  lemma {:induction false} TermGap(i: nat, k: nat, t: Term, data: seq<byte>)
    requires Decode(CHECKED, i, data) == Ok((k, t))
    requires Decode(STRICT, i, data) != Ok((k, t))
    ensures Gap(i, k, data)
    decreases Remaining(i, data), 0, 1
  {
    hide DecodeLeaf, DecodeFunHeader, DecodeSequence, DecodePairs, UintAt, ListTerm, Take, Same;
    var other := data[..k];
    Restrict(i, k, k, data);
    SameByte(data, i, k, other, i, i, i);
    var tag := data[i];
    if tag == TAG_SMALL_TUPLE_EXT || tag == TAG_LARGE_TUPLE_EXT {
      TupleGap(if tag == TAG_SMALL_TUPLE_EXT then 1 else 4, i, k, t, data);
    } else if tag == TAG_LIST_EXT {
      ListGap(i, k, t, data);
    } else if tag == TAG_MAP_EXT {
      MapGap(i, k, t, data);
    } else if tag == TAG_FUN_EXT {
      FunGap(i, k, t, data);
    } else if tag != TAG_COMPRESSED_ZLIB {
      LeafGap(tag, i + 1, k, t, data);
    }
  }

  lemma LeafGap(tag: byte, i: nat, k: nat, t: Term, data: seq<byte>)
    requires i <= |data| && DecodeLeaf(Checked, tag, i, data) == Ok((k, t))
             && DecodeLeaf(Exact, tag, i, data) != Ok((k, t))
    ensures NoTagAt(data, k) && i <= k
    ensures DecodeLeaf(Checked, tag, i, data[..k]).Err?
  {
    hide DecodeNewFunBody;
    if tag == TAG_NEW_FUN_EXT {
      NewFunGap(i, k, t, data);
    } else {
      LeafExact(tag, i, data);
    }
  }

  lemma {:induction false} TupleGap(w: nat, i: nat, k: nat, t: Term, data: seq<byte>)
    requires i < |data| && Decode(CHECKED, i, data) == Ok((k, t)) && Decode(STRICT, i, data) != Ok((k, t))
    requires data[i] == (if w == 1 then TAG_SMALL_TUPLE_EXT else TAG_LARGE_TUPLE_EXT) && (w == 1 || w == 4)
    ensures Gap(i, k, data)
    decreases Remaining(i, data), 0, 0
  {
    hide DecodeLeaf, DecodeSequence, Same;
    var other := data[..k];
    var n := UintAt(w, data, i + 1).value;
    Restrict(i, k, k, data);
    SameByte(data, i, k, other, i, i, i);
    SequenceGap(i + 1 + w, n, k, t.elements, data);
    SameByte(data, i, k, other, i, i + 1, i + 1);
    SameUint(w, data, i, k, other, i, i + 1, i + 1);
  }

  lemma {:induction false} ListGap(i: nat, k: nat, t: Term, data: seq<byte>)
    requires i < |data| && Decode(CHECKED, i, data) == Ok((k, t)) && Decode(STRICT, i, data) != Ok((k, t))
    requires data[i] == TAG_LIST_EXT
    ensures Gap(i, k, data)
    decreases Remaining(i, data), 0, 0
  {
    hide DecodeLeaf, DecodeSequence, ListTerm, Same;
    var other := data[..k];
    var n := UintAt(4, data, i + 1).value;
    var (m, es) := DecodeSequence(CHECKED, i + 5, n, data).value;
    var tail := Decode(CHECKED, m, data).value.1;
    Restrict(i, k, k, data);
    SameByte(data, i, k, other, i, i, i);
    SameUint(4, data, i, k, other, i, i + 1, i + 1);
    if DecodeSequence(STRICT, i + 5, n, data) == Ok((m, es)) {
      Restrict(i + 5, m, k, data);
      SequenceTransport(CHECKED, i + 5, n, m, es, data, i + 5, other);
      TermGap(m, k, tail, data);
    } else {
      SequenceGap(i + 5, n, m, es, data);
      NothingFollows(CHECKED, data, m);
    }
  }

  lemma {:induction false} MapGap(i: nat, k: nat, t: Term, data: seq<byte>)
    requires i < |data| && Decode(CHECKED, i, data) == Ok((k, t)) && Decode(STRICT, i, data) != Ok((k, t))
    requires data[i] == TAG_MAP_EXT
    ensures Gap(i, k, data)
    decreases Remaining(i, data), 0, 0
  {
    hide DecodeLeaf, DecodePairs, Same;
    var other := data[..k];
    var n := UintAt(4, data, i + 1).value;
    Restrict(i, k, k, data);
    SameByte(data, i, k, other, i, i, i);
    SameUint(4, data, i, k, other, i, i + 1, i + 1);
    PairsGap(i + 5, n, k, [], t.pairs, data);
  }

  lemma {:induction false} FunGap(i: nat, k: nat, t: Term, data: seq<byte>)
    requires i < |data| && Decode(CHECKED, i, data) == Ok((k, t)) && Decode(STRICT, i, data) != Ok((k, t))
    requires data[i] == TAG_FUN_EXT
    ensures Gap(i, k, data)
    decreases Remaining(i, data), 0, 0
  {
    hide DecodeLeaf, DecodeFunHeader, DecodeSequence, Same, Slice;
    var other := data[..k];
    var (u, n) := DecodeFunHeader(Checked, i + 1, data).value;
    var free := DecodeSequence(CHECKED, u, n, data).value.1;
    FunHeaderExact(i + 1, data);
    Restrict(i, k, k, data);
    SameByte(data, i, k, other, i, i, i);
    Restrict(i + 1, u, k, data);
    FunHeaderTransport(Checked, i + 1, u, n, data, i + 1, other);
    SequenceGap(u, n, k, free, data);
  }

  lemma {:induction false} SequenceGap(i: nat, n: nat, k: nat, es: seq<Term>, data: seq<byte>)
    requires DecodeSequence(CHECKED, i, n, data) == Ok((k, es)) && DecodeSequence(STRICT, i, n, data) != Ok((k, es))
    ensures i <= k && NoTagAt(data, k) && DecodeSequence(CHECKED, i, n, data[..k]).Err?
    decreases Remaining(i, data), 1, n
  {
    hide Decode, Same;
    var other := data[..k];
    var (m, e) := Decode(CHECKED, i, data).value;
    if Decode(STRICT, i, data) == Ok((m, e)) {
      SequenceGap(m, n - 1, k, es[1..], data);
      Restrict(i, m, k, data);
      Transport(CHECKED, i, m, e, data, i, other);
    } else {
      TermGap(i, m, e, data);
      NothingFollows(CHECKED, data, m);
    }
  }

  lemma {:induction false} PairsGap(i: nat, n: nat, k: nat, before: seq<Entry>, after: seq<Entry>, data: seq<byte>)
    requires DecodePairs(CHECKED, i, n, data, before) == Ok((k, after))
             && DecodePairs(STRICT, i, n, data, before) != Ok((k, after))
    ensures i <= k && NoTagAt(data, k) && DecodePairs(CHECKED, i, n, data[..k], before).Err?
    decreases Remaining(i, data), 1, n
  {
    hide Decode, Same, Store;
    var other := data[..k];
    var (v, key) := Decode(CHECKED, i, data).value;
    var (m, value) := Decode(CHECKED, v, data).value;
    if Decode(STRICT, i, data) != Ok((v, key)) {
      TermGap(i, v, key, data);
      NothingFollows(CHECKED, data, v);
    } else if Decode(STRICT, v, data) != Ok((m, value)) {
      TermGap(v, m, value, data);
      NothingFollows(CHECKED, data, m);
      Restrict(i, v, k, data);
      Transport(CHECKED, i, v, key, data, i, other);
    } else {
      PairsGap(m, n - 1, k, Store(before, key, value).value, after, data);
      Restrict(i, v, k, data);
      Transport(CHECKED, i, v, key, data, i, other);
      Restrict(v, m, k, data);
      Transport(CHECKED, v, m, value, data, v, other);
    }
  }

  // ---------- Main results

  /** A reading from i to k is repeated wherever its bytes stand in other data, at index j. */
  predicate Repeats(i: nat, k: nat, t: Term, data: seq<byte>, j: nat, other: seq<byte>) {
    Same(data, i, k, other, j) ==> i <= k && Decode(CHECKED, j, other) == Ok((j + (k - i), t))
  }

  /**
   A successful reading from i to k depends on data[i..k] alone, wherever those bytes
   stand, if and only if it meets no NEW_FUN_EXT with a size below 4.
   */
  lemma DependsOnConsumedBytes(i: nat, k: nat, t: Term, data: seq<byte>)
    requires Decode(CHECKED, i, data) == Ok((k, t))
    ensures Decode(STRICT, i, data) == Ok((k, t)) <==> forall j: nat, other :: Repeats(i, k, t, data, j, other)
  {
    hide Decode, Same;
    if Decode(STRICT, i, data) == Ok((k, t)) {
      forall j: nat, other
        ensures Repeats(i, k, t, data, j, other)
      {
        if Same(data, i, k, other, j) {
          Transport(CHECKED, i, k, t, data, j, other);
        }
      }
    } else {
      TermGap(i, k, t, data);
      Restrict(i, k, k, data);
      assert !Repeats(i, k, t, data, i, data[..k]);
    }
  }

  lemma NewFunTag(env: Env, i: nat, data: seq<byte>)
    requires i < |data| && data[i] == TAG_NEW_FUN_EXT
    ensures Decode(env, i, data) == DecodeNewFunBody(env.bounds, i + 1, data)
  {
    hide DecodeNewFunBody, DecodeSequence, DecodePairs, DecodeFunHeader, DecodeCompressed, UintAt;
  }

  /** A reading that is not local: the size field of 4 bytes is read, one byte is consumed. */
  lemma ShortFunctionIsNotLocal()
    ensures Decode(CHECKED, 0, [TAG_NEW_FUN_EXT, 0, 0, 0, 0]) == Ok((1, Function(TAG_NEW_FUN_EXT, [])))
    ensures Decode(CHECKED, 0, [TAG_NEW_FUN_EXT]).Err?
  {
    hide Decode;
    var data: seq<byte> := [TAG_NEW_FUN_EXT, 0, 0, 0, 0];
    assert data[1..5] == [0, 0, 0, 0] && U32([0, 0, 0, 0]) == 0;
    NewFunTag(CHECKED, 0, data);
    NewFunTag(CHECKED, 0, [TAG_NEW_FUN_EXT]);
  }
}
