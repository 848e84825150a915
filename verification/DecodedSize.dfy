/** Without compression a reading cannot produce more values than it consumes bytes. */
module DecodedSize {
  import opened Prelude
  import opened ErlangTags
  import opened ErlangTerms
  import opened ErlangDecoder

  /** A value without other values in it. */
  predicate Childless(t: Term) {
    !t.List? && !t.Tuple? && !t.OtpList? && !t.Dict?
  }

  lemma NodeBodiesAreChildless(b: Bounds, tag: byte, i: nat, data: seq<byte>)
    ensures var r := DecodePidBody(b, tag, i, data); r.Ok? ==> Childless(r.value.1)
    ensures var r := DecodePortBody(b, tag, i, data); r.Ok? ==> Childless(r.value.1)
    ensures var r := DecodeReferenceBody(b, tag, i, data); r.Ok? ==> Childless(r.value.1)
  {
    hide UintAt, Take, Slice, DecodeNode;
  }

  lemma OtherBodiesAreChildless(b: Bounds, w: nat, i: nat, data: seq<byte>)
    ensures w == 1 || w == 4 ==> var r := DecodeBignumBody(w, i, data); r.Ok? ==> Childless(r.value.1)
    ensures var r := DecodeNewFunBody(b, i, data); r.Ok? ==> Childless(r.value.1)
    ensures var r := DecodeExportBody(b, i, data); r.Ok? ==> Childless(r.value.1)
    ensures var r := DecodeBitsBody(b, i, data); r.Ok? ==> Childless(r.value.1)
  {
    hide UintAt, Take, Slice, DecodeNode, ByteAt;
  }

  lemma LeafNodes(b: Bounds, tag: byte, i: nat, data: seq<byte>)
    requires i <= |data| && DecodeLeaf(b, tag, i, data).Ok?
    ensures Nodes(DecodeLeaf(b, tag, i, data).value.1) == 1
  {
    hide Block, UintAt, I32At, Take, Slice, DecodeName, DecodePidBody, DecodePortBody, DecodeReferenceBody,
         DecodeBignumBody, DecodeNewFunBody, DecodeExportBody, DecodeBitsBody;
    NodeBodiesAreChildless(b, tag, i, data);
    OtherBodiesAreChildless(b, 1, i, data);
    OtherBodiesAreChildless(b, 4, i, data);
    assert Childless(DecodeLeaf(b, tag, i, data).value.1) || DecodeLeaf(b, tag, i, data).value.1 == List([]);
  }

  lemma {:induction false} NodesAppend(es: seq<Term>, t: Term)
    ensures NodesAll(es + [t]) == NodesAll(es) + Nodes(t)
  {
    hide Nodes;
    if es == [] {
      assert [] + [t] == [t] && [t][1..] == [];
    } else {
      assert (es + [t])[1..] == es[1..] + [t];
      NodesAppend(es[1..], t);
    }
  }

  lemma {:induction false} NodesReplaced(ps: seq<Entry>, j: nat, value: Term)
    requires j < |ps|
    ensures NodesPairs(ps[j := Entry(ps[j].key, value)]) <= NodesPairs(ps) + Nodes(value)
  {
    hide Nodes;
    var last := |ps| - 1;
    var qs := ps[j := Entry(ps[j].key, value)];
    if j == last {
      assert qs[..last] == ps[..last];
    } else {
      assert qs[..last] == ps[..last][j := Entry(ps[j].key, value)];
      NodesReplaced(ps[..last], j, value);
    }
  }

  lemma StoreNodes(ps: seq<Entry>, key: Term, value: Term)
    requires Store(ps, key, value).Ok?
    ensures NodesPairs(Store(ps, key, value).value) <= NodesPairs(ps) + Nodes(key) + Nodes(value)
  {
    hide SameKey, Hashable;
    var stored := StoredKey(key);
    var j := FindKey(ps, stored);
    assert Nodes(stored) == Nodes(key);
    if j < |ps| {
      NodesReplaced(ps, j, value);
    } else {
      var qs := ps + [Entry(stored, value)];
      assert qs[..|qs| - 1] == ps;
    }
  }

  /** The element counts a hostile input claims cannot blow up the result. */
  lemma {:induction false} NodesAtMostBytes(env: Env, i: nat, data: seq<byte>)
    requires env.depth == 0 && Decode(env, i, data).Ok?
    ensures var (k, t) := Decode(env, i, data).value; Nodes(t) <= k - i
    decreases Remaining(i, data), 0, 0
  {
    hide DecodeLeaf, UintAt, DecodeSequence, DecodePairs, DecodeFunHeader, Take, NodesAll, NodesPairs;
    var tag := data[i];
    if tag == TAG_SMALL_TUPLE_EXT {
      SequenceNodes(env, i + 2, data[i + 1], data);
    } else if tag == TAG_LARGE_TUPLE_EXT || tag == TAG_LIST_EXT {
      var n := UintAt(4, data, i + 1).value;
      SequenceNodes(env, i + 5, n, data);
      if tag == TAG_LIST_EXT {
        var (m, es) := DecodeSequence(env, i + 5, n, data).value;
        NodesAtMostBytes(env, m, data);
        NodesAppend(es, Decode(env, m, data).value.1);
      }
    } else if tag == TAG_MAP_EXT {
      PairsNodes(env, i + 5, UintAt(4, data, i + 1).value, data, []);
      assert NodesPairs([]) == 0 by { NoPairs(); }
    } else if tag != TAG_FUN_EXT && tag != TAG_COMPRESSED_ZLIB {
      LeafNodes(env.bounds, tag, i + 1, data);
    }
  }

  lemma NoPairs()
    ensures NodesPairs([]) == 0
  {
  }

  lemma {:induction false} SequenceNodes(env: Env, i: nat, n: nat, data: seq<byte>)
    requires env.depth == 0 && DecodeSequence(env, i, n, data).Ok?
    ensures var (k, es) := DecodeSequence(env, i, n, data).value; NodesAll(es) <= k - i
    decreases Remaining(i, data), 1, n
  {
    hide Decode, Nodes;
    if n > 0 {
      NodesAtMostBytes(env, i, data);
      var (m, t) := Decode(env, i, data).value;
      SequenceNodes(env, m, n - 1, data);
      var es := DecodeSequence(env, m, n - 1, data).value.1;
      assert ([t] + es)[1..] == es;
    }
  }

  lemma {:induction false} PairsNodes(env: Env, i: nat, n: nat, data: seq<byte>, before: seq<Entry>)
    requires env.depth == 0 && DecodePairs(env, i, n, data, before).Ok?
    ensures var (k, after) := DecodePairs(env, i, n, data, before).value;
            NodesPairs(after) <= NodesPairs(before) + (k - i)
    decreases Remaining(i, data), 1, n
  {
    hide Decode, Nodes, NodesPairs, Store;
    if n > 0 {
      NodesAtMostBytes(env, i, data);
      var (v, key) := Decode(env, i, data).value;
      NodesAtMostBytes(env, v, data);
      var (m, value) := Decode(env, v, data).value;
      StoreNodes(before, key, value);
      PairsNodes(env, m, n - 1, data, Store(before, key, value).value);
    }
  }
}
