/**
 The source checks no slice. It compares the final cursor with the data size instead.
 Here that one comparison is shown to refuse exactly what checking every slice would refuse.
 */
module BoundsChecking {
  import opened Prelude
  import opened ErlangTags
  import opened ErlangTerms
  import opened ErlangDecoder

  /**
   A reading with every slice checked against one with none checked: what the first
   accepts the second reads alike, and what the second reads without leaving the data
   the first accepts.
   */
  predicate Agree<T(==)>(checked: Result<(nat, T)>, deferred: Result<(nat, T)>, data: seq<byte>) {
    && (checked.Ok? ==> deferred == checked)
    && (deferred.Ok? && deferred.value.0 <= |data| ==> checked == deferred)
  }

  lemma BlockAgree(w: nat, i: nat, data: seq<byte>)
    requires w == 1 || w == 2 || w == 4
    ensures Agree(Block(Checked, w, i, data), Block(Deferred, w, i, data), data)
  {
  }

  lemma NodeAgree(i: nat, data: seq<byte>)
    ensures Agree(DecodeNode(Checked, i, data), DecodeNode(Deferred, i, data), data)
  {
    hide Block, ValidUtf8;
    if i < |data| && AtomWidth(data[i]) > 0 {
      BlockAgree(AtomWidth(data[i]), i + 1, data);
    }
  }

  lemma PidAgree(tag: byte, i: nat, data: seq<byte>)
    ensures Agree(DecodePidBody(Checked, tag, i, data), DecodePidBody(Deferred, tag, i, data), data)
  {
    hide DecodeNode, Slice;
    NodeAgree(i, data);
  }

  lemma PortAgree(tag: byte, i: nat, data: seq<byte>)
    ensures Agree(DecodePortBody(Checked, tag, i, data), DecodePortBody(Deferred, tag, i, data), data)
  {
    hide DecodeNode, Slice;
    NodeAgree(i, data);
  }

  lemma ReferenceAgree(tag: byte, i: nat, data: seq<byte>)
    ensures Agree(DecodeReferenceBody(Checked, tag, i, data), DecodeReferenceBody(Deferred, tag, i, data), data)
  {
    hide DecodeNode, Slice, UintAt;
    NodeAgree(i + 2, data);
  }

  lemma ExportAgree(i: nat, data: seq<byte>)
    ensures Agree(DecodeExportBody(Checked, i, data), DecodeExportBody(Deferred, i, data), data)
  {
    hide DecodeNode, Slice;
    NodeAgree(i, data);
    if DecodeNode(Deferred, i, data).Ok? {
      NodeAgree(DecodeNode(Deferred, i, data).value.0, data);
    }
  }

  lemma LeafAgree(tag: byte, i: nat, data: seq<byte>)
    requires i <= |data|
    ensures Agree(DecodeLeaf(Checked, tag, i, data), DecodeLeaf(Deferred, tag, i, data), data)
  {
    hide Block, Slice, ValidUtf8, UintAt, DecodePortBody, DecodePidBody, DecodeBignumBody, DecodeExportBody,
         DecodeReferenceBody;
    PortAgree(tag, i, data);
    PidAgree(tag, i, data);
    ExportAgree(i, data);
    ReferenceAgree(tag, i, data);
    BlockAgree(1, i, data);
    BlockAgree(2, i, data);
    BlockAgree(4, i, data);
  }

  lemma FunHeaderAgree(i: nat, data: seq<byte>)
    ensures Agree(DecodeFunHeader(Checked, i, data), DecodeFunHeader(Deferred, i, data), data)
  {
    hide UintAt, DecodePidBody, DecodeNode, DecodeInteger;
    if i + 4 < |data| {
      PidAgree(data[i + 4], i + 5, data);
    }
    if DecodePid(Deferred, i + 4, data).Ok? {
      NodeAgree(DecodePid(Deferred, i + 4, data).value.0, data);
    }
  }

  /** `_binary_to_term`, checked and unchecked. */
  lemma {:induction false} TermAgree(env: Env, i: nat, data: seq<byte>)
    ensures Agree(Decode(env.(bounds := Checked), i, data), Decode(env.(bounds := Deferred), i, data), data)
    decreases env.depth, Remaining(i, data), 0, 0
  {
    hide DecodeLeaf, DecodeSequence, DecodePairs, DecodeFunHeader, UintAt, Slice, ListTerm;
    if i < |data| {
      var deferred := env.(bounds := Deferred);
      LeafAgree(data[i], i + 1, data);
      if data[i] == TAG_SMALL_TUPLE_EXT && i + 1 < |data| {
        SequenceAgree(env, i + 2, data[i + 1], data);
      } else if data[i] == TAG_FUN_EXT {
        FunHeaderAgree(i + 1, data);
        var header := DecodeFunHeader(Deferred, i + 1, data);
        if header.Ok? {
          SequenceAgree(env, header.value.0, header.value.1, data);
        }
      } else if data[i] == TAG_COMPRESSED_ZLIB {
        CompressedAgree(env, i + 1, data);
      } else if UintAt(4, data, i + 1).Ok? {
        var length := UintAt(4, data, i + 1).value;
        SequenceAgree(env, i + 5, length, data);
        PairsAgree(env, i + 5, length, data, []);
        if data[i] == TAG_LIST_EXT && DecodeSequence(deferred, i + 5, length, data).Ok? {
          TermAgree(env, DecodeSequence(deferred, i + 5, length, data).value.0, data);
        }
      }
    }
  }

  lemma {:induction false} CompressedAgree(env: Env, i: nat, data: seq<byte>)
    ensures Agree(DecodeCompressed(env.(bounds := Checked), i, data),
                  DecodeCompressed(env.(bounds := Deferred), i, data), data)
    decreases env.depth, Remaining(i, data), 0, 0
  {
    hide Decode, UintAt;
    if env.depth > 0 && UintAt(4, data, i).Ok? {
      var plain := env.inflate(data[i + 4..]);
      if plain.Some? {
        TermAgree(env.(depth := env.depth - 1), 0, plain.value);
      }
    }
  }

  lemma {:induction false} SequenceAgree(env: Env, i: nat, n: nat, data: seq<byte>)
    ensures Agree(DecodeSequence(env.(bounds := Checked), i, n, data),
                  DecodeSequence(env.(bounds := Deferred), i, n, data), data)
    decreases env.depth, Remaining(i, data), 1, n
  {
    hide Decode;
    if n > 0 {
      TermAgree(env, i, data);
      var first := Decode(env.(bounds := Deferred), i, data);
      if first.Ok? {
        SequenceAgree(env, first.value.0, n - 1, data);
      }
    }
  }

  lemma {:induction false} PairsAgree(env: Env, i: nat, n: nat, data: seq<byte>, before: seq<Entry>)
    ensures Agree(DecodePairs(env.(bounds := Checked), i, n, data, before),
                  DecodePairs(env.(bounds := Deferred), i, n, data, before), data)
    decreases env.depth, Remaining(i, data), 1, n
  {
    hide Decode, Store;
    if n > 0 {
      TermAgree(env, i, data);
      var key := Decode(env.(bounds := Deferred), i, data);
      if key.Ok? {
        TermAgree(env, key.value.0, data);
        var value := Decode(env.(bounds := Deferred), key.value.0, data);
        if value.Ok? && Store(before, key.value.1, value.value.1).Ok? {
          PairsAgree(env, value.value.0, n - 1, data, Store(before, key.value.1, value.value.1).value);
        }
      }
    }
  }
}
