/** On which terms the Python decoder and the Go decoder agree. */
module Interoperation {
  import opened Prelude
  import opened ErlangTags
  import opened ErlangTerms
  import opened ErlangDecoder
  import opened NormalForm
  import ErlangEncoder
  import EncodingLaws
  import G = GoDecoder

  // ---------- What Go makes of a term

  /**
   The length field and the name, as much of them as Go takes: it counts both together in as
   many bits as the length field has.
   */
  predicate ReadsName(n: G.NodeName, name: seq<byte>, tag: byte, smallTag: byte) {
    || (n.tag == tag && |name| < U16_LIMIT
        && n.bytes == (PackU16(|name|) + name)[..(2 + |name|) % 0x1_0000])
    || (n.tag == smallTag && |name| < 256 && n.bytes == ([|name|] + name)[..(1 + |name|) % 0x100])
  }

  predicate ReadsNode(a: AtomValue, n: G.NodeName) {
    match a
    case CacheRef(id) => n.tag == TAG_ATOM_CACHE_REF && |n.bytes| == 1 && n.bytes[0] == id
    case Utf8(text) => ReadsName(n, text, TAG_ATOM_UTF8_EXT, TAG_SMALL_ATOM_UTF8_EXT)
    case Latin1(name) => ReadsName(n, name, TAG_ATOM_EXT, TAG_SMALL_ATOM_EXT)
  }

  /** The same term in Python and in Go; of a node name what Go takes of it. */
  predicate ReadsAs(t: Term, g: G.GoTerm)
    decreases t, 1
  {
    match t
    case Integer(n) => g == G.BigInt(n) || g == G.Int32(n) || (g.Uint8? && g.number == n)
    case Float(bits) => g == G.Float64(bits)
    case Boolean(flag) => g == G.Atom(if flag then TRUE_NAME else FALSE_NAME)
    case Atom(Latin1(name)) => g == G.Atom(name)
    case Atom(Utf8(text)) => g == G.AtomUtf8(text)
    case Atom(CacheRef(id)) => g.AtomCacheRef? && g.id == id
    case ByteString(s) => g == G.GoString(s)
    case List(es) => g.List? && !g.improper && ReadsAsAll(es, g.elements)
    case OtpList(es, improper) => es != [] && g.List? && g.improper == improper && ReadsAsAll(es, g.elements)
    case Tuple(es) => g.Tuple? && ReadsAsAll(es, g.elements)
    case Dict(ps) => ps == [] && g == G.EmptyMap
    case Binary(s, bits) => g.Binary? && g.value == s && g.lastBits == bits
    case Function(tag, s) => g.Function? && g.tag == tag && g.value == s
    case Pid(node, id, serial, creation) =>
      g.Pid? && ReadsNode(node, g.node) && g.pid == id && g.serial == serial && g.creation == creation
    case Port(node, id, creation) => g.Port? && ReadsNode(node, g.node) && g.port == id && g.creation == creation
    case Reference(node, id, creation) =>
      g.Reference? && ReadsNode(node, g.node) && g.ids == id && g.creation == creation
    case Text(_) => false
    case Undefined => false
  }

  predicate ReadsAsAll(ts: seq<Term>, gs: seq<G.GoTerm>)
    decreases ts, 0
  {
    |ts| == |gs| && (ts != [] ==> ReadsAs(ts[0], gs[0]) && ReadsAsAll(ts[1..], gs[1..]))
  }

  /** A node name arrives whole unless length field and name together overflow the bits of the length field. */
  lemma NodeIsWholeIff(name: seq<byte>, n: G.NodeName, tag: byte, smallTag: byte)
    requires ReadsName(n, name, tag, smallTag) && tag != smallTag
    ensures n.tag == tag ==> (n.bytes == PackU16(|name|) + name <==> |name| < 65534)
    ensures n.tag == smallTag ==> (n.bytes == [|name|] + name <==> |name| < 255)
  {
    hide PackU16;
    if n.tag == tag && |name| < 65534 {
      assert (2 + |name|) % 0x1_0000 == 2 + |name|;
    }
    if n.tag == smallTag && |name| < 255 {
      assert (1 + |name|) % 0x100 == 1 + |name|;
    }
  }

  // ---------- Terms that both can hold

  /** Go cannot store into a map, and it keeps the size of a reference in 16 bits. */
  predicate Shared(t: Term)
    decreases t, 1
  {
    match t
    case List(es) => SharedAll(es)
    case Tuple(es) => SharedAll(es)
    case OtpList(es, _) => SharedAll(es)
    case Dict(ps) => ps == []
    case Reference(_, id, _) => |id| < U16_LIMIT
    case _ => true
  }

  predicate SharedAll(ts: seq<Term>)
    decreases ts, 0
  {
    ts != [] ==> Shared(ts[0]) && SharedAll(ts[1..])
  }

  /** No function but those of EXPORT_EXT: the others have lemmas of their own. */
  predicate Plain(t: Term)
    decreases t, 1
  {
    match t
    case List(es) => PlainAll(es)
    case Tuple(es) => PlainAll(es)
    case OtpList(es, _) => PlainAll(es)
    case Function(tag, _) => tag == TAG_EXPORT_EXT
    case _ => true
  }

  predicate PlainAll(ts: seq<Term>)
    decreases ts, 0
  {
    ts != [] ==> Plain(ts[0]) && PlainAll(ts[1..])
  }

  /** What is not shared is never read as the same term. */
  lemma {:induction false} OnlySharedIsSame(t: Term, g: G.GoTerm)
    requires ReadsAs(t, g)
    ensures Shared(t)
    decreases t, 1
  {
    hide ReadsNode, ReadsAsAll, SharedAll;
    match t
    case List(es) => OnlySharedAreReadsAs(es, g.elements);
    case Tuple(es) => OnlySharedAreReadsAs(es, g.elements);
    case OtpList(es, _) => OnlySharedAreReadsAs(es, g.elements);
    case _ =>
  }

  lemma {:induction false} OnlySharedAreReadsAs(ts: seq<Term>, gs: seq<G.GoTerm>)
    requires ReadsAsAll(ts, gs)
    ensures SharedAll(ts)
    decreases ts, 0
  {
    hide ReadsAs, Shared;
    if ts != [] {
      OnlySharedIsSame(ts[0], gs[0]);
      OnlySharedAreReadsAs(ts[1..], gs[1..]);
    }
  }

  // ---------- Terms inside of terms

  lemma PackUnpack16(s: seq<byte>)
    requires |s| == 2
    ensures PackU16(U16(s)) == s
  {
    var a: int, b: int := s[0], s[1];
    assert (a * 256 + b) / 256 == a && (a * 256 + b) % 256 == b;
  }

  /** The bytes behind the tag of a name whose length has two bytes, or one. */
  lemma NameBytes(w: nat, i: nat, data: seq<byte>)
    requires w == 1 || w == 2
    requires Block(Checked, w, i, data).Ok?
    ensures var (k, name) := Block(Checked, w, i, data).value;
            && k == i + w + |name| && k <= |data|
            && (w == 1 ==> |name| < 256 && data[i..k] == [|name|] + name)
            && (w == 2 ==> |name| < U16_LIMIT && data[i..k] == PackU16(|name|) + name)
            && UintAt(w, data, i) == Ok(|name|)
  {
    hide U16, PackU16;
    var (k, name) := Block(Checked, w, i, data).value;
    assert name == data[i + w..k];
    assert data[i..k] == data[i..i + w] + data[i + w..k];
    if w == 2 {
      PackUnpack16(data[i..i + 2]);
    } else {
      assert data[i..i + 1] == [data[i]];
    }
  }

  /** The first m bytes from i on, of which there are more. */
  lemma FirstBytes(data: seq<byte>, i: nat, k: nat, m: nat)
    requires i + m <= k <= |data|
    ensures Take(Checked, data, i, m) == Ok(data[i..k][..m])
  {
    assert data[i..k][..m] == data[i..i + m];
  }

  lemma NodeInGo(i: nat, data: seq<byte>)
    requires DecodeNode(Checked, i, data).Ok?
    ensures var (k, a) := DecodeNode(Checked, i, data).value;
            var g := G.NodeGrammar(i, data);
            g.Ok? && g.value.0 == k && ReadsNode(a, g.value.1)
  {
    hide ValidUtf8, U16, PackU16, Block, UintAt, Slice, Take;
    var w := AtomWidth(data[i]);
    if w > 0 {
      NameBytes(w, i + 1, data);
      var (k, name) := Block(Checked, w, i + 1, data).value;
      var m := (w + |name|) % (if w == 2 then 0x1_0000 else 0x100);
      assert m <= w + |name|;
      FirstBytes(data, i + 1, k, m);
    }
  }

  lemma PidInGo(tag: byte, i: nat, data: seq<byte>)
    requires DecodePidBody(Checked, tag, i, data).Ok?
    ensures var (k, t) := DecodePidBody(Checked, tag, i, data).value;
            var g := G.PidGrammar(tag, i, data);
            g.Ok? && g.value.0 == k && ReadsAs(t, g.value.1)
  {
    hide DecodeNode, G.NodeGrammar, ReadsNode, Slice;
    NodeInGo(i, data);
  }

  lemma PortInGo(tag: byte, i: nat, data: seq<byte>)
    requires DecodePortBody(Checked, tag, i, data).Ok?
    ensures var (k, t) := DecodePortBody(Checked, tag, i, data).value;
            var g := G.PortGrammar(tag, i, data);
            g.Ok? && g.value.0 == k && ReadsAs(t, g.value.1)
  {
    hide DecodeNode, G.NodeGrammar, ReadsNode, Slice;
    NodeInGo(i, data);
  }

  lemma ReferenceInGo(tag: byte, i: nat, data: seq<byte>)
    requires DecodeReferenceBody(Checked, tag, i, data).Ok?
    requires Shared(DecodeReferenceBody(Checked, tag, i, data).value.1)
    ensures var (k, t) := DecodeReferenceBody(Checked, tag, i, data).value;
            var g := G.ReferenceGrammar(tag, i, data);
            g.Ok? && g.value.0 == k && ReadsAs(t, g.value.1)
  {
    hide DecodeNode, G.NodeGrammar, ReadsNode, Slice, UintAt;
    NodeInGo(i + 2, data);
    assert UintAt(2, data, i).value * 4 < U16_LIMIT;
  }

  lemma ExportInGo(i: nat, data: seq<byte>)
    requires DecodeExportBody(Checked, i, data).Ok?
    ensures var (k, t) := DecodeExportBody(Checked, i, data).value;
            G.ExportGrammar(i, data) == Ok((k, G.Function(TAG_EXPORT_EXT, t.bytes)))
  {
    hide DecodeNode, G.NodeGrammar, ReadsNode, Slice;
    NodeInGo(i, data);
    NodeInGo(DecodeNode(Checked, i, data).value.0, data);
  }

  lemma LeafInGo(tag: byte, i: nat, data: seq<byte>)
    requires i <= |data| && DecodeLeaf(Checked, tag, i, data).Ok?
    requires Shared(DecodeLeaf(Checked, tag, i, data).value.1) && Plain(DecodeLeaf(Checked, tag, i, data).value.1)
    ensures var (k, t) := DecodeLeaf(Checked, tag, i, data).value;
            var g := G.LeafGrammar(tag, i, data);
            g.Ok? && g.value.0 == k && ReadsAs(t, g.value.1)
  {
    hide Block, UintAt, Slice, ValidUtf8, ReadsNode, DecodePidBody, DecodePortBody, DecodeReferenceBody,
         DecodeExportBody, DecodeBignumBody, G.PidGrammar, G.PortGrammar, G.ReferenceGrammar, G.ExportGrammar;
    if tag == TAG_NEW_PID_EXT || tag == TAG_PID_EXT {
      PidInGo(tag, i, data);
    } else if tag == TAG_NEW_PORT_EXT || tag == TAG_REFERENCE_EXT || tag == TAG_PORT_EXT {
      PortInGo(tag, i, data);
    } else if tag == TAG_NEWER_REFERENCE_EXT || tag == TAG_NEW_REFERENCE_EXT {
      ReferenceInGo(tag, i, data);
    } else if tag == TAG_EXPORT_EXT {
      ExportInGo(i, data);
      IsExport(i, data);
    } else if tag == TAG_SMALL_BIG_EXT {
      IsInteger(1, i, data);
    } else if tag == TAG_LARGE_BIG_EXT {
      IsInteger(4, i, data);
    }
  }

  lemma IsInteger(w: nat, i: nat, data: seq<byte>)
    requires w == 1 || w == 4
    ensures DecodeBignumBody(w, i, data).Ok? ==> DecodeBignumBody(w, i, data).value.1.Integer?
  {
  }

  lemma IsExport(i: nat, data: seq<byte>)
    ensures DecodeExportBody(Checked, i, data).Ok? ==>
              DecodeExportBody(Checked, i, data).value.1.Function?
              && DecodeExportBody(Checked, i, data).value.1.tag == TAG_EXPORT_EXT
  {
    hide DecodeNode;
  }

  // ---------- Whole terms

  lemma {:induction false} ReadsAsSnoc(ts: seq<Term>, t: Term, gs: seq<G.GoTerm>, g: G.GoTerm)
    requires ReadsAsAll(ts, gs) && ReadsAs(t, g)
    ensures ReadsAsAll(ts + [t], gs + [g])
  {
    hide ReadsAs;
    if ts == [] {
      assert ts + [t] == [t] && gs + [g] == [g];
    } else {
      ReadsAsSnoc(ts[1..], t, gs[1..], g);
      assert (ts + [t])[1..] == ts[1..] + [t] && (gs + [g])[1..] == gs[1..] + [g];
    }
  }

  lemma {:induction false} SharedSnoc(ts: seq<Term>, t: Term)
    requires SharedAll(ts + [t]) && PlainAll(ts + [t])
    ensures SharedAll(ts) && Shared(t) && PlainAll(ts) && Plain(t)
  {
    hide Shared, Plain;
    if ts == [] {
      assert (ts + [t])[0] == t;
    } else {
      assert (ts + [t])[1..] == ts[1..] + [t];
      SharedSnoc(ts[1..], t);
    }
  }

  lemma ListInGo(es: seq<Term>, tail: Term, gs: seq<G.GoTerm>, g: G.GoTerm)
    requires ReadsAsAll(es, gs) && ReadsAs(tail, g)
    ensures ReadsAs(ListTerm(es, tail), G.ListTermOf(gs, g))
  {
    if tail != List([]) {
      ReadsAsSnoc(es, tail, gs, g);
    }
  }

  lemma ByteIsUint(i: nat, data: seq<byte>)
    ensures i < |data| ==> UintAt(1, data, i) == Ok(data[i])
  {
  }

  /** Go has no other meaning for the tags whose terms hold no terms. */
  lemma LeafTags(tag: byte, i: nat, data: seq<byte>)
    requires 0 < i <= |data| && data[i - 1] == tag
    requires tag !in {TAG_SMALL_TUPLE_EXT, TAG_LARGE_TUPLE_EXT, TAG_LIST_EXT, TAG_MAP_EXT, TAG_FUN_EXT}
    ensures G.Grammar(i - 1, data) == G.LeafGrammar(tag, i, data)
    ensures tag != TAG_COMPRESSED_ZLIB ==> Decode(CHECKED, i - 1, data) == DecodeLeaf(Checked, tag, i, data)
  {
    hide G.LeafGrammar, DecodeLeaf;
  }

  lemma {:induction false} PairsStay(i: nat, length: nat, data: seq<byte>, ps: seq<Entry>)
    requires DecodePairs(CHECKED, i, length, data, ps).Ok?
    ensures |DecodePairs(CHECKED, i, length, data, ps).value.1| >= |ps|
    ensures length > 0 ==> DecodePairs(CHECKED, i, length, data, ps).value.1 != []
    ensures length == 0 ==> DecodePairs(CHECKED, i, length, data, ps).value.0 == i
    decreases length
  {
    hide Decode, SameKey, Hashable, StoredKey;
    if length > 0 {
      var (v, key) := Decode(CHECKED, i, data).value;
      var (n, value) := Decode(CHECKED, v, data).value;
      PairsStay(n, length - 1, data, Store(ps, key, value).value);
    }
  }

  lemma {:induction false} SequenceInGo(i: nat, length: nat, data: seq<byte>)
    requires DecodeSequence(CHECKED, i, length, data).Ok?
    requires SharedAll(DecodeSequence(CHECKED, i, length, data).value.1)
    requires PlainAll(DecodeSequence(CHECKED, i, length, data).value.1)
    ensures var (k, ts) := DecodeSequence(CHECKED, i, length, data).value;
            var g := G.SequenceGrammar(i, length, data);
            g.Ok? && g.value.0 == k && ReadsAsAll(ts, g.value.1)
    decreases Remaining(i, data), 1, length
  {
    hide Decode, G.Grammar, ReadsAs, Shared, Plain;
    if length > 0 {
      var (n, t) := Decode(CHECKED, i, data).value;
      var ts := DecodeSequence(CHECKED, n, length - 1, data).value.1;
      assert ([t] + ts)[1..] == ts;
      TermInGo(i, data);
      SequenceInGo(n, length - 1, data);
      var g, gs := G.Grammar(i, data).value.1, G.SequenceGrammar(n, length - 1, data).value.1;
      assert ([g] + gs)[1..] == gs;
    }
  }

  lemma SharedParts(es: seq<Term>, tail: Term)
    requires Shared(ListTerm(es, tail)) && Plain(ListTerm(es, tail))
    ensures SharedAll(es) && Shared(tail) && PlainAll(es) && Plain(tail)
  {
    if tail != List([]) {
      SharedSnoc(es, tail);
    }
  }

  lemma {:induction false} TermInGo(i: nat, data: seq<byte>)
    requires Decode(CHECKED, i, data).Ok?
    requires Shared(Decode(CHECKED, i, data).value.1) && Plain(Decode(CHECKED, i, data).value.1)
    ensures var (k, t) := Decode(CHECKED, i, data).value;
            var g := G.Grammar(i, data);
            g.Ok? && g.value.0 == k && ReadsAs(t, g.value.1)
    decreases Remaining(i, data), 0, 0
  {
    hide DecodeLeaf, G.LeafGrammar, DecodeSequence, DecodePairs, G.SequenceGrammar, UintAt, Slice, DecodeFunHeader,
         ListTerm, G.ListTermOf;
    var tag := data[i];
    if tag == TAG_SMALL_TUPLE_EXT {
      ByteIsUint(i + 1, data);
      SequenceInGo(i + 2, data[i + 1], data);
    } else if tag == TAG_LARGE_TUPLE_EXT {
      SequenceInGo(i + 5, UintAt(4, data, i + 1).value, data);
    } else if tag == TAG_LIST_EXT {
      var (n, es) := DecodeSequence(CHECKED, i + 5, UintAt(4, data, i + 1).value, data).value;
      var (k, t) := Decode(CHECKED, n, data).value;
      SharedParts(es, t);
      SequenceInGo(i + 5, UintAt(4, data, i + 1).value, data);
      TermInGo(n, data);
      ListInGo(es, t, G.SequenceGrammar(i + 5, UintAt(4, data, i + 1).value, data).value.1, G.Grammar(n, data).value.1);
    } else if tag == TAG_MAP_EXT {
      PairsStay(i + 5, UintAt(4, data, i + 1).value, data, []);
    } else if tag != TAG_FUN_EXT && tag != TAG_COMPRESSED_ZLIB {
      LeafTags(tag, i + 1, data);
      LeafInGo(tag, i + 1, data);
    }
  }

  // ---------- Main results

  /** Go accepts the bytes that Python consumed, consumes the same and reads the same term. */
  predicate Agree(i: nat, data: seq<byte>, k: nat, t: Term) {
    var g := G.Grammar(i, data);
    g.Ok? && g.value.0 == k && ReadsAs(t, g.value.1)
  }

  /**
   Where Python's decoder accepts an uncompressed term without NEW_FUN_EXT and FUN_EXT, Go's
   agrees if and only if no non-empty map and no reference of 64 KiB or more is inside.
   */
  lemma GoAgreesIff(i: nat, k: nat, t: Term, data: seq<byte>)
    requires Decode(CHECKED, i, data) == Ok((k, t)) && Plain(t)
    ensures Agree(i, data, k, t) <==> Shared(t)
  {
    hide Decode, G.Grammar, ReadsAs, Shared, Plain;
    if Shared(t) {
      TermInGo(i, data);
    }
    if Agree(i, data, k, t) {
      OnlySharedIsSame(t, G.Grammar(i, data).value.1);
    }
  }

  /**
   NEW_FUN_EXT: Python counts the size field with the rest, Go does not. When each accepts, and
   that where both do Go is 4 bytes ahead; so they never agree.
   */
  lemma NewFunNeverAgrees(i: nat, data: seq<byte>)
    requires i < |data| && data[i] == TAG_NEW_FUN_EXT
    ensures var size := UintAt(4, data, i + 1);
            var p, g := Decode(CHECKED, i, data), G.Grammar(i, data);
            && (p.Ok? <==> size.Ok? && i + 1 + size.value <= |data|)
            && (g.Ok? <==> size.Ok? && i + 5 + size.value <= |data|)
            && (g.Ok? ==> p.Ok? && g.value.0 == p.value.0 + 4)
    ensures Decode(CHECKED, i, data).Ok? ==>
              var (k, t) := Decode(CHECKED, i, data).value; !Agree(i, data, k, t)
  {
    hide UintAt, DecodeSequence, DecodePairs, G.SequenceGrammar, ReadsAs;
    LeafTags(TAG_NEW_FUN_EXT, i + 1, data);
  }

  /** FUN_EXT: Go reads the same function whenever it agrees on the free variables. */
  lemma FunInGo(i: nat, data: seq<byte>)
    requires i < |data| && data[i] == TAG_FUN_EXT && Decode(CHECKED, i, data).Ok?
    requires var (u, n) := DecodeFunHeader(Checked, i + 1, data).value;
             var free := DecodeSequence(CHECKED, u, n, data).value.1;
             SharedAll(free) && PlainAll(free)
    ensures var (k, t) := Decode(CHECKED, i, data).value; Agree(i, data, k, t)
  {
    hide DecodeSequence, G.SequenceGrammar, DecodeFunHeader, G.FunHeaderGrammar, SharedAll, PlainAll, ReadsAsAll;
    FunHeaderInGo(i + 1, data);
    var (u, n) := DecodeFunHeader(Checked, i + 1, data).value;
    SequenceInGo(u, n, data);
  }

  lemma FunHeaderInGo(i: nat, data: seq<byte>)
    requires DecodeFunHeader(Checked, i, data).Ok?
    ensures G.FunHeaderGrammar(i, data) == DecodeFunHeader(Checked, i, data)
  {
    hide UintAt, DecodePidBody, DecodeNode, G.NodeGrammar, G.PidGrammar, ReadsNode, ReadsAs;
    PidInGo(data[i + 4], i + 5, data);
    var p := DecodePid(Checked, i + 4, data).value.0;
    NodeInGo(p, data);
    var m := DecodeNode(Checked, p, data).value.0;
    IntegerInGo(m, data);
    IntegerInGo(DecodeInteger(m, data).value.0, data);
  }

  lemma IntegerInGo(i: nat, data: seq<byte>)
    ensures DecodeInteger(i, data).Ok? ==>
              G.IntegerGrammar(i, data).Ok? && G.IntegerGrammar(i, data).value.0 == DecodeInteger(i, data).value.0
  {
  }

  /** Go reads what Python writes, wherever it stands, if and only if it can hold it. */
  lemma GoReadsPythonIff(p: seq<byte>, t: Term, s: seq<byte>)
    requires WellFormed(t) && ErlangEncoder.Encode(t).Ok? && Plain(Norm(t))
    ensures var e := ErlangEncoder.Encode(t).value;
            Agree(|p|, p + e + s, |p| + |e|, Norm(t)) <==> Shared(Norm(t))
  {
    hide Decode, G.Grammar, ErlangEncoder.Encode, Norm, WellFormed, ReadsAs, Shared, Plain, Agree;
    var e := ErlangEncoder.Encode(t).value;
    EncodingLaws.ReadsBackAnywhere(CHECKED, p, t, s);
    GoAgreesIff(|p|, |p| + |e|, Norm(t), p + e + s);
  }
}
