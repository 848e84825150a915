/**
 The payload of a function is stored as it came and written as it is, so it must be one that the
 decoder takes. Here the external format says which payloads those are.
 */
module FunctionPayloads {
  import opened Prelude
  import opened ErlangTags
  import opened ErlangTerms
  import opened ErlangDecoder
  import opened NormalForm
  import opened DecoderLaws

  // ---------- What the format allows is read, wherever it stands

  lemma AtomReads(s: seq<byte>)
    requires AtomBytes(s)
    ensures DecodeNode(Exact, 0, s).Ok? && DecodeNode(Exact, 0, s).value.0 == |s|
  {
    hide ValidUtf8, U16;
    var w := AtomWidth(s[0]);
    if w > 0 {
      assert s[1..|s|][w..] == s[1 + w..];
      assert UintAt(w, s, 1) == Ok(|s| - 1 - w);
      assert s[1 + w..|s|] == s[1 + w..];
    }
  }

  lemma AtomAt(s: seq<byte>, i: nat, data: seq<byte>)
    requires AtomBytes(s) && Same(s, 0, |s|, data, i)
    ensures DecodeNode(Exact, i, data).Ok? && DecodeNode(Exact, i, data).value.0 == i + |s|
  {
    hide Same, DecodeNode, AtomBytes;
    AtomReads(s);
    NodeTransport(Exact, 0, |s|, DecodeNode(Exact, 0, s).value.1, s, i, data);
  }

  lemma PidReads(s: seq<byte>)
    requires PidBytes(s)
    ensures DecodePid(Exact, 0, s).Ok? && DecodePid(Exact, 0, s).value.0 == |s|
  {
    hide DecodeNode, AtomBytes, Same, Slice;
    var node := s[1..|s| - if s[0] == TAG_PID_EXT then 9 else 12];
    Embedded([s[0]], node, s[1 + |node|..]);
    assert [s[0]] + node + s[1 + |node|..] == s;
    AtomAt(node, 1, s);
  }

  lemma PidAt(s: seq<byte>, i: nat, data: seq<byte>)
    requires PidBytes(s) && Same(s, 0, |s|, data, i)
    ensures DecodePid(Exact, i, data).Ok? && DecodePid(Exact, i, data).value.0 == i + |s|
  {
    hide Same, DecodePidBody, AtomBytes;
    PidReads(s);
    SameByte(s, 0, |s|, data, i, 0, i);
    SameSub(s, 0, |s|, data, i, 1, |s|, i + 1);
    PidTransport(Exact, s[0], 1, |s|, DecodePid(Exact, 0, s).value.1, s, i + 1, data);
  }

  lemma IntegerAt(s: seq<byte>, i: nat, data: seq<byte>)
    requires IntegerBytes(s) && Same(s, 0, |s|, data, i)
    ensures DecodeInteger(i, data).Ok? && DecodeInteger(i, data).value.0 == i + |s|
  {
    hide Same;
    IntegerTransport(0, |s|, DecodeInteger(0, s).value.1, s, i, data);
  }

  lemma {:induction false} FreeAt(free: seq<seq<byte>>, i: nat, data: seq<byte>)
    requires forall k :: 0 <= k < |free| ==> TermBytes(free[k])
    requires Same(Joined(free), 0, |Joined(free)|, data, i)
    ensures var r := DecodeSequence(STRICT, i, |free|, data); r.Ok? && r.value.0 == i + |Joined(free)|
    decreases |free|
  {
    hide Decode, Same;
    if free != [] {
      var first, rest := free[0], Joined(free[1..]);
      PartsOf(first, rest, i, data);
      Transport(STRICT, 0, |first|, Decode(STRICT, 0, first).value.1, first, i, data);
      FreeAt(free[1..], i + |first|, data);
    }
  }

  lemma FunAt(parts: FunParts, i: nat, data: seq<byte>)
    requires parts.Legal() && Same(parts.Bytes(), 0, |parts.Bytes()|, data, i)
    ensures var r := DecodeFunHeader(Exact, i, data);
            && r.Ok? && r.value.1 == |parts.free|
            && var q := DecodeSequence(STRICT, r.value.0, |parts.free|, data); q.Ok? && q.value.0 == i + |parts.Bytes()|
  {
    hide Same, DecodePid, DecodeNode, DecodeInteger, DecodeSequence, AtomBytes, PidBytes, IntegerBytes,
         TermBytes, Joined,
         PackU32, U32;
    var n, free := PackU32(|parts.free|), Joined(parts.free);
    var d := parts.uniq + free;
    var c := parts.index + d;
    var b := parts.name + c;
    var a := parts.pid + b;
    PartsOf(n, a, i, data);
    SameBounds(n, 0, 4, data, i);
    SameSlice(n, 0, 4, data, i, 0, 4, i);
    UnpackPack32(|parts.free|);
    assert n[0..4] == n;
    var p := i + 4;
    PartsOf(parts.pid, b, p, data);
    PidAt(parts.pid, p, data);
    var m := p + |parts.pid|;
    PartsOf(parts.name, c, m, data);
    AtomAt(parts.name, m, data);
    var x := m + |parts.name|;
    PartsOf(parts.index, d, x, data);
    IntegerAt(parts.index, x, data);
    var u := x + |parts.index|;
    PartsOf(parts.uniq, free, u, data);
    IntegerAt(parts.uniq, u, data);
    FreeAt(parts.free, u + |parts.uniq|, data);
  }

  // ---------- What is read is what the format allows

  lemma AtomFound(i: nat, data: seq<byte>)
    requires DecodeNode(Exact, i, data).Ok?
    ensures var k := DecodeNode(Exact, i, data).value.0; i < k <= |data| && AtomBytes(data[i..k])
  {
    hide ValidUtf8, U16;
    var k := DecodeNode(Exact, i, data).value.0;
    var s := data[i..k];
    var w := AtomWidth(data[i]);
    if w > 0 {
      assert data[i + 1..i + 1 + w] == s[1..1 + w];
      assert data[i + 1 + w..k] == s[1 + w..];
    }
  }

  lemma PidFound(i: nat, data: seq<byte>)
    requires DecodePid(Exact, i, data).Ok?
    ensures var k := DecodePid(Exact, i, data).value.0; i < k <= |data| && PidBytes(data[i..k])
  {
    hide DecodeNode, AtomBytes, Slice;
    AtomFound(i + 1, data);
    var k := DecodePid(Exact, i, data).value.0;
    var n := DecodeNode(Exact, i + 1, data).value.0;
    assert data[i..k][1..n - i] == data[i + 1..n];
  }

  lemma IntegerFound(i: nat, data: seq<byte>)
    requires DecodeInteger(i, data).Ok?
    ensures var k := DecodeInteger(i, data).value.0; i < k <= |data| && IntegerBytes(data[i..k])
  {
  }

  lemma TermFound(i: nat, k: nat, t: Term, data: seq<byte>)
    requires Decode(STRICT, i, data) == Ok((k, t))
    ensures TermBytes(data[i..k])
  {
    hide Decode, Same;
    var s := data[i..k];
    forall x | i <= x < k
      ensures data[x] == s[x - i + 0]
    {
    }
    SameIntro(data, i, k, s, 0);
    Transport(STRICT, i, k, t, data, 0, s);
  }

  /** The bytes of each of n terms. */
  ghost function Pieces(i: nat, n: nat, data: seq<byte>): (parts: seq<seq<byte>>)
    requires DecodeSequence(STRICT, i, n, data).Ok? && i <= |data|
    ensures |parts| == n
    decreases n
  {
    if n == 0 then []
    else
      var m := Decode(STRICT, i, data).value.0;
      [data[i..m]] + Pieces(m, n - 1, data)
  }

  lemma {:induction false} FreeFound(i: nat, n: nat, data: seq<byte>)
    requires DecodeSequence(STRICT, i, n, data).Ok? && i <= |data|
    ensures var k, parts := DecodeSequence(STRICT, i, n, data).value.0, Pieces(i, n, data);
            k <= |data| && Joined(parts) == data[i..k] && forall j :: 0 <= j < n ==> TermBytes(parts[j])
    decreases n
  {
    hide Decode, TermBytes;
    if n > 0 {
      var (m, t) := Decode(STRICT, i, data).value;
      TermFound(i, m, t, data);
      FreeFound(m, n - 1, data);
      var rest := Pieces(m, n - 1, data);
      assert ([data[i..m]] + rest)[1..] == rest;
      var k := DecodeSequence(STRICT, i, n, data).value.0;
      assert data[i..m] + data[m..k] == data[i..k];
    }
  }

  lemma PackUnpack32(s: seq<byte>)
    requires |s| == 4
    ensures PackU32(U32(s)) == s
  {
    var a: int, b: int, c: int, d: int := s[0], s[1], s[2], s[3];
    var n := U32(s);
    assert n / 256 == a * 0x1_0000 + b * 256 + c && n % 256 == d;
    assert n / 0x1_0000 == a * 256 + b && n / 256 % 256 == c;
    assert n / 0x100_0000 == a && n / 0x1_0000 % 256 == b;
  }

  lemma Adjacent(data: seq<byte>, i: nat, j: nat, k: nat)
    requires i <= j <= k <= |data|
    ensures data[i..j] + data[j..k] == data[i..k]
  {
  }

  lemma FunFound(i: nat, data: seq<byte>) returns (parts: FunParts)
    requires DecodeFunHeader(Exact, i, data).Ok?
    requires var (u, n) := DecodeFunHeader(Exact, i, data).value; DecodeSequence(STRICT, u, n, data).Ok?
    ensures var (u, n) := DecodeFunHeader(Exact, i, data).value;
            var k := DecodeSequence(STRICT, u, n, data).value.0;
            parts.Legal() && i <= k <= |data| && parts.Bytes() == data[i..k]
  {
    hide DecodePid, DecodeNode, DecodeInteger, DecodeSequence, AtomBytes, PidBytes, IntegerBytes, TermBytes, Joined,
         PackU32, U32;
    var n := UintAt(4, data, i).value;
    PackUnpack32(data[i..i + 4]);
    PidFound(i + 4, data);
    var p := DecodePid(Exact, i + 4, data).value.0;
    AtomFound(p, data);
    var m := DecodeNode(Exact, p, data).value.0;
    IntegerFound(m, data);
    var x := DecodeInteger(m, data).value.0;
    IntegerFound(x, data);
    var u := DecodeInteger(x, data).value.0;
    FreeFound(u, n, data);
    var k := DecodeSequence(STRICT, u, n, data).value.0;
    parts := FunParts(data[i + 4..p], data[p..m], data[m..x], data[x..u], Pieces(u, n, data));
    Adjacent(data, x, u, k);
    Adjacent(data, m, x, k);
    Adjacent(data, p, m, k);
    Adjacent(data, i + 4, p, k);
    Adjacent(data, i, i + 4, k);
  }

  // ---------- Main result

  lemma FunctionTags(tag: byte, bytes: seq<byte>)
    ensures tag == TAG_NEW_FUN_EXT ==> Decode(STRICT, 0, [tag] + bytes) == DecodeNewFunBody(Exact, 1, [tag] + bytes)
    ensures tag == TAG_EXPORT_EXT ==> Decode(STRICT, 0, [tag] + bytes) == DecodeExportBody(Exact, 1, [tag] + bytes)
  {
    hide DecodeNewFunBody, DecodeExportBody, DecodeSequence, DecodePairs, DecodeFunHeader;
  }

  /** What it means that a function is read back: nothing else is behind its payload. */
  predicate ReadsBack(tag: byte, bytes: seq<byte>) {
    Decode(STRICT, 0, [tag] + bytes) == Ok((1 + |bytes|, Function(tag, bytes)))
  }

  lemma NewFunReadsBackIff(bytes: seq<byte>)
    ensures ReadsBack(TAG_NEW_FUN_EXT, bytes) <==> LegalFunction(TAG_NEW_FUN_EXT, bytes)
  {
    hide Decode, U32;
    FunctionTags(TAG_NEW_FUN_EXT, bytes);
    var data := [TAG_NEW_FUN_EXT as byte] + bytes;
    if |bytes| >= 4 {
      assert data[1..5] == bytes[..4];
      assert data[1..1 + |bytes|] == bytes;
    }
  }

  lemma ExportReadsBack(name: seq<byte>, function_: seq<byte>, arity: byte)
    requires AtomBytes(name) && AtomBytes(function_)
    ensures ReadsBack(TAG_EXPORT_EXT, name + (function_ + [TAG_SMALL_INTEGER_EXT, arity]))
  {
    hide Decode, Same, DecodeNode, AtomBytes;
    var tail: seq<byte> := [TAG_SMALL_INTEGER_EXT, arity];
    var bytes := name + (function_ + tail);
    var data := [TAG_EXPORT_EXT as byte] + bytes;
    FunctionTags(TAG_EXPORT_EXT, bytes);
    Embedded([TAG_EXPORT_EXT], bytes, []);
    assert [TAG_EXPORT_EXT as byte] + bytes + [] == data;
    PartsOf(name, function_ + tail, 1, data);
    PartsOf(function_, tail, 1 + |name|, data);
    AtomAt(name, 1, data);
    AtomAt(function_, 1 + |name|, data);
    var f := 1 + |name| + |function_|;
    assert data[f..] == tail && data[f] == tail[0] && data[f + 1] == tail[1];
    assert data[1..f + 2] == bytes;
  }

  lemma ExportIsLegal(bytes: seq<byte>)
    requires ReadsBack(TAG_EXPORT_EXT, bytes)
    ensures LegalFunction(TAG_EXPORT_EXT, bytes)
  {
    hide Decode, DecodeNode, AtomBytes;
    var data := [TAG_EXPORT_EXT as byte] + bytes;
    FunctionTags(TAG_EXPORT_EXT, bytes);
    AtomFound(1, data);
    var m := DecodeNode(Exact, 1, data).value.0;
    AtomFound(m, data);
    var f := DecodeNode(Exact, m, data).value.0;
    Adjacent(data, 1, m, f);
    Adjacent(data, 1, f, f + 2);
    assert data[f..f + 2] == [TAG_SMALL_INTEGER_EXT, data[f + 1]];
    assert data[1..f + 2] == bytes;
    assert bytes == data[1..m] + (data[m..f] + [TAG_SMALL_INTEGER_EXT, data[f + 1]]);
  }

  lemma FunReadsBack(parts: FunParts)
    requires parts.Legal()
    ensures ReadsBack(TAG_FUN_EXT, parts.Bytes())
  {
    hide DecodeFunHeader, DecodeSequence, Same, PidBytes, AtomBytes, IntegerBytes, TermBytes, Joined;
    var bytes := parts.Bytes();
    var data := [TAG_FUN_EXT as byte] + bytes;
    Embedded([TAG_FUN_EXT], bytes, []);
    assert [TAG_FUN_EXT as byte] + bytes + [] == data;
    FunAt(parts, 1, data);
    assert data[1..1 + |bytes|] == bytes;
  }

  lemma FunIsLegal(bytes: seq<byte>)
    requires ReadsBack(TAG_FUN_EXT, bytes)
    ensures LegalFunction(TAG_FUN_EXT, bytes)
  {
    hide DecodeFunHeader, DecodeSequence;
    var data := [TAG_FUN_EXT as byte] + bytes;
    var parts := FunFound(1, data);
    assert data[1..1 + |bytes|] == bytes;
  }

  /** A function is read back if and only if the external format allows its payload behind its tag. */
  lemma FunctionReadsBackIff(tag: int, bytes: seq<byte>)
    requires tag == TAG_NEW_FUN_EXT || tag == TAG_EXPORT_EXT || tag == TAG_FUN_EXT
    ensures ReadsBack(tag, bytes) <==> LegalFunction(tag, bytes)
  {
    hide ReadsBack, AtomBytes;
    if tag == TAG_NEW_FUN_EXT {
      NewFunReadsBackIff(bytes);
    } else if tag == TAG_EXPORT_EXT {
      if LegalFunction(tag, bytes) {
        var name, function_, arity :|
          AtomBytes(name) && AtomBytes(function_) && bytes == name + (function_ + [TAG_SMALL_INTEGER_EXT, arity]);
        ExportReadsBack(name, function_, arity);
      }
      if ReadsBack(tag, bytes) {
        ExportIsLegal(bytes);
      }
    } else {
      if LegalFunction(tag, bytes) {
        var parts: FunParts :| parts.Legal() && bytes == parts.Bytes();
        FunReadsBack(parts);
      }
      if ReadsBack(tag, bytes) {
        FunIsLegal(bytes);
      }
    }
  }
}
