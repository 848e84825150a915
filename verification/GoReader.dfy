/** The Go decoder as it runs: a mutable reader and an absolute index that must stay in step. */
module GoReader {
  import opened Prelude
  import opened ErlangTags
  import opened ErlangDecoder
  import opened GoDecoder
  import Integers

  /** The part of bytes.Reader that the decoder uses. */
  class Reader {
    const data: seq<byte>
    var pos: nat

    constructor (data: seq<byte>, pos: nat)
      ensures this.data == data && this.pos == pos
    {
      this.data := data;
      this.pos := pos;
    }

    method ReadByte() returns (r: Result<byte>)
      modifies this
      ensures r == ByteAt(data, old(pos))
      ensures pos == if r.Ok? then old(pos) + 1 else old(pos)
    {
      if pos < |data| {
        r := Ok(data[pos]);
        pos := pos + 1;
      } else {
        r := Err(MissingData);
      }
    }

    /** binary.Read of an unsigned integer of w bytes: all of them or an error. */
    method ReadUint(w: nat) returns (r: Result<nat>)
      requires w == 1 || w == 2 || w == 4
      modifies this
      ensures r == UintAt(w, data, old(pos))
      ensures pos == if r.Ok? then old(pos) + w else old(pos)
    {
      if pos + w <= |data| {
        r := Ok(Uint(data[pos..pos + w]));
        pos := pos + w;
      } else {
        r := Err(MissingData);
      }
    }

    /** Fill a slice of n bytes; near the end only part of it is filled, the rest stays zero. */
    method Read(n: nat) returns (r: Result<seq<byte>>)
      modifies this
      ensures old(pos) >= |data| ==> r.Err? && pos == old(pos)
      ensures old(pos) < |data| ==> r.Ok? && |r.value| == n
      ensures old(pos) < |data| ==> pos == if old(pos) + n <= |data| then old(pos) + n else |data|
      ensures old(pos) + n <= |data| && r.Ok? ==> r.value == data[old(pos)..old(pos) + n]
    {
      if |data| <= pos {
        return Err(MissingData);
      }
      var copied := Slice(data, pos, n);
      r := Ok(copied + seq(n - |copied|, _ => 0));
      pos := pos + |copied|;
    }

    /** Read n bytes at an offset without moving; an error unless all are there. */
    method ReadAt(n: nat, off: nat) returns (r: Result<seq<byte>>)
      ensures r == if off < |data| && off + n <= |data| then Ok(data[off..off + n]) else Err(MissingData)
    {
      if off < |data| && off + n <= |data| {
        r := Ok(data[off..off + n]);
      } else {
        r := Err(MissingData);
      }
    }

    /** Move n bytes on; nothing stops it at the end. */
    method Seek(n: nat)
      modifies this
      ensures pos == old(pos) + n
    {
      pos := pos + n;
    }
  }

  /** The index is the position, or the reader is used up and the index is past the end. */
  predicate Synced(i: nat, pos: nat, size: nat) {
    i == pos || (pos == size && size < i)
  }

  /** What a step of the decoder returns against the grammar at the same index. */
  predicate Reads<T(==)>(k: nat, r: Result<T>, spec: Result<(nat, T)>, size: nat) {
    && (spec.Ok? ==> r == Ok(spec.value.1) && k == spec.value.0)
    && (r.Ok? && k <= size ==> spec == Ok((k, r.value)))
  }

  /** Length field of w bytes, then a Read of that many bytes. */
  method ReadBlock(w: nat, i: nat, reader: Reader) returns (k: nat, r: Result<seq<byte>>)
    requires w == 1 || w == 2 || w == 4
    requires Synced(i, reader.pos, |reader.data|)
    modifies reader
    ensures old(reader.pos) <= reader.pos
    ensures r.Ok? ==> i < k && Synced(k, reader.pos, |reader.data|)
    ensures Reads(k, r, Block(Checked, w, i, reader.data), |reader.data|)
  {
    var j := reader.ReadUint(w);
    if j.Err? {
      return i, Err(j.error);
    }
    k := i + w;
    if j.value > 0 {
      r := reader.Read(j.value);
      if r.Err? {
        return k, r;
      }
    } else {
      r := Ok([]);
    }
    k := k + j.value;
  }

  /** A Read of n > 0 bytes with the index moved by n. */
  method ReadField(n: nat, i: nat, reader: Reader) returns (r: Result<seq<byte>>)
    requires n > 0 && Synced(i, reader.pos, |reader.data|)
    modifies reader
    ensures old(reader.pos) <= reader.pos
    ensures r.Ok? ==> Synced(i + n, reader.pos, |reader.data|)
    ensures r.Ok? ==> i < |reader.data| && |r.value| == n
    ensures i + n <= |reader.data| ==> r == Ok(reader.data[i..i + n])
  {
    r := reader.Read(n);
  }

  /** `binaryToAtom` */
  method BinaryToAtom(i: nat, reader: Reader) returns (k: nat, r: Result<NodeName>)
    requires Synced(i, reader.pos, |reader.data|)
    modifies reader
    ensures old(reader.pos) <= reader.pos
    ensures r.Ok? ==> i < k && k == reader.pos
    ensures Reads(k, r, NodeGrammar(i, reader.data), |reader.data|)
  {
    hide UintAt, Slice, Take;
    var tag := reader.ReadByte();
    if tag.Err? {
      return i, Err(tag.error);
    }
    k := i + 1;
    if tag.value == TAG_ATOM_EXT || tag.value == TAG_ATOM_UTF8_EXT {
      var j := reader.ReadUint(2);
      if j.Err? {
        return k, Err(j.error);
      }
      var value := reader.ReadAt((2 + j.value) % 0x1_0000, k);
      if value.Err? {
        return k, Err(value.error);
      }
      k := k + 2;
      reader.Seek(j.value);
      return k + j.value, Ok(NodeName(tag.value, value.value));
    } else if tag.value == TAG_SMALL_ATOM_EXT || tag.value == TAG_SMALL_ATOM_UTF8_EXT {
      var j := reader.ReadUint(1);
      if j.Err? {
        return k, Err(j.error);
      }
      var value := reader.ReadAt((1 + j.value) % 0x100, k);
      if value.Err? {
        return k, Err(value.error);
      }
      k := k + 1;
      reader.Seek(j.value);
      return k + j.value, Ok(NodeName(tag.value, value.value));
    } else if tag.value == TAG_ATOM_CACHE_REF {
      var value := reader.ReadByte();
      if value.Err? {
        return k, Err(value.error);
      }
      return k + 1, Ok(NodeName(tag.value, [value.value]));
    } else {
      return k, Err(InvalidAtomTag);
    }
  }

  /** Node, id, serial and creation, after the tag of a pid. */
  method BinaryToPidBody(tag: byte, i: nat, reader: Reader) returns (k: nat, r: Result<GoTerm>)
    requires Synced(i, reader.pos, |reader.data|)
    modifies reader
    ensures old(reader.pos) <= reader.pos
    ensures r.Ok? ==> i < k && Synced(k, reader.pos, |reader.data|)
    ensures Reads(k, r, PidGrammar(tag, i, reader.data), |reader.data|)
  {
    hide NodeGrammar;
    var n, node := BinaryToAtom(i, reader);
    if node.Err? {
      return n, Err(node.error);
    }
    var id := ReadField(4, n, reader);
    if id.Err? {
      return n, Err(id.error);
    }
    var serial := ReadField(4, n + 4, reader);
    if serial.Err? {
      return n + 4, Err(serial.error);
    }
    var width := if tag == TAG_NEW_PID_EXT then 4 else 1;
    var creation := ReadField(width, n + 8, reader);
    if creation.Err? {
      return n + 8, Err(creation.error);
    }
    k, r := n + 8 + width, Ok(Pid(node.value, id.value, serial.value, creation.value));
  }

  /** NEW_PORT_EXT, PORT_EXT and REFERENCE_EXT */
  method BinaryToPort(tag: byte, i: nat, reader: Reader) returns (k: nat, r: Result<GoTerm>)
    requires Synced(i, reader.pos, |reader.data|)
    modifies reader
    ensures old(reader.pos) <= reader.pos
    ensures r.Ok? ==> i < k && Synced(k, reader.pos, |reader.data|)
    ensures Reads(k, r, PortGrammar(tag, i, reader.data), |reader.data|)
  {
    hide NodeGrammar;
    var n, node := BinaryToAtom(i, reader);
    if node.Err? {
      return n, Err(node.error);
    }
    var id := ReadField(4, n, reader);
    if id.Err? {
      return n, Err(id.error);
    }
    var width := if tag == TAG_NEW_PORT_EXT then 4 else 1;
    var creation := ReadField(width, n + 4, reader);
    if creation.Err? {
      return n + 4, Err(creation.error);
    }
    k := n + 4 + width;
    r := Ok(if tag == TAG_REFERENCE_EXT then Reference(node.value, id.value, creation.value)
            else Port(node.value, id.value, creation.value));
  }

  /** NEWER_REFERENCE_EXT and NEW_REFERENCE_EXT */
  method BinaryToReference(tag: byte, i: nat, reader: Reader) returns (k: nat, r: Result<GoTerm>)
    requires Synced(i, reader.pos, |reader.data|)
    modifies reader
    ensures old(reader.pos) <= reader.pos
    ensures r.Ok? ==> i < k && Synced(k, reader.pos, |reader.data|)
    ensures Reads(k, r, ReferenceGrammar(tag, i, reader.data), |reader.data|)
  {
    hide NodeGrammar, UintAt;
    var words := reader.ReadUint(2);
    if words.Err? {
      return i, Err(words.error);
    }
    var j := words.value * 4 % 0x1_0000;
    var n, node := BinaryToAtom(i + 2, reader);
    if node.Err? {
      return n, Err(node.error);
    }
    var width := if tag == TAG_NEWER_REFERENCE_EXT then 4 else 1;
    var creation := ReadField(width, n, reader);
    if creation.Err? {
      return n, Err(creation.error);
    }
    k := n + width;
    var id: seq<byte> := [];
    if j > 0 {
      var field := ReadField(j, k, reader);
      if field.Err? {
        return k, Err(field.error);
      }
      id := field.value;
    }
    k, r := k + j, Ok(Reference(node.value, id, creation.value));
  }

  /** SMALL_BIG_EXT and LARGE_BIG_EXT */
  method BinaryToBignum(w: nat, start: nat, reader: Reader) returns (k: nat, r: Result<GoTerm>)
    requires w == 1 || w == 4
    requires Synced(start, reader.pos, |reader.data|)
    modifies reader
    ensures old(reader.pos) <= reader.pos
    ensures r.Ok? ==> start < k && k == reader.pos
    ensures Reads(k, r, BignumGrammar(w, start, reader.data), |reader.data|)
  {
    hide UintAt, Integers.Value;
    var count := reader.ReadUint(w);
    if count.Err? {
      return start, Err(count.error);
    }
    var j := count.value;
    var i := start + w;
    var sign := reader.ReadByte();
    if sign.Err? {
      return i, Err(sign.error);
    }
    var bignum := ReadDigits(i, j, reader);
    if bignum.Err? {
      return i, Err(bignum.error);
    }
    reader.Seek(j);
    var magnitude: int := bignum.value;
    k, r := i + 1 + j, Ok(BigInt(if sign.value == 1 then -magnitude else magnitude));
  }

  /** The digit loop: absolute reads from the highest digit down; i is the index of the sign. */
  method ReadDigits(i: nat, j: nat, reader: Reader) returns (r: Result<nat>)
    requires i < |reader.data|
    ensures r == if j != 0 && |reader.data| <= i + j then Err(MissingData)
                 else Ok(Integers.Value(reader.data[i + 1..i + 1 + j]))
  {
    var data := reader.data;
    var bignum: nat := 0;
    for bignumIndex := 0 to j
      invariant bignumIndex > 0 ==> i + j < |data|
      invariant i + j < |data| ==> bignum == Integers.Value(data[i + 1 + j - bignumIndex..i + 1 + j])
      invariant bignumIndex == 0 ==> bignum == 0
    {
      var digit := reader.ReadAt(1, i + j - bignumIndex);
      if digit.Err? {
        return Err(digit.error);
      }
      ghost var low := data[i + j - bignumIndex..i + 1 + j];
      assert low[1..] == data[i + 1 + j - bignumIndex..i + 1 + j];
      bignum := bignum * 256 + digit.value[0] as int;
    }
    r := Ok(bignum);
  }

  /** EXPORT_EXT: the bytes are read again from the index where the tag ended. */
  method BinaryToExport(i: nat, reader: Reader) returns (k: nat, r: Result<GoTerm>)
    requires Synced(i, reader.pos, |reader.data|)
    modifies reader
    ensures old(reader.pos) <= reader.pos
    ensures r.Ok? ==> i < k && k == reader.pos
    ensures Reads(k, r, ExportGrammar(i, reader.data), |reader.data|)
  {
    hide NodeGrammar;
    var m, module_ := BinaryToAtom(i, reader);
    if module_.Err? {
      return m, Err(module_.error);
    }
    var f, function_ := BinaryToAtom(m, reader);
    if function_.Err? {
      return f, Err(function_.error);
    }
    var arityTag := reader.ReadByte();
    if arityTag.Err? {
      return f, Err(arityTag.error);
    }
    if arityTag.value != TAG_SMALL_INTEGER_EXT {
      return f, Err(InvalidSmallIntegerTag);
    }
    var arity := reader.ReadByte();
    if arity.Err? {
      return f + 1, Err(arity.error);
    }
    k := f + 2;
    var value := reader.ReadAt(k - i, i);
    if value.Err? {
      return k, Err(value.error);
    }
    r := Ok(Function(TAG_EXPORT_EXT, value.value));
  }

  /** `binaryToInteger` */
  method BinaryToInteger(i: nat, reader: Reader) returns (k: nat, r: Result<GoTerm>)
    requires Synced(i, reader.pos, |reader.data|)
    modifies reader
    ensures old(reader.pos) <= reader.pos
    ensures r.Ok? ==> i < k && k == reader.pos
    ensures Reads(k, r, IntegerGrammar(i, reader.data), |reader.data|)
  {
    var tag := reader.ReadByte();
    if tag.Err? {
      return i, Err(tag.error);
    }
    if tag.value == TAG_SMALL_INTEGER_EXT {
      var value := reader.ReadByte();
      if value.Err? {
        return i + 1, Err(value.error);
      }
      return i + 2, Ok(Uint8(value.value));
    } else if tag.value == TAG_INTEGER_EXT {
      var value := ReadInt32(reader);
      if value.Err? {
        return i + 1, Err(value.error);
      }
      return i + 5, Ok(Int32(value.value));
    } else {
      return i + 1, Err(InvalidIntegerTag);
    }
  }

  /** binary.Read of an int32 */
  method ReadInt32(reader: Reader) returns (r: Result<int>)
    modifies reader
    ensures r == I32At(reader.data, old(reader.pos))
    ensures reader.pos == if r.Ok? then old(reader.pos) + 4 else old(reader.pos)
  {
    if reader.pos + 4 <= |reader.data| {
      r := Ok(I32(reader.data[reader.pos..reader.pos + 4]));
      reader.Seek(4);
    } else {
      r := Err(MissingData);
    }
  }

  /** What FUN_EXT holds before its free variables. */
  method BinaryToFunHeader(i: nat, reader: Reader) returns (k: nat, r: Result<nat>)
    requires Synced(i, reader.pos, |reader.data|)
    modifies reader
    ensures old(reader.pos) <= reader.pos
    ensures r.Ok? ==> i < k && k == reader.pos
    ensures Reads(k, r, FunHeaderGrammar(i, reader.data), |reader.data|)
  {
    hide UintAt, PidGrammar, NodeGrammar, IntegerGrammar;
    var numfree := reader.ReadUint(4);
    if numfree.Err? {
      return i, Err(numfree.error);
    }
    var tag := reader.ReadByte();
    if tag.Err? {
      return i + 4, Err(tag.error);
    }
    if tag.value != TAG_NEW_PID_EXT && tag.value != TAG_PID_EXT {
      return i + 5, Err(InvalidPidTag);
    }
    var p, pid := BinaryToPidBody(tag.value, i + 5, reader);
    if pid.Err? {
      return p, Err(pid.error);
    }
    var m, module_ := BinaryToAtom(p, reader);
    if module_.Err? {
      return m, Err(module_.error);
    }
    var x, index := BinaryToInteger(m, reader);
    if index.Err? {
      return x, Err(index.error);
    }
    var u, uniq := BinaryToInteger(x, reader);
    if uniq.Err? {
      return u, Err(uniq.error);
    }
    k, r := u, Ok(numfree.value);
  }

  /** The branches of `binaryToTerms` without nested terms; i is the index after the tag. */
  method BinaryToLeaf(tag: byte, i: nat, reader: Reader) returns (k: nat, r: Result<GoTerm>)
    requires i == reader.pos <= |reader.data|
    modifies reader
    ensures old(reader.pos) <= reader.pos
    ensures r.Ok? ==> i <= k && Synced(k, reader.pos, |reader.data|)
    ensures Reads(k, r, LeafGrammar(tag, i, reader.data), |reader.data|)
  {
    hide Block, UintAt, PidGrammar, PortGrammar, ReferenceGrammar, BignumGrammar, ExportGrammar;
    if BlockWidth(tag) > 0 {
      var bytes;
      k, bytes := ReadBlock(BlockWidth(tag), i, reader);
      r := if bytes.Ok? then Ok(BlockTerm(tag, bytes.value)) else Err(bytes.error);
    } else if tag == TAG_NEW_FLOAT_EXT {
      if |reader.data| < i + 8 {
        return i, Err(MissingData);
      }
      reader.Seek(8);
      k, r := i + 8, Ok(Float64(reader.data[i..i + 8]));
    } else if tag == TAG_BIT_BINARY_EXT {
      k, r := BinaryToBits(i, reader);
    } else if tag == TAG_ATOM_CACHE_REF || tag == TAG_SMALL_INTEGER_EXT {
      var value := reader.ReadByte();
      k := i + 1;
      r := if value.Err? then Err(value.error)
           else Ok(if tag == TAG_ATOM_CACHE_REF then AtomCacheRef(value.value) else Uint8(value.value));
    } else if tag == TAG_INTEGER_EXT {
      var value := ReadInt32(reader);
      k := i + 4;
      r := if value.Err? then Err(value.error) else Ok(Int32(value.value));
    } else if tag == TAG_NEW_PORT_EXT || tag == TAG_REFERENCE_EXT || tag == TAG_PORT_EXT {
      k, r := BinaryToPort(tag, i, reader);
    } else if tag == TAG_NEW_PID_EXT || tag == TAG_PID_EXT {
      k, r := BinaryToPidBody(tag, i, reader);
    } else if tag == TAG_NIL_EXT {
      k, r := i, Ok(List([], false));
    } else if tag == TAG_SMALL_BIG_EXT {
      k, r := BinaryToBignum(1, i, reader);
    } else if tag == TAG_LARGE_BIG_EXT {
      k, r := BinaryToBignum(4, i, reader);
    } else if tag == TAG_EXPORT_EXT {
      k, r := BinaryToExport(i, reader);
    } else if tag == TAG_NEWER_REFERENCE_EXT || tag == TAG_NEW_REFERENCE_EXT {
      k, r := BinaryToReference(tag, i, reader);
    } else if tag == TAG_FLOAT_EXT {
      k, r := i, Err(FloatText);
    } else if tag == TAG_COMPRESSED_ZLIB {
      k, r := i, Err(ZlibError);
    } else {
      k, r := i, Err(InvalidTag);
    }
  }

  /** BIT_BINARY_EXT */
  method BinaryToBits(i: nat, reader: Reader) returns (k: nat, r: Result<GoTerm>)
    requires i == reader.pos <= |reader.data|
    modifies reader
    ensures old(reader.pos) <= reader.pos
    ensures r.Ok? ==> i <= k && Synced(k, reader.pos, |reader.data|)
    ensures Reads(k, r, LeafGrammar(TAG_BIT_BINARY_EXT, i, reader.data), |reader.data|)
  {
    hide UintAt;
    var j := reader.ReadUint(4);
    if j.Err? {
      return i, Err(j.error);
    }
    var bits := reader.ReadByte();
    if bits.Err? {
      return i + 4, Err(bits.error);
    }
    k := i + 5;
    var value: seq<byte> := [];
    if j.value > 0 {
      var field := ReadField(j.value, k, reader);
      if field.Err? {
        return k, Err(field.error);
      }
      value := field.value;
    }
    k, r := k + j.value, Ok(Binary(value, bits.value));
  }

  /** `binaryToTermSequence` */
  method {:induction false} BinaryToTermSequence(start: nat, length: nat, reader: Reader)
    returns (k: nat, r: Result<seq<GoTerm>>)
    requires Synced(start, reader.pos, |reader.data|)
    modifies reader
    ensures old(reader.pos) <= reader.pos
    ensures r.Ok? ==> start <= k && Synced(k, reader.pos, |reader.data|)
    ensures Reads(k, r, SequenceGrammar(start, length, reader.data), |reader.data|)
    decreases Remaining(reader.pos, reader.data), 1
  {
    hide Grammar;
    ghost var data := reader.data;
    ghost var whole := SequenceGrammar(start, length, data);
    var sequence: seq<GoTerm> := [];
    k := start;
    assert whole == After([], whole) by {
      assert whole.Ok? ==> [] + whole.value.1 == whole.value.1;
    }
    for lengthIndex := 0 to length
      invariant old(reader.pos) <= reader.pos
      invariant start <= k && Synced(k, reader.pos, |data|)
      invariant k <= |data| || lengthIndex == 0 ==>
                whole == After(sequence, SequenceGrammar(k, length - lengthIndex, data))
      invariant |data| < k && lengthIndex > 0 ==> whole.Err?
    {
      var n, element := BinaryToTerms(k, reader);
      if element.Err? {
        return n, Err(element.error);
      }
      ghost var rest := SequenceGrammar(n, length - lengthIndex - 1, data);
      if n <= |data| {
        assert SequenceGrammar(k, length - lengthIndex, data) == After([element.value], rest);
        AfterStep(sequence, element.value, rest);
      }
      sequence := sequence + [element.value];
      k := n;
    }
    assert sequence + [] == sequence;
    r := Ok(sequence);
  }

  /** `binaryToTerms`: every successful step leaves index and reader in step. */
  method {:induction false} BinaryToTerms(i: nat, reader: Reader) returns (k: nat, r: Result<GoTerm>)
    requires Synced(i, reader.pos, |reader.data|)
    modifies reader
    ensures old(reader.pos) <= reader.pos
    ensures r.Ok? ==> i < |reader.data| && i < k && Synced(k, reader.pos, |reader.data|)
    ensures Reads(k, r, Grammar(i, reader.data), |reader.data|)
    decreases Remaining(reader.pos, reader.data), 0
  {
    hide LeafGrammar, UintAt, FunHeaderGrammar, SequenceGrammar, ListTermOf;
    var tag := reader.ReadByte();
    if tag.Err? {
      return i, Err(tag.error);
    }
    if tag.value == TAG_SMALL_TUPLE_EXT || tag.value == TAG_LARGE_TUPLE_EXT {
      var w := if tag.value == TAG_SMALL_TUPLE_EXT then 1 else 4;
      var length := reader.ReadUint(w);
      if length.Err? {
        return i + 1, Err(length.error);
      }
      var es;
      k, es := BinaryToTermSequence(i + 1 + w, length.value, reader);
      r := if es.Ok? then Ok(Tuple(es.value)) else Err(es.error);
    } else if tag.value == TAG_LIST_EXT {
      k, r := BinaryToList(i + 1, reader);
    } else if tag.value == TAG_MAP_EXT {
      var length := reader.ReadUint(4);
      k := i + 5;
      r := if length.Err? then Err(length.error)
           else if length.value == 0 then Ok(EmptyMap) else Err(UnhashableKey);
    } else if tag.value == TAG_FUN_EXT {
      k, r := BinaryToFun(i + 1, reader);
    } else {
      k, r := BinaryToLeaf(tag.value, i + 1, reader);
    }
  }

  /** LIST_EXT; i is the index after the tag. */
  method {:induction false} BinaryToList(i: nat, reader: Reader) returns (k: nat, r: Result<GoTerm>)
    requires 0 < i == reader.pos <= |reader.data| && reader.data[i - 1] == TAG_LIST_EXT
    modifies reader
    ensures old(reader.pos) <= reader.pos
    ensures r.Ok? ==> i < k && Synced(k, reader.pos, |reader.data|)
    ensures Reads(k, r, Grammar(i - 1, reader.data), |reader.data|)
    decreases Remaining(reader.pos, reader.data), 2
  {
    hide LeafGrammar, UintAt, SequenceGrammar;
    var length := reader.ReadUint(4);
    if length.Err? {
      return i, Err(length.error);
    }
    var n, es := BinaryToTermSequence(i + 4, length.value, reader);
    if es.Err? {
      return n, Err(es.error);
    }
    var tail;
    k, tail := BinaryToTerms(n, reader);
    if tail.Err? {
      return k, Err(tail.error);
    }
    var improper := !(tail.value.List? && |tail.value.elements| == 0);
    r := Ok(List(if improper then es.value + [tail.value] else es.value, improper));
  }

  /** FUN_EXT; i is the index after the tag. */
  method {:induction false} BinaryToFun(i: nat, reader: Reader) returns (k: nat, r: Result<GoTerm>)
    requires 0 < i == reader.pos <= |reader.data| && reader.data[i - 1] == TAG_FUN_EXT
    modifies reader
    ensures old(reader.pos) <= reader.pos
    ensures r.Ok? ==> i < k && Synced(k, reader.pos, |reader.data|)
    ensures Reads(k, r, Grammar(i - 1, reader.data), |reader.data|)
    decreases Remaining(reader.pos, reader.data), 2
  {
    hide LeafGrammar, UintAt, SequenceGrammar, FunHeaderGrammar;
    var u, numfree := BinaryToFunHeader(i, reader);
    if numfree.Err? {
      return u, Err(numfree.error);
    }
    var free;
    k, free := BinaryToTermSequence(u, numfree.value, reader);
    if free.Err? {
      return k, Err(free.error);
    }
    var value := reader.ReadAt(k - i, i);
    r := if value.Err? then Err(value.error) else Ok(Function(TAG_FUN_EXT, value.value));
  }

  /** The Go reading of a whole message: one term that ends exactly where the data ends. */
  function WholeMessage(data: seq<byte>): Option<GoTerm> {
    if |data| <= 1 || data[0] != TAG_VERSION then None
    else match Grammar(1, data)
      case Ok((k, t)) => if k == |data| then Some(t) else None
      case Err(_) => None
  }

  /** `BinaryToTerm` accepts exactly consumed input, with every byte read in full, and nothing else. */
  method BinaryToTerm(data: seq<byte>) returns (r: Result<GoTerm>)
    ensures r.Ok? <==> WholeMessage(data).Some?
    ensures r.Ok? ==> WholeMessage(data) == Some(r.value)
  {
    hide Grammar;
    var size := |data|;
    if size <= 1 {
      return Err(NullInput);
    }
    var reader := new Reader(data, 0);
    var version := reader.ReadByte();
    if version != Ok(TAG_VERSION) {
      return Err(InvalidVersion);
    }
    var i, term := BinaryToTerms(1, reader);
    if term.Err? {
      return term;
    }
    if i != size {
      return Err(UnparsedData);
    }
    r := term;
  }
}
