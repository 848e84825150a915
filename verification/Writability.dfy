/** Which terms `_term_to_binary` can write, and in how many bytes and which form. */
module Writability {
  import opened Prelude
  import opened ErlangTags
  import opened ErlangTerms
  import opened ErlangEncoder
  import opened EncodingLaws
  import Integers

  // ---------- Sizes and ranges

  predicate WritableAtom(a: AtomValue) {
    match a
    case CacheRef(id) => 0 <= id <= 255
    case Utf8(text) => |text| <= 65535
    case Latin1(name) => |name| <= 65535
  }

  /** All the format asks of a term: lengths, counts and numbers that fit their fields. */
  predicate Writable(t: Term)
    decreases t, 1
  {
    match t
    case ByteString(s) => |s| < U32_LIMIT
    case Text(s) => |s| < U32_LIMIT
    case List(es) => |es| < U32_LIMIT && WritableAll(es)
    case Tuple(es) => |es| < U32_LIMIT && WritableAll(es)
    case OtpList(es, _) => |es| < U32_LIMIT && WritableAll(es)
    case Dict(ps) => |ps| < U32_LIMIT && WritablePairs(ps)
    case Boolean(_) => true
    case Undefined => true
    case Float(_) => true
    case Integer(n) => |Integers.Digits(Integers.Magnitude(n))| < U32_LIMIT
    case Atom(a) => WritableAtom(a)
    case Binary(bytes, lastBits) => |bytes| < U32_LIMIT && 0 <= lastBits <= 255
    case Function(tag, _) => 0 <= tag <= 255
    case Reference(node, id, creation) =>
      WritableAtom(node) && |id| / 4 <= 65535 && (|id| / 4 == 0 || |creation| == 1 || |creation| == 4)
    case Port(node, _, creation) => WritableAtom(node) && (|creation| == 1 || |creation| == 4)
    case Pid(node, _, _, creation) => WritableAtom(node) && (|creation| == 1 || |creation| == 4)
  }

  predicate WritableAll(ts: seq<Term>)
    decreases ts, 0
  {
    ts != [] ==> Writable(ts[0]) && WritableAll(ts[1..])
  }

  predicate WritablePairs(ps: seq<Entry>)
    decreases ps, 0
  {
    ps != [] ==> WritableEntry(ps[0]) && WritablePairs(ps[1..])
  }

  predicate WritableEntry(p: Entry)
    decreases p, 0
  {
    Writable(p.key) && Writable(p.value)
  }

  function AtomSize(a: AtomValue): nat {
    match a
    case CacheRef(_) => 2
    case Utf8(text) => |text| + if |text| <= 255 then 2 else 3
    case Latin1(name) => |name| + if |name| <= 255 then 2 else 3
  }

  function IntegerSize(n: int): nat {
    if 0 <= n <= 255 then 2
    else if -0x8000_0000 <= n <= 0x7fff_ffff then 5
    else
      var digits := |Integers.Digits(Integers.Magnitude(n))|;
      digits + if digits <= 255 then 3 else 6
  }

  function StringSize(s: seq<byte>): nat {
    if s == [] then 1 else if |s| <= 65535 then 3 + |s| else 6 + 2 * |s|
  }

  /** How many bytes a term takes. The shortest form that fits is the one that is used. */
  function Size(t: Term): nat
    decreases t, 1
  {
    match t
    case ByteString(s) => StringSize(s)
    case Text(s) => StringSize(s)
    case List(es) => if es == [] then 1 else 6 + SizeAll(es)
    case Tuple(es) => (if |es| <= 255 then 2 else 5) + SizeAll(es)
    case OtpList(es, improper) => if es == [] then 1 else if improper then 5 + SizeAll(es) else 6 + SizeAll(es)
    case Dict(ps) => 5 + SizePairs(ps)
    case Boolean(flag) => if flag then 6 else 7
    case Undefined => 11
    case Float(bits) => 1 + |bits|
    case Integer(n) => IntegerSize(n)
    case Atom(a) => AtomSize(a)
    case Binary(bytes, lastBits) => |bytes| + if lastBits == 8 then 5 else 6
    case Function(_, bytes) => 1 + |bytes|
    case Reference(node, id, creation) => (if |id| / 4 == 0 then 1 else 3) + AtomSize(node) + |id| + |creation|
    case Port(node, id, creation) => 1 + AtomSize(node) + |id| + |creation|
    case Pid(node, id, serial, creation) => 1 + AtomSize(node) + |id| + |serial| + |creation|
  }

  function SizeAll(ts: seq<Term>): nat
    decreases ts, 0
  {
    if ts == [] then 0 else Size(ts[0]) + SizeAll(ts[1..])
  }

  function SizePairs(ps: seq<Entry>): nat
    decreases ps, 0
  {
    if ps == [] then 0 else SizeEntry(ps[0]) + SizePairs(ps[1..])
  }

  function SizeEntry(p: Entry): nat
    decreases p, 0
  {
    Size(p.key) + Size(p.value)
  }

  // ---------- What is written

  /** r is a success just when it may be, and then has size bytes. */
  predicate Written(r: Result<seq<byte>>, writable: bool, size: nat) {
    (r.Ok? <==> writable) && (r.Ok? ==> |r.value| == size)
  }

  lemma AtomWritten(a: AtomValue)
    ensures Written(EncodeAtom(a), WritableAtom(a), AtomSize(a))
  {
  }

  lemma {:induction false} ByteElementsSize(s: seq<byte>)
    ensures |EncodeByteElements(s)| == 2 * |s|
  {
    if s != [] {
      ByteElementsSize(s[1..]);
    }
  }

  lemma StringWritten(s: seq<byte>)
    ensures Written(EncodeString(s), |s| < U32_LIMIT, StringSize(s))
  {
    ByteElementsSize(s);
  }

  /** Numbers of 32 bits have at most four digits. */
  lemma FewDigits(n: nat)
    requires n <= 0x8000_0000
    ensures |Integers.Digits(n)| <= 4
  {
    var a, b, c, d := n / 256, n / 256 / 256, n / 256 / 256 / 256, n / 256 / 256 / 256 / 256;
    assert d == 0;
    assert Integers.Digits(d) == [];
    assert |Integers.Digits(c)| <= 1;
    assert |Integers.Digits(b)| <= 2;
    assert |Integers.Digits(a)| <= 3;
  }

  lemma IntegerWritten(n: int)
    ensures Written(Integers.EncodeInteger(n), |Integers.Digits(Integers.Magnitude(n))| < U32_LIMIT, IntegerSize(n))
  {
    hide Integers.Digits;
    if -0x8000_0000 <= n <= 0x7fff_ffff {
      FewDigits(Integers.Magnitude(n));
    }
  }

  lemma {:induction false} AllWritten(ts: seq<Term>)
    ensures Written(EncodeAll(ts), WritableAll(ts), SizeAll(ts))
    decreases ts, 0
  {
    hide Encode, Writable, Size;
    if ts != [] {
      TermWritten(ts[0]);
      AllWritten(ts[1..]);
    }
  }

  lemma {:induction false} PairsWritten(ps: seq<Entry>)
    ensures Written(EncodePairs(ps), WritablePairs(ps), SizePairs(ps))
    decreases ps, 0
  {
    hide EncodeEntry, WritableEntry, SizeEntry;
    if ps != [] {
      EntryWritten(ps[0]);
      PairsWritten(ps[1..]);
    }
  }

  lemma {:induction false} EntryWritten(p: Entry)
    ensures Written(EncodeEntry(p), WritableEntry(p), SizeEntry(p))
    decreases p, 0
  {
    hide Encode, Writable, Size;
    TermWritten(p.key);
    TermWritten(p.value);
  }

  /** A term can be written if and only if its sizes fit, and this is how long it gets. */
  lemma {:induction false} TermWritten(t: Term)
    ensures Written(Encode(t), Writable(t), Size(t))
    decreases t, 2
  {
    hide EncodeAll, WritableAll, SizeAll, EncodePairs, WritablePairs, SizePairs, EncodeString, StringSize, EncodeAtom,
         AtomSize, WritableAtom, Integers.EncodeInteger, IntegerSize, Integers.Digits;
    NoneWritable();
    match t
    case ByteString(s) => StringWritten(s);
    case Text(s) => StringWritten(s);
    case List(es) => AllWritten(es);
    case Tuple(es) => AllWritten(es);
    case OtpList(es, _) => AllWritten(es);
    case Dict(ps) => PairsWritten(ps);
    case Boolean(flag) => NamesWritten();
    case Undefined => NamesWritten();
    case Integer(n) => IntegerWritten(n);
    case Atom(a) => AtomWritten(a);
    case Reference(node, _, _) => AtomWritten(node);
    case Port(node, _, _) => AtomWritten(node);
    case Pid(node, _, _, _) => AtomWritten(node);
    case _ =>
  }

  lemma NoneWritable()
    ensures WritableAll([]) && SizeAll([]) == 0
  {
  }

  lemma NamesWritten()
    ensures Written(EncodeAtom(Latin1(TRUE_NAME)), true, 6)
    ensures Written(EncodeAtom(Latin1(FALSE_NAME)), true, 7)
    ensures Written(EncodeAtom(Latin1(UNDEFINED_NAME)), true, 11)
  {
  }

  // ---------- Messages

  /**
   `term_to_binary` succeeds if and only if the term can be written and, when it is to be
   compressed, the level is one of 0 to 9 and the plain size fits. True is level 6.
   */
  lemma MessageWrittenIff(deflate: Deflate, t: Term, compressed: Compression)
    ensures var level := if compressed.Level? then compressed.n else 6;
            var r := TermToBinary(deflate, t, compressed);
            && (r.Ok? <==> Writable(t) && (compressed.Off? || (0 <= level <= 9 && Size(t) < U32_LIMIT)))
            && (r.Ok? && compressed.Off? ==> r.value == [131] + Encode(t).value)
            && (r.Ok? && !compressed.Off? ==>
                  r.value == [131, 80] + PackU32(Size(t)) + deflate(Encode(t).value, level))
  {
    hide Encode, Writable, Size;
    TermWritten(t);
  }
}
