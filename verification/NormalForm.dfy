/** What a term becomes when it is written and read back, and which terms that is promised for. */
module NormalForm {
  import opened Prelude
  import opened ErlangTags
  import opened ErlangTerms
  import opened ErlangDecoder

  function NoInflate(b: seq<byte>): Option<seq<byte>> {
    None
  }

  /** The reading that accepts least: every bound checked, no compression, no short NEW_FUN_EXT. */
  const STRICT: Env := Env(Exact, 0, NoInflate)

  /** Every bound checked, no compression. */
  const CHECKED: Env := Env(Checked, 0, NoInflate)

  /** The integers of a string, as its long form stores them. */
  function ByteTerms(s: seq<byte>): (r: seq<Term>)
    ensures |r| == |s|
    ensures forall k :: 0 <= k < |s| ==> r[k] == Integer(s[k])
  {
    if s == [] then [] else [Integer(s[0])] + ByteTerms(s[1..])
  }

  function NormString(s: seq<byte>): Term {
    if |s| == 0 then List([])
    else if |s| <= 65535 then ByteString(s)
    else List(ByteTerms(s))
  }

  /** A list whose last element reads back as the empty list is proper. */
  function NormImproper(es: seq<Term>): Term {
    if es == [] then List([]) else ListTerm(es[..|es| - 1], es[|es| - 1])
  }

  function Norm(t: Term): Term
    decreases t, 1
  {
    match t
    case ByteString(s) => NormString(s)
    case Text(s) => NormString(s)
    case List(es) => List(NormAll(es))
    case Tuple(es) => Tuple(NormAll(es))
    case Dict(ps) => Dict(NormPairs(ps))
    case Undefined => Atom(Latin1(UNDEFINED_NAME))
    case Atom(Latin1(name)) => AtomTerm(name)
    case OtpList(es, improper) => if improper then NormImproper(NormAll(es)) else List(NormAll(es))
    case _ => t
  }

  function NormAll(ts: seq<Term>): (r: seq<Term>)
    ensures |r| == |ts|
    decreases ts, 0
  {
    if ts == [] then [] else [Norm(ts[0])] + NormAll(ts[1..])
  }

  function NormPairs(ps: seq<Entry>): (r: seq<Entry>)
    ensures |r| == |ps|
    decreases ps, 0
  {
    if ps == [] then [] else [NormEntry(ps[0])] + NormPairs(ps[1..])
  }

  function NormEntry(p: Entry): Entry
    decreases p, 0
  {
    Entry(StoredKey(Norm(p.key)), Norm(p.value))
  }

  predicate WellFormedAtom(a: AtomValue) {
    a.Utf8? ==> ValidUtf8(a.text)
  }

  // ---------- The payloads of functions (erl_ext_dist, NEW_FUN_EXT, EXPORT_EXT and FUN_EXT)

  /** Latin-1 names may hold any bytes, the others are UTF-8. */
  predicate NameBytes(tag: byte, name: seq<byte>) {
    tag == TAG_ATOM_EXT || tag == TAG_SMALL_ATOM_EXT || ValidUtf8(name)
  }

  /** An atom in any of its external forms. */
  predicate AtomBytes(s: seq<byte>) {
    && |s| >= 2
    && if s[0] == TAG_ATOM_CACHE_REF then |s| == 2
       else if s[0] == TAG_SMALL_ATOM_EXT || s[0] == TAG_SMALL_ATOM_UTF8_EXT then
         |s| - 2 == s[1] && NameBytes(s[0], s[2..])
       else
         && (s[0] == TAG_ATOM_EXT || s[0] == TAG_ATOM_UTF8_EXT)
         && |s| >= 3 && |s| == 3 + U16(s[1..3]) && NameBytes(s[0], s[3..])
  }

  /** A pid: its node, four bytes of id, four of serial, one or four of creation. */
  predicate PidBytes(s: seq<byte>) {
    s != []
    && ((s[0] == TAG_PID_EXT && |s| >= 10 && AtomBytes(s[1..|s| - 9]))
        || (s[0] == TAG_NEW_PID_EXT && |s| >= 13 && AtomBytes(s[1..|s| - 12])))
  }

  predicate IntegerBytes(s: seq<byte>) {
    (|s| == 2 && s[0] == TAG_SMALL_INTEGER_EXT) || (|s| == 5 && s[0] == TAG_INTEGER_EXT)
  }

  /** Any one term in its external form. */
  predicate TermBytes(s: seq<byte>) {
    var r := Decode(STRICT, 0, s);
    r.Ok? && r.value.0 == |s|
  }

  function Joined(parts: seq<seq<byte>>): seq<byte> {
    if parts == [] then [] else parts[0] + Joined(parts[1..])
  }

  /** What a FUN_EXT consists of. */
  datatype FunParts = FunParts(pid: seq<byte>, name: seq<byte>, index: seq<byte>, uniq: seq<byte>, free: seq<seq<byte>>)
  {
    predicate Legal() {
      && PidBytes(pid) && AtomBytes(name) && IntegerBytes(index) && IntegerBytes(uniq)
      && |free| < U32_LIMIT && forall k :: 0 <= k < |free| ==> TermBytes(free[k])
    }

    function Bytes(): seq<byte>
      requires |free| < U32_LIMIT
    {
      PackU32(|free|) + (pid + (name + (index + (uniq + Joined(free)))))
    }
  }

  ghost predicate LegalFunction(tag: int, bytes: seq<byte>) {
    if tag == TAG_NEW_FUN_EXT then
      |bytes| >= 4 && U32(bytes[..4]) == |bytes|
    else if tag == TAG_EXPORT_EXT then
      exists name, function_, arity ::
        AtomBytes(name) && AtomBytes(function_) && bytes == name + (function_ + [TAG_SMALL_INTEGER_EXT, arity])
    else
      tag == TAG_FUN_EXT && exists parts: FunParts :: parts.Legal() && bytes == parts.Bytes()
  }

  // ---------- Well-formed terms

  /** Distinct hashable keys, in the form a dict stores them. */
  predicate DistinctKeys(ps: seq<Entry>) {
    && (forall k :: 0 <= k < |ps| ==> Hashable(ps[k].key))
    && (forall j, k :: 0 <= j < k < |ps| ==> !SameKey(ps[j].key, ps[k].key))
  }

  ghost predicate WellFormed(t: Term)
    decreases t, 1
  {
    match t
    case Text(s) => ValidUtf8(s)
    case List(es) => WellFormedAll(es)
    case Tuple(es) => WellFormedAll(es)
    case Float(bits) => |bits| == 8
    case Dict(ps) => WellFormedPairs(ps) && DistinctKeys(NormPairs(ps))
    case Atom(a) => WellFormedAtom(a)
    case OtpList(es, _) => WellFormedAll(es)
    case Function(tag, bytes) => LegalFunction(tag, bytes)
    case Reference(node, id, creation) => WellFormedAtom(node) && 0 < |id| && |id| % 4 == 0
    case Port(node, id, creation) => WellFormedAtom(node) && |id| == 4
    case Pid(node, id, serial, creation) => WellFormedAtom(node) && |id| == 4 && |serial| == 4
    case _ => true
  }

  ghost predicate WellFormedAll(ts: seq<Term>)
    decreases ts, 0
  {
    ts != [] ==> WellFormed(ts[0]) && WellFormedAll(ts[1..])
  }

  ghost predicate WellFormedPairs(ps: seq<Entry>)
    decreases ps, 0
  {
    ps != [] ==> WellFormedEntry(ps[0]) && WellFormedPairs(ps[1..])
  }

  ghost predicate WellFormedEntry(p: Entry)
    decreases p, 0
  {
    WellFormed(p.key) && WellFormed(p.value)
  }
}
