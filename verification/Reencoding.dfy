/** Writing the normal form again: when it gives the same bytes, and that normalising is final. */
module Reencoding {
  import opened Prelude
  import opened ErlangTags
  import opened ErlangTerms
  import opened ErlangEncoder
  import opened ErlangDecoder
  import opened NormalForm
  import opened RoundTrip

  /** No improper list of a single element that reads back as the empty list, at any depth. */
  predicate Stable(t: Term)
    decreases t, 1
  {
    match t
    case List(es) => StableAll(es)
    case Tuple(es) => StableAll(es)
    case Dict(ps) => StablePairs(ps)
    case OtpList(es, improper) => StableAll(es) && (improper && |es| == 1 ==> Norm(es[0]) != List([]))
    case _ => true
  }

  predicate StableAll(ts: seq<Term>)
    decreases ts, 0
  {
    ts != [] ==> Stable(ts[0]) && StableAll(ts[1..])
  }

  predicate StablePairs(ps: seq<Entry>)
    decreases ps, 0
  {
    ps != [] ==> StableEntry(ps[0]) && StablePairs(ps[1..])
  }

  predicate StableEntry(p: Entry)
    decreases p, 0
  {
    Stable(p.key) && Stable(p.value)
  }

  /** again is the writing of the normal form: the same bytes when stable, fewer when not. */
  predicate Shrinks(stable: bool, before: seq<byte>, again: Result<seq<byte>>) {
    && again.Ok?
    && (stable ==> again.value == before)
    && (!stable ==> |again.value| < |before|)
  }

  lemma {:induction false} ByteElements(s: seq<byte>)
    ensures EncodeAll(ByteTerms(s)) == Ok(EncodeByteElements(s))
  {
    if s != [] {
      assert ByteTerms(s)[1..] == ByteTerms(s[1..]);
      ByteElements(s[1..]);
    }
  }

  lemma StringAgain(s: seq<byte>)
    requires EncodeString(s).Ok?
    ensures Encode(NormString(s)) == EncodeString(s)
  {
    hide EncodeAll, ByteTerms, EncodeByteElements;
    ByteElements(s);
  }

  lemma AtomAgain(name: seq<byte>)
    ensures Encode(AtomTerm(name)) == Encode(Atom(Latin1(name)))
  {
  }

  lemma {:induction false} AllAgain(ts: seq<Term>)
    requires EncodeAll(ts).Ok?
    ensures Shrinks(StableAll(ts), EncodeAll(ts).value, EncodeAll(NormAll(ts)))
    decreases ts, 0
  {
    hide Encode, Norm, Stable;
    if ts != [] {
      Again(ts[0]);
      AllAgain(ts[1..]);
      assert NormAll(ts)[1..] == NormAll(ts[1..]);
    }
  }

  lemma KeyAgain(key: Term)
    ensures Encode(StoredKey(key)) == Encode(key)
  {
  }

  lemma {:induction false} EntryAgain(p: Entry)
    requires EncodeEntry(p).Ok?
    ensures Shrinks(StableEntry(p), EncodeEntry(p).value, EncodeEntry(NormEntry(p)))
    decreases p, 0
  {
    hide Encode, Norm, Stable, StoredKey;
    Again(p.key);
    Again(p.value);
    KeyAgain(Norm(p.key));
  }

  lemma {:induction false} PairsAgain(ps: seq<Entry>)
    requires EncodePairs(ps).Ok?
    ensures Shrinks(StablePairs(ps), EncodePairs(ps).value, EncodePairs(NormPairs(ps)))
    decreases ps, 0
  {
    hide EncodeEntry, NormEntry, StableEntry;
    if ps != [] {
      EntryAgain(ps[0]);
      PairsAgain(ps[1..]);
      assert NormPairs(ps)[1..] == NormPairs(ps[1..]);
    }
  }

  lemma {:induction false} StableAppend(a: seq<Term>, t: Term)
    ensures StableAll(a + [t]) <==> StableAll(a) && Stable(t)
  {
    if a == [] {
      assert [] + [t] == [t] && [t][1..] == [];
    } else {
      assert (a + [t])[1..] == a[1..] + [t];
      StableAppend(a[1..], t);
    }
  }

  /** The normal form of an improper list, from that of its front and of its last element. */
  lemma NormParts(es: seq<Term>)
    requires es != []
    ensures NormImproper(NormAll(es)) == ListTerm(NormAll(es[..|es| - 1]), Norm(es[|es| - 1]))
  {
    hide Norm, ListTerm;
    var front, last := es[..|es| - 1], es[|es| - 1];
    assert es == front + [last];
    NormAllAppend(front, [last]);
    assert NormAll([last]) == [Norm(last)];
    var ns := NormAll(es);
    assert ns[..|ns| - 1] == NormAll(front) && ns[|ns| - 1] == Norm(last);
  }

  /** The bytes of an improper list, likewise. */
  lemma ImproperBytes(front: seq<Term>, last: Term)
    ensures EncodeAll(front + [last]).Ok? <==> EncodeAll(front).Ok? && Encode(last).Ok?
    ensures EncodeAll(front).Ok? && Encode(last).Ok? ==>
              EncodeAll(front + [last]).value == EncodeAll(front).value + Encode(last).value
  {
    hide Encode, EncodeAll;
    EncodeAllOne(last);
    if EncodeAll(front + [last]).Ok? {
      EncodeAllSplit(front, [last]);
    }
    if EncodeAll(front).Ok? && Encode(last).Ok? {
      EncodeAllAppend(front, [last]);
    }
  }

  /** A list whose last element becomes the empty list: the tail is dropped for NIL_EXT. */
  lemma {:induction false} ImproperAgain(es: seq<Term>)
    requires es != [] && EncodeList(es, true).Ok?
    ensures Shrinks(Stable(OtpList(es, true)), EncodeList(es, true).value, Encode(NormImproper(NormAll(es))))
    decreases es, 1
  {
    hide EncodeAll, Norm, NormAll, NormImproper;
    var front, last := es[..|es| - 1], es[|es| - 1];
    assert es == front + [last];
    ImproperBytes(front, last);
    AllAgain(front);
    Again(last);
    StableAppend(front, last);
    NormParts(es);
    ImproperBytes(NormAll(front), Norm(last));
    EncodeNonEmpty(last);
    if Norm(last) == List([]) {
      assert Encode(List([])) == Ok([TAG_NIL_EXT]);
    }
  }

  lemma NoElements()
    ensures NormAll([]) == [] && StableAll([]) && NormImproper([]) == List([])
  {
  }

  lemma {:induction false} ListAgain(es: seq<Term>)
    requires EncodeList(es, false).Ok?
    ensures Shrinks(StableAll(es), EncodeList(es, false).value, EncodeList(NormAll(es), false))
    decreases es, 1
  {
    hide EncodeAll, NormAll, StableAll;
    if es == [] {
      NoElements();
    } else {
      AllAgain(es);
    }
  }

  /**
   Writing the normal form of a term that can be written gives the same bytes if and only
   if the term is stable; otherwise it gives fewer.
   */
  lemma {:induction false} Again(t: Term)
    requires Encode(t).Ok?
    ensures Shrinks(Stable(t), Encode(t).value, Encode(Norm(t)))
    decreases t, 2
  {
    hide EncodeAll, EncodePairs, NormAll, NormPairs, StableAll, StablePairs, NormString, EncodeString,
         AtomTerm, NormImproper;
    match t
    case ByteString(s) => StringAgain(s);
    case Text(s) => StringAgain(s);
    case List(es) => ListAgain(es);
    case Tuple(es) => AllAgain(es);
    case Dict(ps) => PairsAgain(ps);
    case Atom(a) => if a.Latin1? { AtomAgain(a.name); }
    case OtpList(es, improper) =>
      if improper {
        if es == [] {
          NoElements();
        } else {
          ImproperAgain(es);
        }
      } else {
        ListAgain(es);
      }
    case _ =>
  }

  /** The same as an equivalence. */
  lemma ReencodesAlikeIffStable(t: Term)
    requires Encode(t).Ok?
    ensures Encode(Norm(t)) == Encode(t) <==> Stable(t)
  {
    hide Encode, Norm, Stable;
    Again(t);
  }

  /** The smallest term that is not stable: an improper list that holds only the empty list. */
  lemma ImproperNilIsNotStable()
    ensures var t := OtpList([List([])], true);
            Encode(t) == Ok([TAG_LIST_EXT, 0, 0, 0, 0, TAG_NIL_EXT]) && Norm(t) == List([])
            && Encode(Norm(t)) == Ok([TAG_NIL_EXT])
  {
    var t := List([]);
    EncodeAllOne(t);
    assert Encode(t) == Ok([TAG_NIL_EXT]);
    assert EncodeList([t], true) == Ok([TAG_LIST_EXT] + PackU32(0) + [TAG_NIL_EXT]);
    assert NormAll([t]) == [Norm(t)] == [t] by {
      assert [t][1..] == [];
    }
    var zero: seq<byte> := [0, 0, 0, 0];
    assert PackU32(0) == zero;
    assert [TAG_LIST_EXT] + zero + [TAG_NIL_EXT] == [TAG_LIST_EXT, 0, 0, 0, 0, TAG_NIL_EXT];
    assert Encode(OtpList([t], true)) == EncodeList([t], true);
    assert Norm(OtpList([t], true)) == NormImproper([t]);
    assert NormImproper([t]) == List([]) by {
      assert [t][..0] == [];
    }
  }

  // ---------- Normalising is final

  lemma {:induction false} NormAllTwice(ts: seq<Term>)
    ensures NormAll(NormAll(ts)) == NormAll(ts)
    decreases ts, 0
  {
    hide Norm;
    if ts != [] {
      NormTwice(ts[0]);
      NormAllTwice(ts[1..]);
      assert NormAll(ts)[1..] == NormAll(ts[1..]);
    }
  }

  lemma {:induction false} NormEntryTwice(p: Entry)
    ensures NormEntry(NormEntry(p)) == NormEntry(p)
    decreases p, 0
  {
    NormTwice(p.key);
    NormTwice(p.value);
  }

  lemma {:induction false} NormPairsTwice(ps: seq<Entry>)
    ensures NormPairs(NormPairs(ps)) == NormPairs(ps)
    decreases ps, 0
  {
    hide NormEntry;
    if ps != [] {
      NormEntryTwice(ps[0]);
      NormPairsTwice(ps[1..]);
      assert NormPairs(ps)[1..] == NormPairs(ps[1..]);
    }
  }

  lemma {:induction false} ByteTermsNormal(s: seq<byte>)
    ensures NormAll(ByteTerms(s)) == ByteTerms(s)
  {
    if s != [] {
      assert ByteTerms(s)[1..] == ByteTerms(s[1..]);
      ByteTermsNormal(s[1..]);
    }
  }

  lemma {:induction false} PrefixNormal(ts: seq<Term>, n: nat)
    requires n <= |ts| && NormAll(ts) == ts
    ensures NormAll(ts[..n]) == ts[..n]
  {
    NormAllAppend(ts[..n], ts[n..]);
    assert ts[..n] + ts[n..] == ts;
    assert NormAll(ts)[..n] == NormAll(ts[..n]);
  }

  lemma ListTermNormal(es: seq<Term>, tail: Term)
    requires NormAll(es + [tail]) == es + [tail]
    ensures Norm(ListTerm(es, tail)) == ListTerm(es, tail)
  {
    hide NormAll;
    PrefixNormal(es + [tail], |es|);
    assert (es + [tail])[..|es|] == es;
  }

  lemma {:induction false} NormTwice(t: Term)
    ensures Norm(Norm(t)) == Norm(t)
    decreases t, 2
  {
    hide NormAll, NormPairs;
    match t
    case ByteString(s) => assert NormAll([]) == []; ByteTermsNormal(s);
    case Text(s) => assert NormAll([]) == []; ByteTermsNormal(s);
    case List(es) => NormAllTwice(es);
    case Tuple(es) => NormAllTwice(es);
    case Dict(ps) => NormPairsTwice(ps);
    case OtpList(es, improper) =>
      NormAllTwice(es);
      if improper && es != [] {
        var ns := NormAll(es);
        assert ns[..|ns| - 1] + [ns[|ns| - 1]] == ns;
        ListTermNormal(ns[..|ns| - 1], ns[|ns| - 1]);
      } else {
        assert NormAll([]) == [];
      }
    case _ =>
  }
}
