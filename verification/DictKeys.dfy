/** How a dict takes its keys while MAP_EXT is read, and what it then holds. */
module DictKeys {
  import opened Prelude
  import opened ErlangTerms
  import opened ErlangDecoder
  import ErlangEncoder

  // ---------- Which keys are the same

  lemma {:induction false} SameKeyReflexive(a: Term)
    ensures SameKey(a, a)
    decreases a
  {
    if a.Tuple? {
      forall k | 0 <= k < |a.elements|
        ensures SameKey(a.elements[k], a.elements[k])
      {
        SameKeyReflexive(a.elements[k]);
      }
    }
  }

  lemma {:induction false} SameKeySymmetric(a: Term, b: Term)
    requires SameKey(a, b)
    ensures SameKey(b, a)
    decreases a
  {
    if a.Tuple? && b.Tuple? {
      forall k | 0 <= k < |a.elements|
        ensures SameKey(b.elements[k], a.elements[k])
      {
        SameKeySymmetric(a.elements[k], b.elements[k]);
      }
    }
  }

  lemma {:induction false} SameKeyTransitive(a: Term, b: Term, c: Term)
    requires SameKey(a, b) && SameKey(b, c)
    ensures SameKey(a, c)
    decreases a
  {
    if a.Tuple? && b.Tuple? && c.Tuple? {
      forall k | 0 <= k < |a.elements|
        ensures SameKey(a.elements[k], c.elements[k])
      {
        SameKeyTransitive(a.elements[k], b.elements[k], c.elements[k]);
      }
    }
  }

  /** True is 1 and False is 0 as a key, and no other two numbers are the same. */
  lemma NumbersAsKeys(p: bool, q: bool, m: int, n: int)
    ensures SameKey(Integer(m), Integer(n)) <==> m == n
    ensures SameKey(Boolean(p), Integer(n)) <==> n == (if p then 1 else 0)
    ensures SameKey(Integer(n), Boolean(p)) <==> n == (if p then 1 else 0)
    ensures SameKey(Boolean(p), Boolean(q)) <==> p == q
  {
  }

  /** A value of one of Python's own types. */
  predicate PlainValue(t: Term) {
    t.ByteString? || t.Text? || t.List? || t.Tuple? || t.Dict? || t.Boolean? || t.Integer? || t.Float? || t.Undefined?
  }

  /** Objects of the OtpErlang classes are the same when they are written alike, and are no plain value. */
  lemma ObjectsAsKeys(a: Term, b: Term)
    requires !PlainValue(a)
    ensures !PlainValue(b) ==> (SameKey(a, b) <==> ErlangEncoder.Encode(a) == ErlangEncoder.Encode(b))
    ensures PlainValue(b) ==> !SameKey(a, b) && !SameKey(b, a)
  {
    hide ErlangEncoder.Encode;
  }

  /** A plain value that is no number and no tuple is the same as itself alone. */
  lemma PlainValuesAsKeys(a: Term, b: Term)
    requires PlainValue(a) && !a.Tuple? && !a.Integer? && !a.Boolean?
    ensures SameKey(a, b) <==> a == b
  {
    hide ErlangEncoder.Encode;
  }

  // ---------- Which terms can be keys

  /** What a path of indices through tuples leads to. */
  function Inner(t: Term, path: seq<nat>): Option<Term> {
    if path == [] then Some(t)
    else if t.Tuple? && path[0] < |t.elements| then Inner(t.elements[path[0]], path[1..])
    else None
  }

  /** A path does not lead to a list or a dict. */
  predicate NoneChangeable(t: Term, path: seq<nat>) {
    var inner := Inner(t, path);
    inner.Some? ==> !inner.value.List? && !inner.value.Dict?
  }

  /** A term can be a key if and only if no list and no dict is in it, through tuples all the way. */
  lemma {:induction false} HashableIff(t: Term)
    ensures Hashable(t) <==> forall path: seq<nat> :: NoneChangeable(t, path)
    decreases t
  {
    if Hashable(t) {
      forall path: seq<nat>
        ensures NoneChangeable(t, path)
      {
        HashableInside(t, path);
      }
    } else {
      var path := PathToChangeable(t);
      assert !NoneChangeable(t, path);
    }
  }

  lemma {:induction false} HashableInside(t: Term, path: seq<nat>)
    requires Hashable(t)
    ensures NoneChangeable(t, path)
    decreases |path|
  {
    if path != [] && t.Tuple? && path[0] < |t.elements| {
      HashableInside(t.elements[path[0]], path[1..]);
    }
  }

  lemma {:induction false} PathToChangeable(t: Term) returns (path: seq<nat>)
    requires !Hashable(t)
    ensures !NoneChangeable(t, path)
    decreases t
  {
    if t.Tuple? {
      var k :| 0 <= k < |t.elements| && !Hashable(t.elements[k]);
      var rest := PathToChangeable(t.elements[k]);
      path := [k] + rest;
      assert path[1..] == rest;
    } else {
      path := [];
    }
  }

  /** A list as a key is made an object first, so it can be one; a dict stays what it is and cannot. */
  lemma ListsAndDictsAsKeys(es: seq<Term>, ps: seq<Entry>)
    ensures StoredKey(List(es)) == OtpList(es, false) && Hashable(StoredKey(List(es)))
    ensures !Hashable(StoredKey(Dict(ps)))
  {
  }

  // ---------- What the dict holds

  /** `pairs.get(key)` */
  function Lookup(ps: seq<Entry>, key: Term): Option<Term> {
    if ps == [] then None
    else if SameKey(ps[0].key, key) then Some(ps[0].value)
    else Lookup(ps[1..], key)
  }

  function Keys(ps: seq<Entry>): seq<Term> {
    if ps == [] then [] else [ps[0].key] + Keys(ps[1..])
  }

  /** The first entry with the key gets the value, or a new one at the end. */
  function Stored(ps: seq<Entry>, key: Term, value: Term): seq<Entry> {
    if ps == [] then [Entry(key, value)]
    else if SameKey(ps[0].key, key) then [Entry(ps[0].key, value)] + ps[1..]
    else [ps[0]] + Stored(ps[1..], key, value)
  }

  lemma {:induction false} StoredAt(ps: seq<Entry>, key: Term, value: Term)
    ensures var j := FindKey(ps, key);
            Stored(ps, key, value) == if j < |ps| then ps[j := Entry(ps[j].key, value)] else ps + [Entry(key, value)]
    decreases |ps|
  {
    hide SameKey;
    if ps == [] {
      assert ps + [Entry(key, value)] == [Entry(key, value)];
    } else {
      StoredAt(ps[1..], key, value);
      var j, rest := FindKey(ps, key), ps[1..];
      if j == 0 {
        assert ps[0 := Entry(ps[0].key, value)] == [Entry(ps[0].key, value)] + rest;
      } else if j < |ps| {
        assert ps[j := Entry(ps[j].key, value)] == [ps[0]] + rest[j - 1 := Entry(rest[j - 1].key, value)];
      } else {
        assert ps + [Entry(key, value)] == [ps[0]] + (rest + [Entry(key, value)]);
      }
    }
  }

  lemma {:induction false} StoredLaw(ps: seq<Entry>, key: Term, value: Term, k: Term)
    ensures Lookup(Stored(ps, key, value), k) == if SameKey(key, k) then Some(value) else Lookup(ps, k)
    ensures Keys(Stored(ps, key, value)) == Keys(ps) + if Lookup(ps, key) == None then [key] else []
    decreases |ps|
  {
    hide SameKey;
    if ps != [] {
      SameAsStored(ps[0].key, key, k);
      var qs := Stored(ps, key, value);
      if SameKey(ps[0].key, key) {
        assert qs[1..] == ps[1..];
        assert Keys(ps) + [] == Keys(ps);
      } else {
        StoredLaw(ps[1..], key, value, k);
        assert qs[1..] == Stored(ps[1..], key, value);
      }
    }
  }

  /** Storing changes what the dict holds under the one key; a key that was there stays as and where it was. */
  lemma StoreLaw(ps: seq<Entry>, key: Term, value: Term, k: Term)
    ensures Store(ps, key, value).Ok? <==> Hashable(StoredKey(key))
    ensures Store(ps, key, value).Ok? ==>
              var stored, qs := StoredKey(key), Store(ps, key, value).value;
              && Lookup(qs, k) == (if SameKey(stored, k) then Some(value) else Lookup(ps, k))
              && Keys(qs) == Keys(ps) + (if Lookup(ps, stored) == None then [stored] else [])
  {
    hide SameKey, Hashable, StoredKey;
    StoredAt(ps, StoredKey(key), value);
    StoredLaw(ps, StoredKey(key), value, k);
  }

  // ---------- A whole dict

  /** The pairs as they stand in the data. */
  ghost function PairsRead(env: Env, i: nat, n: nat, data: seq<byte>): (ps: seq<Entry>)
    ensures |ps| <= n
    decreases n
  {
    if n == 0 || Decode(env, i, data).Err? then []
    else
      var (v, key) := Decode(env, i, data).value;
      var value := Decode(env, v, data);
      if value.Err? then [] else [Entry(key, value.value.1)] + PairsRead(env, value.value.0, n - 1, data)
  }

  /** The value of the last pair with a key, or else what was held before. */
  function LastValue(ps: seq<Entry>, k: Term, before: Option<Term>): Option<Term> {
    if ps == [] then before
    else LastValue(ps[1..], k, if SameKey(StoredKey(ps[0].key), k) then Some(ps[0].value) else before)
  }

  /** Under each key a dict that was read holds the value of the last pair with that key. */
  lemma {:induction false} LastPairWins(env: Env, i: nat, n: nat, data: seq<byte>, before: seq<Entry>, k: Term)
    requires DecodePairs(env, i, n, data, before).Ok?
    ensures |PairsRead(env, i, n, data)| == n
    ensures Lookup(DecodePairs(env, i, n, data, before).value.1, k)
         == LastValue(PairsRead(env, i, n, data), k, Lookup(before, k))
    decreases n
  {
    hide Decode, Store, SameKey, StoredKey;
    if n > 0 {
      var (v, key) := Decode(env, i, data).value;
      var (m, value) := Decode(env, v, data).value;
      StoreLaw(before, key, value, k);
      LastPairWins(env, m, n - 1, data, Store(before, key, value).value, k);
      var rest := PairsRead(env, m, n - 1, data);
      assert ([Entry(key, value)] + rest)[1..] == rest;
    }
  }

  lemma SameAsStored(first: Term, stored: Term, k: Term)
    ensures SameKey(first, stored) ==> (SameKey(first, k) <==> SameKey(stored, k))
    ensures SameKey(first, k) && SameKey(stored, k) ==> SameKey(first, stored)
  {
    hide SameKey;
    if SameKey(first, stored) {
      SameKeySymmetric(first, stored);
      if SameKey(first, k) {
        SameKeyTransitive(stored, first, k);
      }
      if SameKey(stored, k) {
        SameKeyTransitive(first, stored, k);
      }
    }
    if SameKey(first, k) && SameKey(stored, k) {
      SameKeySymmetric(stored, k);
      SameKeyTransitive(first, k, stored);
    }
  }
}
