/** `callback_function_lookup` of src/api/c/cloudi.cpp: a queue of callbacks for each name pattern. */
module Subscriptions {
  import opened Prelude

  // ---------- The table as a value: each pattern with its queue, never an empty one

  type Table<F> = map<string, seq<F>>

  ghost predicate NoEmptyQueue<F>(t: Table<F>) {
    forall p :: p in t ==> t[p] != []
  }

  function Rotated<F>(q: seq<F>): (r: seq<F>)
    requires q != []
    ensures |r| == |q|
  {
    q[1..] + [q[0]]
  }

  function Inserted<F>(t: Table<F>, p: string, f: F): Table<F> {
    t[p := (if p in t then t[p] else []) + [f]]
  }

  function Removed<F>(t: Table<F>, p: string): Table<F>
    requires p in t ==> t[p] != []
  {
    if p !in t then t
    else if |t[p]| == 1 then t - {p}
    else t[p := t[p][1..]]
  }

  function Found<F>(t: Table<F>, p: string): Table<F>
    requires p in t ==> t[p] != []
  {
    if p in t then t[p := Rotated(t[p])] else t
  }

  // ---------- Runs

  datatype Op<F> = Insert(pattern: string, f: F) | Remove(pattern: string) | Find(pattern: string)

  function Apply<F>(t: Table<F>, op: Op<F>): Table<F>
    requires op.pattern in t ==> t[op.pattern] != []
  {
    match op
    case Insert(p, f) => Inserted(t, p, f)
    case Remove(p) => Removed(t, p)
    case Find(p) => Found(t, p)
  }

  lemma ApplyKeepsNonEmpty<F>(t: Table<F>, op: Op<F>)
    requires NoEmptyQueue(t)
    ensures NoEmptyQueue(Apply(t, op))
  {
  }

  ghost function Run<F>(t: Table<F>, ops: seq<Op<F>>): (r: Table<F>)
    requires NoEmptyQueue(t)
    ensures NoEmptyQueue(r)
    decreases |ops|
  {
    if ops == [] then t else (ApplyKeepsNonEmpty(t, ops[0]); Run(Apply(t, ops[0]), ops[1..]))
  }

  function Count<F>(t: Table<F>, p: string): nat {
    if p in t then |t[p]| else 0
  }

  /** Successful removals of a pattern: those that find a subscription. */
  ghost function Balance<F>(t: Table<F>, ops: seq<Op<F>>, p: string): int
    requires NoEmptyQueue(t)
    decreases |ops|
  {
    if ops == [] then 0
    else
      ApplyKeepsNonEmpty(t, ops[0]);
      var change :=
        if ops[0].pattern != p then 0
        else match ops[0]
          case Insert(_, _) => 1
          case Remove(_) => if p in t then -1 else 0
          case Find(_) => 0;
      change + Balance(Apply(t, ops[0]), ops[1..], p)
  }

  /** Over any run a pattern has as many subscriptions as inserts minus successful removals. */
  lemma {:induction false} CountIsBalance<F>(t: Table<F>, ops: seq<Op<F>>, p: string)
    requires NoEmptyQueue(t)
    ensures Count(Run(t, ops), p) == Count(t, p) + Balance(t, ops, p)
    decreases |ops|
  {
    if ops != [] {
      ApplyKeepsNonEmpty(t, ops[0]);
      CountIsBalance(Apply(t, ops[0]), ops[1..], p);
    }
  }

  /** Operations on other patterns leave a pattern's queue as it is. */
  lemma {:induction false} OtherPatternsDoNotMatter<F>(t: Table<F>, ops: seq<Op<F>>, p: string)
    requires NoEmptyQueue(t) && forall k :: 0 <= k < |ops| ==> ops[k].pattern != p
    ensures p in Run(t, ops) <==> p in t
    ensures p in t ==> Run(t, ops)[p] == t[p]
    decreases |ops|
  {
    if ops != [] {
      ApplyKeepsNonEmpty(t, ops[0]);
      OtherPatternsDoNotMatter(Apply(t, ops[0]), ops[1..], p);
    }
  }

  // ---------- The order of the queue

  function Inserts<F>(p: string, fs: seq<F>): seq<Op<F>> {
    if fs == [] then [] else [Insert(p, fs[0])] + Inserts(p, fs[1..])
  }

  function Removes<F>(p: string, k: nat): seq<Op<F>> {
    if k == 0 then [] else [Op<F>.Remove(p)] + Removes(p, k - 1)
  }

  /** The callbacks of a pattern, none for one that is not in the table. */
  function Queue<F>(t: Table<F>, p: string): seq<F> {
    if p in t then t[p] else []
  }

  /** Inserted callbacks go behind those already there, in the order of the inserts. */
  lemma {:induction false} InsertsQueueUp<F>(t: Table<F>, p: string, fs: seq<F>)
    requires NoEmptyQueue(t)
    ensures Run(t, Inserts(p, fs)) == if fs == [] then t else t[p := Queue(t, p) + fs]
    decreases |fs|
  {
    if fs != [] {
      var u := Apply(t, Insert(p, fs[0]));
      ApplyKeepsNonEmpty(t, Insert(p, fs[0]));
      assert Inserts(p, fs)[1..] == Inserts(p, fs[1..]);
      InsertsQueueUp(u, p, fs[1..]);
      assert Queue(t, p) + [fs[0]] + fs[1..] == Queue(t, p) + fs;
      assert fs[1..] == [] ==> Queue(t, p) + [fs[0]] == Queue(t, p) + fs;
    }
  }

  /** Removals drop the oldest callbacks first, and the pattern with the last of them. */
  lemma {:induction false} RemovesDropOldest<F>(t: Table<F>, p: string, k: nat)
    requires NoEmptyQueue(t) && p in t && k <= |t[p]|
    ensures Run(t, Removes(p, k)) == if k == |t[p]| then t - {p} else t[p := t[p][k..]]
    decreases k
  {
    if k == 0 {
      assert t[p][0..] == t[p];
    } else {
      var u := Apply(t, Op<F>.Remove(p));
      ApplyKeepsNonEmpty(t, Op<F>.Remove(p));
      assert Removes<F>(p, k)[1..] == Removes<F>(p, k - 1);
      if |t[p]| == 1 {
        assert Removes<F>(p, 0) == [];
      } else {
        RemovesDropOldest(u, p, k - 1);
        assert t[p][1..][k - 1..] == t[p][k..];
        assert u - {p} == t - {p};
      }
    }
  }

  // ---------- Fairness of the rotation

  /** The queue after k finds. */
  function Turned<F>(q: seq<F>, k: nat): (r: seq<F>)
    requires q != []
    ensures |r| == |q|
    decreases k
  {
    if k == 0 then q else Turned(Rotated(q), k - 1)
  }

  /** The callbacks that k consecutive finds return. */
  function Calls<F>(q: seq<F>, k: nat): (r: seq<F>)
    requires q != []
    ensures |r| == k
    decreases k
  {
    if k == 0 then [] else [q[0]] + Calls(Rotated(q), k - 1)
  }

  lemma Distribute(n: nat, x: int, y: int)
    ensures n * (x + y) == n * x + n * y
  {
  }

  lemma MultipleIsFar(n: nat, c: int)
    requires 0 < n && c != 0
    ensures n <= n * c || n * c <= -(n as int)
  {
    if c >= 1 {
      Distribute(n, c - 1, 1);
      assert n * (c - 1) >= 0;
    } else {
      Distribute(n, c + 1, -1);
      assert n * (c + 1) <= 0;
    }
  }

  /** Quotient and remainder are determined by a == n * d + m with m < n. */
  lemma DivUnique(a: nat, n: nat, d: nat, m: nat)
    requires m < n && a == n * d + m
    ensures a / n == d && a % n == m
  {
    var q := a / n;
    assert a == n * q + a % n;
    Distribute(n, d, -q);
    assert n * -q == -(n * q);
    if d != q {
      MultipleIsFar(n, d - q);
    }
  }

  /** The j-th of consecutive finds calls the subscriber in slot j mod n. */
  lemma {:induction false} CallsAt<F>(q: seq<F>, k: nat, j: nat)
    requires q != [] && j < k
    ensures Calls(q, k)[j] == q[j % |q|]
    decreases k
  {
    if j == 0 {
      DivUnique(0, |q|, 0, 0);
    } else {
      CallsAt(Rotated(q), k - 1, j - 1);
      DivStep(j - 1, |q|);
      var y := (j - 1) % |q|;
      assert Rotated(q)[y] == q[if y + 1 == |q| then 0 else y + 1];
    }
  }

  lemma {:induction false} TurnedSplit<F>(a: seq<F>, b: seq<F>)
    requires a + b != []
    ensures Turned(a + b, |a|) == b + a
    decreases |a|
  {
    if a == [] {
      assert a + b == b == b + a;
    } else {
      assert Rotated(a + b) == a[1..] + (b + [a[0]]);
      TurnedSplit(a[1..], b + [a[0]]);
      assert b + [a[0]] + a[1..] == b + a;
    }
  }

  /** As many finds as subscribers restore the order. */
  lemma FullTurn<F>(q: seq<F>)
    requires q != []
    ensures Turned(q, |q|) == q
  {
    TurnedSplit(q, []);
    assert q + [] == q == [] + q;
  }

  /** A turn only permutes. */
  lemma {:induction false} TurnedPermutes<F>(q: seq<F>, k: nat)
    requires q != []
    ensures multiset(Turned(q, k)) == multiset(q)
    decreases k
  {
    if k > 0 {
      TurnedPermutes(Rotated(q), k - 1);
      assert q == [q[0]] + q[1..];
    }
  }

  /** How many of the finds number 0 to k - 1 fall on slot s of n. */
  function Hits(n: nat, s: nat, k: nat): nat
    requires s < n
    decreases k
  {
    if k == 0 then 0 else Hits(n, s, k - 1) + if (k - 1) % n == s then 1 else 0
  }

  lemma DivStep(a: nat, n: nat)
    requires 0 < n
    ensures (a + 1) / n == a / n + (if a % n + 1 == n then 1 else 0)
    ensures (a + 1) % n == if a % n + 1 == n then 0 else a % n + 1
  {
    var d, m := a / n, a % n;
    assert a == n * d + m;
    if m + 1 == n {
      Distribute(n, d, 1);
      DivUnique(a + 1, n, d + 1, 0);
    } else {
      DivUnique(a + 1, n, d, m + 1);
    }
  }

  /** After k finds each slot was called floor(k / n) times, and once more for the first k mod n slots. */
  lemma {:induction false} HitsAre(n: nat, s: nat, k: nat)
    requires s < n
    ensures Hits(n, s, k) == k / n + (if s < k % n then 1 else 0)
    decreases k
  {
    if k == 0 {
      DivUnique(0, n, 0, 0);
    } else {
      HitsAre(n, s, k - 1);
      DivStep(k - 1, n);
    }
  }

  lemma SumDivOf(n: nat, a: nat, qa: nat, ra: nat, k: nat, qk: nat, rk: nat)
    requires ra < n && rk < n && a == n * qa + ra && k == n * qk + rk
    ensures (a + k) / n == qa + qk + if ra + rk >= n then 1 else 0
  {
    Distribute(n, qa, qk);
    if ra + rk >= n {
      Distribute(n, qa + qk, 1);
      DivUnique(a + k, n, qa + qk + 1, ra + rk - n);
    } else {
      DivUnique(a + k, n, qa + qk, ra + rk);
    }
  }

  lemma SumModOf(n: nat, a: nat, qa: nat, ra: nat, k: nat, qk: nat, rk: nat)
    requires ra < n && rk < n && a == n * qa + ra && k == n * qk + rk
    ensures (a + k) % n == if ra + rk >= n then ra + rk - n else ra + rk
  {
    Distribute(n, qa, qk);
    if ra + rk >= n {
      Distribute(n, qa + qk, 1);
      DivUnique(a + k, n, qa + qk + 1, ra + rk - n);
    } else {
      DivUnique(a + k, n, qa + qk, ra + rk);
    }
  }

  /** Quotient and remainder of a sum, from those of its parts. */
  lemma SumDiv(n: nat, a: nat, k: nat)
    requires 0 < n
    ensures (a + k) / n == a / n + k / n + if a % n + k % n >= n then 1 else 0
    ensures (a + k) % n == if a % n + k % n >= n then a % n + k % n - n else a % n + k % n
  {
    SumDivOf(n, a, a / n, a % n, k, k / n, k % n);
    SumModOf(n, a, a / n, a % n, k, k / n, k % n);
  }

  /** ceil(k / n) in terms of quotient and remainder. */
  lemma CeilDiv(n: nat, k: nat)
    requires 0 < n
    ensures (k + (n - 1)) / n == k / n + if k % n == 0 then 0 else 1
  {
    DivUnique(n - 1, n, 0, n - 1);
    SumDiv(n, k, n - 1);
  }

  /** Any k consecutive finds, wherever they start, call each slot floor(k / n) or ceil(k / n) times. */
  lemma Fair(n: nat, s: nat, start: nat, k: nat)
    requires s < n
    ensures k / n <= Hits(n, s, start + k) - Hits(n, s, start) <= (k + (n - 1)) / n
  {
    hide Hits;
    HitsAre(n, s, start);
    HitsAre(n, s, start + k);
    SumDiv(n, start, k);
    CeilDiv(n, k);
  }

  // ---------- The finds of a run

  function FindsOn<F(==)>(ops: seq<Op<F>>, p: string): nat {
    if ops == [] then 0 else (if ops[0].Find? && ops[0].pattern == p then 1 else 0) + FindsOn(ops[1..], p)
  }

  /** What the finds on p return, in a run from t. */
  ghost function CallsIn<F>(t: Table<F>, ops: seq<Op<F>>, p: string): seq<F>
    requires NoEmptyQueue(t)
    decreases |ops|
  {
    if ops == [] then []
    else
      ApplyKeepsNonEmpty(t, ops[0]);
      (if ops[0].Find? && ops[0].pattern == p && p in t then [t[p][0]] else [])
        + CallsIn(Apply(t, ops[0]), ops[1..], p)
  }

  /**
   Over any run that only finds p, whatever it does with other patterns in between, the finds
   return the callbacks in turn and leave the queue turned as often.
   */
  lemma {:induction false} RunOfFinds<F>(t: Table<F>, ops: seq<Op<F>>, p: string)
    requires NoEmptyQueue(t) && p in t
    requires forall k :: 0 <= k < |ops| && ops[k].pattern == p ==> ops[k].Find?
    ensures p in Run(t, ops) && Run(t, ops)[p] == Turned(t[p], FindsOn(ops, p))
    ensures CallsIn(t, ops, p) == Calls(t[p], FindsOn(ops, p))
    decreases |ops|
  {
    if ops != [] {
      ApplyKeepsNonEmpty(t, ops[0]);
      var next := Apply(t, ops[0]);
      assert forall k :: 0 <= k < |ops[1..]| ==> ops[1..][k] == ops[k + 1];
      RunOfFinds(next, ops[1..], p);
      assert ops[0].pattern != p ==> next[p] == t[p];
      assert [] + CallsIn(next, ops[1..], p) == CallsIn(next, ops[1..], p);
    }
  }

  predicate Distinct<F(==)>(q: seq<F>) {
    forall x, y :: 0 <= x < y < |q| ==> q[x] != q[y]
  }

  lemma CallsLast<F>(q: seq<F>, k: nat)
    requires q != [] && k > 0
    ensures Calls(q, k) == Calls(q, k - 1) + [q[(k - 1) % |q|]]
  {
    forall j | 0 <= j < k
      ensures Calls(q, k)[j] == (Calls(q, k - 1) + [q[(k - 1) % |q|]])[j]
    {
      CallsAt(q, k, j);
      if j < k - 1 {
        CallsAt(q, k - 1, j);
      }
    }
  }

  /** A callback is called as often as its slot is hit. */
  lemma {:induction false} CallsOfSlot<F>(q: seq<F>, s: nat, k: nat)
    requires Distinct(q) && s < |q|
    ensures multiset(Calls(q, k))[q[s]] == Hits(|q|, s, k)
    decreases k
  {
    if k > 0 {
      CallsOfSlot(q, s, k - 1);
      CallsLast(q, k);
    }
  }

  /** Over any such run each of n distinct callbacks is called floor(k / n) or ceil(k / n) times in k finds. */
  lemma FairRun<F>(t: Table<F>, ops: seq<Op<F>>, p: string, s: nat)
    requires NoEmptyQueue(t) && p in t && Distinct(t[p]) && s < |t[p]|
    requires forall k :: 0 <= k < |ops| && ops[k].pattern == p ==> ops[k].Find?
    ensures var n, k := |t[p]|, FindsOn(ops, p);
            k / n <= multiset(CallsIn(t, ops, p))[t[p][s]] <= (k + (n - 1)) / n
  {
    hide Hits, CallsIn, Calls, FindsOn;
    var n, k := |t[p]|, FindsOn(ops, p);
    RunOfFinds(t, ops, p);
    CallsOfSlot(t[p], s, k);
    NoHits(n, s);
    Fair(n, s, 0, k);
  }

  lemma NoHits(n: nat, s: nat)
    requires s < n
    ensures Hits(n, s, 0) == 0
  {
  }

  // ---------- The classes

  /** `callback_function_queue`: a list and its size, kept apart. */
  class CallbackQueue<F> {
    var queue: seq<F>
    var size: nat

    ghost predicate Valid()
      reads this
    {
      size == |queue| && size > 0
    }

    constructor (f: F)
      ensures Valid() && queue == [f]
    {
      queue := [f];
      size := 1;
    }

    method PushBack(f: F)
      requires Valid()
      modifies this
      ensures Valid() && queue == old(queue) + [f]
    {
      queue := queue + [f];
      size := size + 1;
    }

    /** The queue may become empty; its owner then drops it. */
    method PopFront()
      requires Valid()
      modifies this
      ensures queue == old(queue)[1..] && size == |queue|
    {
      queue := queue[1..];
      size := size - 1;
    }

    method Empty() returns (empty: bool)
      requires size == |queue|
      ensures empty <==> queue == []
    {
      empty := size == 0;
    }

    /** `cycle`: the front goes to the back and is returned. */
    method Cycle() returns (f: F)
      requires Valid()
      modifies this
      ensures Valid() && queue == Rotated(old(queue)) && f == old(queue)[0]
    {
      if size == 1 {
        assert queue == Rotated(queue);
        return queue[0];
      }
      queue := queue + [queue[0]];
      queue := queue[1..];
      f := queue[|queue| - 1];
    }
  }

  /** The table that a map of queue objects represents. */
  ghost function Queues<F>(m: map<string, CallbackQueue<F>>): (t: Table<F>)
    reads m.Values
  {
    map p | p in m :: m[p].queue
  }

  /** No two patterns share a queue object. */
  ghost predicate Separate<F>(m: map<string, CallbackQueue<F>>) {
    forall p, q :: p in m && q in m && p != q ==> m[p] != m[q]
  }

  lemma UpdatedWithout<K, V>(m: map<K, V>, k: K, v: V)
    ensures m[k := v] - {k} == m - {k}
  {
  }

  lemma TableKeys<F>(m: map<string, CallbackQueue<F>>)
    ensures Queues(m).Keys == m.Keys
  {
  }

  lemma TableEntry<F>(m: map<string, CallbackQueue<F>>, p: string)
    requires p in m
    ensures p in Queues(m) && Queues(m)[p] == m[p].queue
  {
  }

  lemma QueuesUpdated<F>(m: map<string, CallbackQueue<F>>, p: string, q: CallbackQueue<F>)
    requires Separate(m) && p !in m && q !in m.Values
    ensures Queues(m[p := q]) == Queues(m)[p := q.queue]
    ensures Separate(m[p := q]) && m[p := q].Values <= m.Values + {q}
  {
    var n := m[p := q];
    forall x, y | x in n && y in n && x != y
      ensures n[x] != n[y]
    {
      assert x in m ==> m[x] in m.Values;
      assert y in m ==> m[y] in m.Values;
    }
  }

  lemma QueuesWithout<F>(m: map<string, CallbackQueue<F>>, p: string)
    requires Separate(m)
    ensures Queues(m - {p}) == Queues(m) - {p}
    ensures Separate(m - {p}) && (m - {p}).Values <= m.Values
  {
  }

  class Lookup<F> {
    var lookup: map<string, CallbackQueue<F>>

    ghost predicate Valid()
      reads this, lookup.Values
    {
      (forall p :: p in lookup ==> lookup[p].Valid()) && Separate(lookup)
    }

    /** The table that the objects represent. */
    ghost function View(): (t: Table<F>)
      reads this, lookup.Values
    {
      Queues(lookup)
    }

    constructor ()
      ensures Valid() && View() == map[] && fresh(lookup.Values)
    {
      lookup := map[];
    }

    method Insert(pattern: string, f: F)
      requires Valid()
      modifies this, lookup.Values
      ensures Valid() && View() == Apply(old(View()), Op.Insert(pattern, f))
      ensures fresh(lookup.Values - old(lookup.Values))
    {
      if pattern !in lookup {
        InsertFirst(pattern, f);
      } else {
        var queue := lookup[pattern];
        queue.PushBack(f);
      }
    }

    method InsertFirst(pattern: string, f: F)
      requires Valid() && pattern !in lookup
      modifies this
      ensures Valid() && View() == Inserted(old(View()), pattern, f)
      ensures fresh(lookup.Values - old(lookup.Values))
    {
      hide Queues, Separate;
      var queue := new CallbackQueue(f);
      assert View() == old(View()) && [] + [f] == [f];
      QueuesUpdated(lookup, pattern, queue);
      TableKeys(lookup);
      lookup := lookup[pattern := queue];
    }

    /** The oldest callback of a pattern is dropped, and with the last one the pattern. */
    method Remove(pattern: string) returns (removed: bool)
      requires Valid()
      modifies this, lookup.Values
      ensures Valid() && View() == Apply(old(View()), Op.Remove(pattern))
      ensures removed <==> pattern in old(View())
      ensures lookup.Values <= old(lookup.Values)
    {
      hide Queues, Separate;
      ghost var view := View();
      TableKeys(lookup);
      if pattern !in lookup {
        return false;
      }
      TableEntry(lookup, pattern);
      var empty := PopFrontOf(pattern);
      if empty {
        QueuesWithout(lookup, pattern);
        UpdatedWithout(view, pattern, view[pattern][1..]);
        lookup := lookup - {pattern};
      }
      removed := true;
    }

    method PopFrontOf(pattern: string) returns (empty: bool)
      requires Valid() && pattern in lookup
      modifies lookup[pattern]
      ensures View() == old(View())[pattern := old(lookup[pattern].queue)[1..]]
      ensures empty <==> |old(lookup[pattern].queue)| == 1
      ensures forall p :: p in lookup && (p != pattern || !empty) ==> lookup[p].Valid()
    {
      assert forall p :: p in lookup && p != pattern ==> lookup[p] != lookup[pattern];
      var queue := lookup[pattern];
      queue.PopFront();
      empty := queue.Empty();
    }

    /** None stands for the null response. */
    method Find(pattern: string) returns (f: Option<F>)
      requires Valid()
      modifies lookup.Values
      ensures Valid() && View() == Apply(old(View()), Op.Find(pattern))
      ensures f == if pattern in old(View()) then Some(old(View())[pattern][0]) else None
      ensures lookup == old(lookup)
    {
      if pattern !in lookup {
        return None;
      }
      var queue := lookup[pattern];
      var g := queue.Cycle();
      f := Some(g);
    }
  }
}
