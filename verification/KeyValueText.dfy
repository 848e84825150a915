/** Key and value strings in one text, each ended by a NUL byte, and their parsers in C++ and Go. */
module KeyValueText {
  import opened Prelude
  import opened ReallocPtr

  predicate NulFree(s: seq<byte>) {
    forall k :: 0 <= k < |s| ==> s[k] != 0
  }

  predicate AllNulFree(ss: seq<seq<byte>>) {
    forall k :: 0 <= k < |ss| ==> NulFree(ss[k])
  }

  /** The strings, each followed by a NUL byte. */
  function Printed(ss: seq<seq<byte>>): seq<byte> {
    if ss == [] then [] else ss[0] + [0] + Printed(ss[1..])
  }

  /** Where each string starts when the first starts at index at. */
  function Starts(ss: seq<seq<byte>>, at: nat): (r: seq<nat>)
    ensures |r| == |ss|
  {
    if ss == [] then [] else [at] + Starts(ss[1..], at + |ss[0]| + 1)
  }

  // ---------- text_key_value_parse of src/api/c/cloudi.cpp

  /** The offsets that the loop stores from index k on: it skips the byte behind each NUL. */
  function Scan(text: seq<byte>, k: nat): seq<nat>
    decreases |text| - k
  {
    if |text| <= k + 1 then []
    else if text[k] == 0 then [k + 1] + Scan(text, k + 2)
    else Scan(text, k + 1)
  }

  /** The stored offsets; the null pointer behind them is not counted. */
  function Offsets(text: seq<byte>): seq<nat> {
    [0] + Scan(text, 1)
  }

  const FIRST_SIZE: nat := 128     // greater_pow2(16 * sizeof(char const *))
  const MAX_SIZE: nat := 65536     // greater_pow2(8192 * sizeof(char const *))
  const MOST_OFFSETS: nat := 131071

  lemma {:induction false} ScanStep(text: seq<byte>, k: nat, done: seq<nat>)
    requires k + 1 < |text|
    ensures text[k] == 0 ==> done + Scan(text, k) == done + [k + 1] + Scan(text, k + 2)
    ensures text[k] != 0 ==> done + Scan(text, k) == done + Scan(text, k + 1)
  {
    if text[k] == 0 {
      assert done + ([k + 1] + Scan(text, k + 2)) == done + [k + 1] + Scan(text, k + 2);
    }
  }

  /** The array sizes 128, 256, ... end with 131072: the request 65536 still doubles, 131072 does not. */
  lemma SizesOfTheArray()
    ensures IsDoubling(FIRST_SIZE, 131072)
  {
    assert IsDoubling(128, 512);
    assert IsDoubling(128, 2048);
    assert IsDoubling(128, 8192);
    assert IsDoubling(128, 32768);
  }

  /** `result[i] = offset; result.reserve(i + 2)`: the store is in bounds and so is the next one. */
  method StoreOffset(result: Buffer<Option<nat>>, i: nat, offset: nat)
    requires result.Valid() && result.maxSize == MAX_SIZE && IsDoubling(result.size, 131072)
    requires i < result.size && i + 1 <= MOST_OFFSETS
    requires result.size == 131072 || i + 1 < result.size
    modifies result, result.p
    ensures result.Valid() && IsDoubling(result.size, 131072)
    ensures result.p == old(result.p) || fresh(result.p)
    ensures i + 1 < result.size && (result.size == 131072 || i + 2 < result.size)
    ensures result.p[i] == Some(offset)
    ensures forall k :: 0 <= k < i ==> result.p[k] == old(result.p[k])
  {
    result.p[i] := Some(offset);
    ghost var stored := result.p[..];
    ghost var before := result.size;
    if before != 131072 {
      FromTwice(before, 131072);
    }
    var _ := result.Reserve(i + 2, true);
    assert forall k :: 0 <= k < before ==> result.p[k] == result.p[..before][k] == stored[k];
  }

  /**
   `text_key_value_parse`; an offset stands for the pointer into the text, None for the null
   pointer. Within the limit of the array every store is in bounds.
   */
  method TextKeyValueParse(text: seq<byte>) returns (result: Buffer<Option<nat>>)
    requires |Offsets(text)| <= MOST_OFFSETS
    ensures fresh(result) && result.Valid() && |Offsets(text)| < result.size
    ensures result.p[|Offsets(text)|] == None
    ensures forall k :: 0 <= k < |Offsets(text)| ==> result.p[k] == Some(Offsets(text)[k])
  {
    result := new Buffer<Option<nat>>(FIRST_SIZE, MAX_SIZE);
    SizesOfTheArray();
    result.p[0] := Some(0);
    var i := 1;
    ghost var done: seq<nat> := [0];
    if |text| > 1 {
      var textI := 1;
      while textI < |text| - 1
        invariant fresh(result) && fresh(result.p) && result.Valid() && result.maxSize == MAX_SIZE
        invariant IsDoubling(result.size, 131072)
        invariant 1 <= textI && |done| == i < result.size
        invariant result.size == 131072 || i + 1 < result.size
        invariant done + Scan(text, textI) == Offsets(text)
        invariant forall k :: 0 <= k < i ==> result.p[k] == Some(done[k])
        decreases |text| - textI
      {
        ScanStep(text, textI, done);
        if text[textI] == 0 {
          textI := textI + 1;
          assert |done + [textI]| <= MOST_OFFSETS;
          StoreOffset(result, i, textI);
          done := done + [textI];
          i := i + 1;
        }
        textI := textI + 1;
      }
      assert Scan(text, textI) == [];
      assert done + [] == done;
    }
    result.p[i] := None;
  }

  // ---------- When the offsets are those of the strings

  /** Without NUL bytes the loop finds nothing. */
  lemma {:induction false} ScanSkip(text: seq<byte>, k: nat, m: nat)
    requires k <= m < |text| && forall x :: k <= x < m ==> text[x] != 0
    ensures Scan(text, k) == Scan(text, m)
    decreases m - k
  {
    if k < m {
      ScanSkip(text, k + 1, m);
    }
  }

  /** Every string but the last has a byte. */
  predicate OnlyLastEmpty(ss: seq<seq<byte>>) {
    forall k :: 0 <= k < |ss| - 1 ==> ss[k] != []
  }

  /** The printed strings are what text holds from index o on. */
  predicate Stands(text: seq<byte>, o: nat, ss: seq<seq<byte>>) {
    o <= |text| && text[o..] == Printed(ss)
  }

  lemma StandsNext(text: seq<byte>, o: nat, ss: seq<seq<byte>>)
    requires Stands(text, o, ss) && ss != [] && NulFree(ss[0])
    ensures var n := |ss[0]|;
            && o + n < |text| && text[o + n] == 0
            && (forall x :: o <= x < o + n ==> text[x] != 0)
            && Stands(text, o + n + 1, ss[1..])
  {
    var n, tail := |ss[0]|, text[o..];
    assert tail == ss[0] + [0] + Printed(ss[1..]);
    forall x | o <= x < o + n
      ensures text[x] != 0
    {
      assert text[x] == tail[x - o] == ss[0][x - o];
    }
    assert text[o + n] == tail[n];
    assert text[o + n + 1..] == tail[n + 1..] == Printed(ss[1..]);
  }

  lemma StandsEnd(text: seq<byte>, o: nat, ss: seq<seq<byte>>)
    requires Stands(text, o, ss)
    ensures ss == [] <==> o == |text|
    ensures o <= |text|
  {
  }

  /** From the start of a string on, the loop finds the starts of all that follow. */
  lemma {:induction false} ScanFindsStarts(text: seq<byte>, o: nat, ss: seq<seq<byte>>)
    requires Stands(text, o, ss) && ss != [] && AllNulFree(ss) && OnlyLastEmpty(ss)
    ensures [o] + Scan(text, o + 1) == Starts(ss, o)
    decreases |ss|
  {
    hide Stands, NulFree;
    var n, rest := |ss[0]|, ss[1..];
    StandsNext(text, o, ss);
    StandsEnd(text, o + n + 1, rest);
    if n > 0 {
      ScanSkip(text, o + 1, o + n);
    }
    if rest != [] {
      assert forall k :: 0 <= k < |rest| ==> rest[k] == ss[k + 1];
      ScanFindsStarts(text, o + n + 1, rest);
    }
  }

  /** An empty string that is not the last costs the loop a start: it skips one. */
  lemma {:induction false} ScanLosesStart(text: seq<byte>, o: nat, ss: seq<seq<byte>>)
    requires Stands(text, o, ss) && ss != [] && AllNulFree(ss)
    ensures 1 + |Scan(text, o + 1)| <= |ss|
    ensures !OnlyLastEmpty(ss) ==> 1 + |Scan(text, o + 1)| < |ss|
    decreases |ss|
  {
    hide Stands, NulFree;
    var n, rest := |ss[0]|, ss[1..];
    StandsNext(text, o, ss);
    StandsEnd(text, o + n + 1, rest);
    assert forall k :: 0 <= k < |rest| ==> rest[k] == ss[k + 1];
    if n > 0 {
      ScanSkip(text, o + 1, o + n);
      if rest != [] {
        ScanLosesStart(text, o + n + 1, rest);
        assert OnlyLastEmpty(rest) ==> OnlyLastEmpty(ss) by {
          assert forall k :: 1 <= k < |ss| ==> ss[k] == rest[k - 1];
        }
      }
    } else if rest != [] {
      ScanLosesStart(text, o + 1, rest);
      StandsNext(text, o + 1, rest);
      StandsEnd(text, o + 1 + |rest[0]| + 1, rest[1..]);
      if rest[0] == [] && |rest| > 1 {
        assert forall k :: 0 <= k < |rest[1..]| ==> rest[1..][k] == rest[k + 1];
        ScanLosesStart(text, o + 2, rest[1..]);
      }
    }
  }

  /**
   The C++ parser finds exactly the starts of the printed strings if and only if no string
   but the last is empty.
   */
  lemma OffsetsAreStartsIff(ss: seq<seq<byte>>)
    requires ss != [] && AllNulFree(ss)
    ensures Offsets(Printed(ss)) == Starts(ss, 0) <==> OnlyLastEmpty(ss)
  {
    hide Scan;
    var text := Printed(ss);
    assert Stands(text, 0, ss);
    if OnlyLastEmpty(ss) {
      ScanFindsStarts(text, 0, ss);
    } else {
      ScanLosesStart(text, 0, ss);
    }
  }

  /** The smallest text for which they are not: an empty string and then one that is not. */
  lemma EmptyStringLosesStart()
    ensures Printed([[], [98]]) == [0, 98, 0]
    ensures Offsets([0, 98, 0]) == [0] && Starts([[], [98]], 0) == [0, 1]
  {
    var ss: seq<seq<byte>> := [[], [98]];
    assert ss[1..] == [[98]];
    assert Printed([[98]]) == [98, 0];
  }

  // ---------- textKeyValueParse of src/api/go/cloudi/cloudi.go

  /** bytes.Split at NUL bytes. */
  function Pieces(s: seq<byte>): (r: seq<seq<byte>>)
    ensures |r| >= 1
  {
    if s == [] then [[]]
    else
      var rest := Pieces(s[1..]);
      if s[0] == 0 then [[]] + rest else [[s[0]] + rest[0]] + rest[1..]
  }

  lemma {:induction false} PiecesOf(a: seq<byte>, rest: seq<byte>)
    requires NulFree(a)
    ensures Pieces(a + [0] + rest) == [a] + Pieces(rest)
  {
    var s := a + [0] + rest;
    if a == [] {
      assert s[1..] == rest;
    } else {
      assert s[1..] == a[1..] + [0] + rest;
      PiecesOf(a[1..], rest);
      assert [a[0]] + a[1..] == a;
    }
  }

  /** The pieces of a printed text are its strings and an empty last piece. */
  lemma {:induction false} PiecesOfPrinted(ss: seq<seq<byte>>)
    requires AllNulFree(ss)
    ensures Pieces(Printed(ss)) == ss + [[]]
  {
    if ss != [] {
      PiecesOf(ss[0], Printed(ss[1..]));
      PiecesOfPrinted(ss[1..]);
      assert [ss[0]] + (ss[1..] + [[]]) == ss + [[]];
    } else {
      assert ss + [[]] == [[]];
    }
  }

  datatype Pair = Pair(key: seq<byte>, value: seq<byte>)

  /** Keys and values in turn. */
  function KeysAndValues(ps: seq<Pair>): (r: seq<seq<byte>>)
    ensures |r| == 2 * |ps|
  {
    if ps == [] then [] else [ps[0].key, ps[0].value] + KeysAndValues(ps[1..])
  }

  lemma {:induction false} KeysAndValuesAt(ps: seq<Pair>, k: nat)
    requires k < |ps|
    ensures KeysAndValues(ps)[2 * k] == ps[k].key && KeysAndValues(ps)[2 * k + 1] == ps[k].value
  {
    if k > 0 {
      KeysAndValuesAt(ps[1..], k - 1);
    }
  }

  /** The values of a key in their order. */
  function ValuesOf(ps: seq<Pair>, key: seq<byte>): seq<seq<byte>> {
    if ps == [] then []
    else ValuesOf(ps[..|ps| - 1], key) + if ps[|ps| - 1].key == key then [ps[|ps| - 1].value] else []
  }

  /** The map has the keys of the pairs and gives each the list of its values. */
  ghost predicate Groups(result: map<seq<byte>, seq<seq<byte>>>, ps: seq<Pair>) {
    forall key :: (key in result <==> ValuesOf(ps, key) != []) && (key in result ==> result[key] == ValuesOf(ps, key))
  }

  /** Pairs of the pieces that the loop visits: a last odd piece is left. */
  function PairsOf(data: seq<seq<byte>>): (ps: seq<Pair>)
    ensures |ps| == |data| / 2
    ensures forall k :: 0 <= k < |ps| ==> ps[k] == Pair(data[2 * k], data[2 * k + 1])
  {
    seq(|data| / 2, k requires 0 <= k < |data| / 2 => Pair(data[2 * k], data[2 * k + 1]))
  }

  /** A key has values exactly when some pair has that key. */
  lemma {:induction false} ValuesExist(ps: seq<Pair>, key: seq<byte>)
    ensures ValuesOf(ps, key) != [] <==> exists k :: 0 <= k < |ps| && ps[k].key == key
  {
    if ps != [] {
      var front := ps[..|ps| - 1];
      ValuesExist(front, key);
      assert forall k :: 0 <= k < |front| ==> front[k] == ps[k];
      if ps[|ps| - 1].key != key && exists k :: 0 <= k < |ps| && ps[k].key == key {
        var k :| 0 <= k < |ps| && ps[k].key == key;
        assert front[k].key == key;
      }
    }
  }

  /** One more pair: its value is added to the list of its key. */
  lemma GroupsStep(result: map<seq<byte>, seq<seq<byte>>>, ps: seq<Pair>, p: Pair)
    requires Groups(result, ps)
    ensures Groups(result[p.key := (if p.key in result then result[p.key] else []) + [p.value]], ps + [p])
  {
    var next := result[p.key := (if p.key in result then result[p.key] else []) + [p.value]];
    var qs := ps + [p];
    assert qs[..|qs| - 1] == ps;
    forall key
      ensures (key in next <==> ValuesOf(qs, key) != []) && (key in next ==> next[key] == ValuesOf(qs, key))
    {
      assert ValuesOf(qs, key) == ValuesOf(ps, key) + if p.key == key then [p.value] else [];
      assert ValuesOf(ps, key) + [] == ValuesOf(ps, key);
      assert key in result || ValuesOf(ps, key) == [];
    }
  }

  /** `textKeyValueParse`: each key with the ordered list of its values. */
  method GoTextKeyValueParse(text: seq<byte>) returns (result: map<seq<byte>, seq<seq<byte>>>)
    ensures Groups(result, PairsOf(Pieces(text)))
  {
    hide Groups, Pieces;
    result := map[];
    var data := Pieces(text);
    ghost var ps := PairsOf(data);
    NoGroups();
    var i := 0;
    while i < |data| - 1
      invariant i % 2 == 0 && i / 2 <= |ps|
      invariant Groups(result, ps[..i / 2])
      decreases |data| - i
    {
      var key := data[i];
      var value := data[i + 1];
      assert ps[i / 2] == Pair(key, value);
      GroupsStep(result, ps[..i / 2], Pair(key, value));
      assert ps[..i / 2 + 1] == ps[..i / 2] + [Pair(key, value)];
      assert [] + [value] == [value];
      if key !in result {
        result := result[key := [value]];
      } else {
        result := result[key := result[key] + [value]];
      }
      i := i + 2;
    }
    assert ps[..|ps|] == ps;
  }

  lemma NoGroups()
    ensures Groups(map[], [])
  {
  }

  /** Printing any pairs of NUL-free strings, empty ones included, and parsing them gives the pairs back, grouped. */
  lemma GoParsesPrinted(ps: seq<Pair>)
    requires AllNulFree(KeysAndValues(ps))
    ensures PairsOf(Pieces(Printed(KeysAndValues(ps)))) == ps
  {
    PiecesOfPrinted(KeysAndValues(ps));
    var data := KeysAndValues(ps) + [[]];
    forall k | 0 <= k < |ps|
      ensures PairsOf(data)[k] == ps[k]
    {
      KeysAndValuesAt(ps, k);
      assert data[2 * k] == KeysAndValues(ps)[2 * k] && data[2 * k + 1] == KeysAndValues(ps)[2 * k + 1];
    }
  }
}
