/** The byte-by-byte check of UTF-8 against its definition by code points (section 3 of RFC 3629). */
module Utf8 {
  import opened Prelude
  import opened ErlangTerms

  /** A code point that is no surrogate. */
  type scalar = n: int | 0 <= n < 0x11_0000 && !(0xD800 <= n < 0xE000)

  function CharBytes(c: scalar): seq<byte> {
    if c < 0x80 then [c]
    else if c < 0x800 then [0xC0 + c / 0x40, 0x80 + c % 0x40]
    else if c < 0x1_0000 then [0xE0 + c / 0x1000, 0x80 + c / 0x40 % 0x40, 0x80 + c % 0x40]
    else [0xF0 + c / 0x4_0000, 0x80 + c / 0x1000 % 0x40, 0x80 + c / 0x40 % 0x40, 0x80 + c % 0x40]
  }

  function TextBytes(cs: seq<scalar>): seq<byte> {
    if cs == [] then [] else CharBytes(cs[0]) + TextBytes(cs[1..])
  }

  /** The check from the left. */
  function RunFrom(state: Utf8State, s: seq<byte>): Utf8State
    decreases |s|
  {
    if s == [] then state else RunFrom(Utf8Step(state, s[0]), s[1..])
  }

  lemma {:induction false} RunSplit(state: Utf8State, a: seq<byte>, b: seq<byte>)
    ensures RunFrom(state, a + b) == RunFrom(RunFrom(state, a), b)
    decreases |a|
  {
    if a == [] {
      assert a + b == b;
    } else {
      assert (a + b)[1..] == a[1..] + b;
      RunSplit(Utf8Step(state, a[0]), a[1..], b);
    }
  }

  lemma {:induction false} RunIsRunFrom(s: seq<byte>)
    ensures Utf8Run(s) == RunFrom(UTF8_START, s)
    decreases |s|
  {
    if s != [] {
      var init, last := s[..|s| - 1], s[|s| - 1];
      RunIsRunFrom(init);
      RunSplit(UTF8_START, init, [last]);
      assert init + [last] == s;
      assert [last][1..] == [];
    }
  }

  lemma {:induction false} InvalidStays(s: seq<byte>)
    ensures RunFrom(Invalid, s) == Invalid
  {
    if s != [] {
      InvalidStays(s[1..]);
    }
  }

  /** The bytes of a code point pass. */
  lemma CharPasses(c: scalar)
    ensures RunFrom(UTF8_START, CharBytes(c)) == UTF8_START
  {
    hide RunFrom;
    var s := CharBytes(c);
    if |s| == 1 {
      Steps1(UTF8_START, s[0]);
    } else if |s| == 2 {
      Steps2(UTF8_START, s[0], s[1]);
    } else if |s| == 3 {
      Steps3(UTF8_START, s[0], s[1], s[2]);
    } else {
      Steps4(UTF8_START, s[0], s[1], s[2], s[3]);
    }
  }

  lemma Steps1(t: Utf8State, a: byte)
    ensures RunFrom(t, [a]) == Utf8Step(t, a)
  {
    hide Utf8Step;
    assert [a][1..] == [];
  }

  lemma Steps2(t: Utf8State, a: byte, b: byte)
    ensures RunFrom(t, [a, b]) == Utf8Step(Utf8Step(t, a), b)
  {
    hide Utf8Step;
    assert [a, b][1..] == [b];
    Steps1(Utf8Step(t, a), b);
  }

  lemma Steps3(t: Utf8State, a: byte, b: byte, c: byte)
    ensures RunFrom(t, [a, b, c]) == Utf8Step(Utf8Step(Utf8Step(t, a), b), c)
  {
    hide Utf8Step;
    assert [a, b, c][1..] == [b, c];
    Steps2(Utf8Step(t, a), b, c);
  }

  lemma Steps4(t: Utf8State, a: byte, b: byte, c: byte, d: byte)
    ensures RunFrom(t, [a, b, c, d]) == Utf8Step(Utf8Step(Utf8Step(Utf8Step(t, a), b), c), d)
  {
    hide Utf8Step;
    assert [a, b, c, d][1..] == [b, c, d];
    Steps3(Utf8Step(t, a), b, c, d);
  }

  lemma {:induction false} TextPasses(cs: seq<scalar>)
    ensures RunFrom(UTF8_START, TextBytes(cs)) == UTF8_START
    decreases |cs|
  {
    if cs != [] {
      CharPasses(cs[0]);
      TextPasses(cs[1..]);
      RunSplit(UTF8_START, CharBytes(cs[0]), TextBytes(cs[1..]));
    }
  }

  // ---------- What passes is a text

  lemma TwoBytes(a: byte, b: byte) returns (c: scalar)
    requires 0xC2 <= a <= 0xDF && 0x80 <= b <= 0xBF
    ensures CharBytes(c) == [a, b]
  {
    var x: int, y: int := a - 0xC0, b - 0x80;
    c := x * 0x40 + y;
    assert c / 0x40 == x && c % 0x40 == y;
  }

  lemma ThreeBytes(a: byte, b: byte, d: byte) returns (c: scalar)
    requires 0xE0 <= a <= 0xEF && 0x80 <= b <= 0xBF && 0x80 <= d <= 0xBF
    requires (a == 0xE0 ==> 0xA0 <= b) && (a == 0xED ==> b <= 0x9F)
    ensures CharBytes(c) == [a, b, d]
  {
    var x: int, y: int, z: int := a - 0xE0, b - 0x80, d - 0x80;
    c := x * 0x1000 + y * 0x40 + z;
    assert c / 0x40 == x * 0x40 + y && c % 0x40 == z;
    assert c / 0x1000 == x && c / 0x40 % 0x40 == y;
  }

  lemma FourBytes(a: byte, b: byte, d: byte, e: byte) returns (c: scalar)
    requires 0xF0 <= a <= 0xF4 && 0x80 <= b <= 0xBF && 0x80 <= d <= 0xBF && 0x80 <= e <= 0xBF
    requires (a == 0xF0 ==> 0x90 <= b) && (a == 0xF4 ==> b <= 0x8F)
    ensures CharBytes(c) == [a, b, d, e]
  {
    var w: int, x: int, y: int, z: int := a - 0xF0, b - 0x80, d - 0x80, e - 0x80;
    c := w * 0x4_0000 + x * 0x1000 + y * 0x40 + z;
    assert c / 0x40 == w * 0x1000 + x * 0x40 + y && c % 0x40 == z;
    assert c / 0x1000 == w * 0x40 + x && c / 0x40 % 0x40 == y;
    assert c / 0x4_0000 == w && c / 0x1000 % 0x40 == x;
  }

  /** A run that passes passes each step. */
  lemma Onward(state: Utf8State, s: seq<byte>)
    requires RunFrom(state, s) == UTF8_START && state != UTF8_START
    ensures s != [] && Utf8Step(state, s[0]) != Invalid && RunFrom(Utf8Step(state, s[0]), s[1..]) == UTF8_START
  {
    hide Utf8Step;
    if s != [] && Utf8Step(state, s[0]) == Invalid {
      InvalidStays(s[1..]);
    }
  }

  /** The first code point of what passes, and the rest, which passes as well. */
  lemma FirstChar(s: seq<byte>) returns (c: scalar, rest: seq<byte>)
    requires s != [] && RunFrom(UTF8_START, s) == UTF8_START
    ensures s == CharBytes(c) + rest && RunFrom(UTF8_START, rest) == UTF8_START
  {
    hide RunFrom;
    var a := s[0];
    FirstStep(s);
    if a <= 0x7F {
      c, rest := a, s[1..];
    } else {
      Onward(Utf8Step(UTF8_START, a), s[1..]);
      var b, two := s[1], s[2..];
      assert s[1..][1..] == two;
      if a <= 0xDF {
        c := TwoBytes(a, b);
        rest := two;
      } else {
        Onward(Expect(if a <= 0xEF then 1 else 2, 0x80, 0xBF), two);
        var d, three := s[2], s[3..];
        assert two[1..] == three;
        if a <= 0xEF {
          c := ThreeBytes(a, b, d);
          rest := three;
        } else {
          Onward(Expect(1, 0x80, 0xBF), three);
          assert three[1..] == s[4..];
          c := FourBytes(a, b, d, s[3]);
          rest := s[4..];
        }
      }
    }
  }

  lemma FirstStep(s: seq<byte>)
    requires s != [] && RunFrom(UTF8_START, s) == UTF8_START
    ensures Utf8Step(UTF8_START, s[0]) != Invalid
    ensures RunFrom(Utf8Step(UTF8_START, s[0]), s[1..]) == UTF8_START
  {
    hide Utf8Step;
    if Utf8Step(UTF8_START, s[0]) == Invalid {
      InvalidStays(s[1..]);
    }
  }

  lemma {:induction false} PassesIsText(s: seq<byte>) returns (cs: seq<scalar>)
    requires RunFrom(UTF8_START, s) == UTF8_START
    ensures s == TextBytes(cs)
    decreases |s|
  {
    if s == [] {
      cs := [];
    } else {
      var c, rest := FirstChar(s);
      var more := PassesIsText(rest);
      cs := [c] + more;
      assert cs[1..] == more;
    }
  }

  /** Bytes are accepted as UTF-8 if and only if they are the bytes of some code points. */
  lemma ValidUtf8Iff(s: seq<byte>)
    ensures ValidUtf8(s) <==> exists cs: seq<scalar> :: s == TextBytes(cs)
  {
    RunIsRunFrom(s);
    if ValidUtf8(s) {
      var cs := PassesIsText(s);
    }
    if cs: seq<scalar> :| s == TextBytes(cs) {
      TextPasses(cs);
    }
  }
}
