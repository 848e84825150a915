/**
 The two frame parsers invert the layout and agree on every byte string, and what a reused
 buffer still holds behind the frame cannot change what the C++ walk finds in it.
 */
module FrameLaws {
  import opened Prelude
  import opened Frames

  // ---------- One field at a time

  lemma SubSlice(data: seq<byte>, i: nat, n: nat, c: nat, d: nat)
    requires c <= d <= n && i + n <= |data|
    ensures data[i..i + n][c..d] == data[i + c..i + d]
  {
    var whole := data[i..i + n];
    var l, r := whole[c..d], data[i + c..i + d];
    forall k | 0 <= k < |l|
      ensures l[k] == r[k]
    {
      assert l[k] == whole[c + k];
    }
  }

  /** A grouped read of n bytes gives the single reads inside of it. */
  lemma Ungroup(data: seq<byte>, i: nat, n: nat, c: nat)
    requires i + n <= |data| && c + 4 <= n
    ensures Word(data, i + c) == Some(UnpackWord(data[i..i + n][c..c + 4]))
  {
    SubSlice(data, i, n, c, c + 4);
  }

  // ---------- Grouping makes no difference

  /** A message was found, within the data. */
  predicate Within(r: Option<(Message, nat)>, data: seq<byte>) {
    r.Some? && r.value.1 <= |data|
  }

  /** The sizes that count a terminating NUL are not 0. */
  predicate Texts(m: Message) {
    match m
    case Init(_, _, _, _, prefix, _, _, _, _, _) => prefix != []
    case Send(_, name, pattern, _, _, _, _, _, _) => name != [] && pattern != []
    case _ => true
  }

  lemma InitAgrees(data: seq<byte>, i: nat)
    ensures Within(ParseInit(data, i), data) <==>
            Within(WalkInit(data, i), data) && Texts(WalkInit(data, i).value.0)
    ensures Within(ParseInit(data, i), data) ==> ParseInit(data, i) == WalkInit(data, i)
  {
    hide UnpackWord, UnpackInt8;
    if i + 20 <= |data| {
      Ungroup(data, i, 20, 0);
      Ungroup(data, i, 20, 4);
      Ungroup(data, i, 20, 8);
      Ungroup(data, i, 20, 12);
      Ungroup(data, i, 20, 16);
      var size := Word(data, i + 16).value;
      if i + 20 + size + 17 <= |data| && size > 0 {
        InitTailAgrees(data, i + 20, size);
      }
    }
  }

  lemma InitTailAgrees(data: seq<byte>, i: nat, size: word)
    requires i + size + 17 <= |data|
    ensures var t := data[i..i + size + 17][size..];
            && data[i..i + size + 17][..size] == data[i..i + size]
            && Word(data, i + size) == Some(UnpackWord(t[..4])) && Word(data, i + size + 4) == Some(UnpackWord(t[4..8]))
            && Word(data, i + size + 8) == Some(UnpackWord(t[8..12]))
            && Word(data, i + size + 12) == Some(UnpackWord(t[12..16]))
            && Int8(data, i + size + 16) == Some(UnpackInt8(t[16]))
  {
    hide UnpackWord, UnpackInt8;
    var t := data[i..i + size + 17][size..];
    assert t == data[i + size..i + size + 17];
    assert data[i..i + size + 17][..size] == data[i..i + size];
    SubSlice(data, i + size, 17, 0, 4);
    SubSlice(data, i + size, 17, 4, 8);
    SubSlice(data, i + size, 17, 8, 12);
    SubSlice(data, i + size, 17, 12, 16);
  }

  lemma CountedIs(data: seq<byte>, i: nat, size: word)
    requires Word(data, i) == Some(size)
    ensures Counted(data, i) == if i + 4 + size <= |data| then Some((data[i + 4..i + 4 + size], i + 4 + size)) else None
  {
    hide UnpackWord;
  }

  /** A counted string, then the word behind it (and behind a terminating byte, for skip = 1). */
  lemma CountedAgrees(data: seq<byte>, i: nat, size: word, skip: nat)
    requires skip <= 1 && i + size + skip + 4 <= |data|
    ensures var b := data[i..i + size + skip + 4];
            && b[..size] == data[i..i + size]
            && Word(data, i + size + skip) == Some(UnpackWord(b[size + skip..]))
  {
    hide UnpackWord;
    var b := data[i..i + size + skip + 4];
    SubSlice(data, i, size + skip + 4, 0, size);
    SubSlice(data, i, size + skip + 4, size + skip, size + skip + 4);
    assert b[size + skip..] == b[size + skip..size + skip + 4];
  }

  lemma SendTailAgrees(data: seq<byte>, i: nat)
    requires i + 25 <= |data|
    ensures WalkSendTail(data, i) == Some(ParseSendTail(data, data[i..i + 25], i + 25))
  {
    hide UnpackWord, UnpackInt8;
    var f := data[i..i + 25];
    SubSlice(data, i, 25, 0, 4);
    SubSlice(data, i, 25, 5, 21);
    SubSlice(data, i, 25, 21, 25);
    assert f[21..] == f[21..25] && f[..4] == f[0..4];
  }

  lemma SendTailIsLong(b: seq<byte>, i: nat)
    ensures WalkSendTail(b, i).Some? ==> i + 25 <= |b| && i + 25 <= WalkSendTail(b, i).value.1
  {
    hide UnpackWord, UnpackInt8;
  }

  /** A request of size bytes, its NUL and all that follows. */
  lemma RequestAgrees(data: seq<byte>, i: nat, size: word)
    requires i + size + 26 <= |data|
    ensures var e := data[i..i + size + 26];
            && e[..size] == data[i..i + size]
            && WalkSendTail(data, i + size + 1) == Some(ParseSendTail(data, e[size + 1..], i + size + 26))
  {
    hide WalkSendTail, ParseSendTail;
    var e := data[i..i + size + 26];
    SubSlice(data, i, size + 26, 0, size);
    SubSlice(data, i, size + 26, size + 1, size + 26);
    assert e[size + 1..] == e[size + 1..size + 26];
    SendTailAgrees(data, i + size + 1);
  }

  predicate RestWithin(r: Option<(SendRest, nat)>, data: seq<byte>) {
    r.Some? && r.value.1 <= |data|
  }

  lemma SendRestAgrees(data: seq<byte>, i: nat, size: word)
    requires Word(data, i) == Some(size)
    ensures ParseSendRest(data, i + 4, size) == WalkSendRest(data, i)
  {
    hide UnpackWord, Counted, WalkSendTail, ParseSendTail, Word;
    CountedIs(data, i, size);
    var l := i + 4 + size + 1;
    if l + 4 <= |data| {
      CountedAgrees(data, i + 4, size, 1);
      var requestSize := UnpackWord(data[i + 4..l + 4][size + 1..]);
      CountedIs(data, l, requestSize);
      if l + 4 + requestSize + 26 <= |data| {
        RequestAgrees(data, l + 4, requestSize);
      } else {
        SendTailIsLong(data, l + 4 + requestSize + 1);
      }
    } else {
      NoWord(data, l);
    }
  }

  lemma NoWord(data: seq<byte>, i: nat)
    requires |data| < i + 4
    ensures Word(data, i) == None && Counted(data, i) == None
  {
  }

  lemma SendAgrees(data: seq<byte>, i: nat, sync: bool)
    ensures Within(ParseSend(data, i, sync), data) <==>
            Within(WalkSend(data, i, sync), data) && Texts(WalkSend(data, i, sync).value.0)
    ensures Within(ParseSend(data, i, sync), data) ==> ParseSend(data, i, sync) == WalkSend(data, i, sync)
  {
    hide UnpackWord, Counted, ParseSendRest, WalkSendRest;
    if i + 4 <= |data| {
      var nameSize := UnpackWord(data[i..i + 4]);
      CountedIs(data, i, nameSize);
      var j := i + 4 + nameSize;
      if j + 4 <= |data| {
        CountedAgrees(data, i + 4, nameSize, 0);
        var patternSize := UnpackWord(data[i + 4..j + 4][nameSize..]);
        CountedIs(data, j, patternSize);
        var k := j + 4 + patternSize;
        if k + 4 <= |data| {
          CountedAgrees(data, j + 4, patternSize, 0);
          SendRestAgrees(data, k, UnpackWord(data[j + 4..k + 4][patternSize..]));
        } else {
          NoRest(data, k);
        }
      } else {
        NoWord(data, j);
      }
    } else {
      NoWord(data, i);
    }
  }

  lemma NoRest(data: seq<byte>, i: nat)
    requires |data| < i + 4
    ensures WalkSendRest(data, i) == None
  {
    NoWord(data, i);
  }

  lemma ResponseAgrees(data: seq<byte>, i: nat, sync: bool)
    ensures Within(ParseResponse(data, i, sync), data) <==> Within(WalkResponse(data, i, sync), data)
    ensures Within(ParseResponse(data, i, sync), data) ==> ParseResponse(data, i, sync) == WalkResponse(data, i, sync)
  {
    hide UnpackWord;
    if i + 4 <= |data| {
      var infoSize := Word(data, i).value;
      if i + 4 + infoSize + 5 <= |data| {
        CountedAgrees(data, i + 4, infoSize, 1);
        var j := i + 4 + infoSize + 1;
        var size := Word(data, j).value;
        if j + 4 + size + 17 <= |data| {
          SubSlice(data, j + 4, size + 17, 0, size);
          SubSlice(data, j + 4, size + 17, size + 1, size + 17);
        }
      }
    }
  }

  lemma {:induction false} IdsAgree(data: seq<byte>, i: nat, n: nat)
    requires i + 16 * n <= |data|
    ensures Strings16(data[i..i + 16 * n]) == Chunks(data, i, n)
    decreases n
  {
    var s := data[i..i + 16 * n];
    if n == 0 {
      assert s == [];
    } else {
      assert s[..16] == data[i..i + 16] && s[16..] == data[i + 16..i + 16 + 16 * (n - 1)];
      IdsAgree(data, i + 16, n - 1);
    }
  }

  lemma ReturnsAgrees(data: seq<byte>, i: nat)
    ensures Within(ParseMessage(data, i, MESSAGE_RETURNS_ASYNC), data) <==>
            Within(WalkMessage(data, i, MESSAGE_RETURNS_ASYNC), data)
    ensures Within(ParseMessage(data, i, MESSAGE_RETURNS_ASYNC), data) ==>
              ParseMessage(data, i, MESSAGE_RETURNS_ASYNC) == WalkMessage(data, i, MESSAGE_RETURNS_ASYNC)
  {
    hide UnpackWord, Strings16, Chunks;
    if i + 4 <= |data| {
      var count: nat := UnpackWord(data[i..i + 4]);
      if i + 4 + 16 * count <= |data| {
        IdsAgree(data, i + 4, count);
      }
    }
  }

  /** Python finds a message within the data just when C++ does and no text has size 0; it is the same one. */
  lemma MessageAgrees(data: seq<byte>, i: nat, code: word)
    ensures Within(ParseMessage(data, i, code), data) <==>
            Within(WalkMessage(data, i, code), data) && Texts(WalkMessage(data, i, code).value.0)
    ensures Within(ParseMessage(data, i, code), data) ==> ParseMessage(data, i, code) == WalkMessage(data, i, code)
  {
    hide ParseInit, WalkInit, ParseSend, WalkSend, ParseResponse, WalkResponse, Strings16, Chunks;
    if code == MESSAGE_INIT {
      InitAgrees(data, i);
    } else if code == MESSAGE_SEND_ASYNC || code == MESSAGE_SEND_SYNC {
      SendAgrees(data, i, code == MESSAGE_SEND_SYNC);
    } else if code == MESSAGE_RECV_ASYNC || code == MESSAGE_RETURN_SYNC {
      ResponseAgrees(data, i, code == MESSAGE_RETURN_SYNC);
      ResponseHasNoTexts(data, i, code == MESSAGE_RETURN_SYNC);
    } else if code == MESSAGE_RETURNS_ASYNC {
      ReturnsAgrees(data, i);
    }
  }

  lemma ResponseHasNoTexts(data: seq<byte>, i: nat, sync: bool)
    ensures WalkResponse(data, i, sync).Some? ==> Texts(WalkResponse(data, i, sync).value.0)
  {
    hide UnpackWord;
  }

  lemma ReinitAgrees(data: seq<byte>, i: nat)
    ensures ParseReinit(data, i) == WalkReinit(data, i)
  {
    hide UnpackWord, UnpackInt8;
    if i + 13 <= |data| {
      Ungroup(data, i, 13, 0);
      Ungroup(data, i, 13, 4);
      Ungroup(data, i, 13, 8);
    }
  }

  lemma {:induction false} EventsAgree(data: seq<byte>, i: nat)
    ensures ParseEvents(data, i) == WalkEvents(data, |data|, i)
    decreases |data| - i
  {
    hide UnpackWord, ParseReinit, WalkReinit;
    if i + 4 <= |data| {
      var code := Word(data, i).value;
      if code == MESSAGE_REINIT {
        ReinitAgrees(data, i + 4);
        if i + 17 < |data| {
          EventsAgree(data, i + 17);
        }
      } else if code == MESSAGE_KEEPALIVE && i + 4 < |data| {
        EventsAgree(data, i + 4);
      }
    }
  }

  predicate FrameTexts(f: Frame) {
    f.message.Some? ==> Texts(f.message.value)
  }

  /**
   On the exact frame, Python accepts just what C++ accepts, except for a message whose name,
   pattern or prefix has size 0; both recover the same message and the same events.
   */
  lemma {:induction false} ParsersAgree(data: seq<byte>, i: nat)
    ensures ParseFrame(data, i).trailing.Accepted() <==>
            WalkFrame(data, |data|, i).trailing.Accepted() && FrameTexts(WalkFrame(data, |data|, i))
    ensures ParseFrame(data, i).trailing.Accepted() ==> ParseFrame(data, i) == WalkFrame(data, |data|, i)
    decreases |data| - i
  {
    hide UnpackWord, ParseReinit, WalkReinit, ParseMessage, WalkMessage, ParseEvents, WalkEvents, Texts;
    if i + 4 <= |data| {
      var code := Word(data, i).value;
      if IsMessage(code) {
        MessageAgrees(data, i + 4, code);
        AfterMessage(data, ParseMessage(data, i + 4, code));
        AfterMessage(data, WalkMessage(data, i + 4, code));
      } else if code == MESSAGE_REINIT {
        ReinitAgrees(data, i + 4);
        if i + 17 < |data| {
          ParsersAgree(data, i + 17);
        }
      } else if code == MESSAGE_KEEPALIVE && i + 4 < |data| {
        ParsersAgree(data, i + 4);
      }
    }
  }

  lemma AfterMessage(data: seq<byte>, r: Option<(Message, nat)>)
    ensures r.Some? ==> ParseEvents(data, r.value.1) == WalkEvents(data, |data|, r.value.1)
    ensures r.Some? && r.value.1 > |data| ==> !ParseEvents(data, r.value.1).Accepted()
  {
    if r.Some? {
      EventsAgree(data, r.value.1);
    }
  }

  // ---------- Bytes behind the frame

  lemma WordBefore(data: seq<byte>, s: seq<byte>, i: nat)
    ensures i + 4 <= |data| ==> Word(data + s, i) == Word(data, i)
    ensures i < |data| ==> Int8(data + s, i) == Int8(data, i)
  {
    if i + 4 <= |data| {
      assert (data + s)[i..i + 4] == data[i..i + 4];
    }
  }

  lemma BytesBefore(data: seq<byte>, s: seq<byte>, i: nat, n: nat)
    ensures i + n <= |data| ==> Bytes(data + s, i, n) == Bytes(data, i, n) && Slice(data + s, i, n) == Slice(data, i, n)
  {
    if i + n <= |data| {
      assert (data + s)[i..i + n] == data[i..i + n];
    }
  }

  lemma {:induction false} ChunksBefore(data: seq<byte>, s: seq<byte>, i: nat, n: nat)
    requires i + 16 * n <= |data|
    ensures Chunks(data + s, i, n) == Chunks(data, i, n)
    decreases n
  {
    if n > 0 {
      BytesBefore(data, s, i, 16);
      ChunksBefore(data, s, i + 16, n - 1);
    }
  }

  lemma CountedBefore(data: seq<byte>, s: seq<byte>, i: nat)
    ensures var r, t := Counted(data, i), Counted(data + s, i);
            && (r.Some? ==> t == r && r.value.1 <= |data|)
            && (t.Some? ==> i < t.value.1 && (t.value.1 <= |data| ==> r == t))
  {
    hide UnpackWord;
    WordBefore(data, s, i);
    if Word(data, i).Some? {
      BytesBefore(data, s, i + 4, Word(data, i).value);
    }
  }

  lemma InitBefore(data: seq<byte>, s: seq<byte>, i: nat)
    ensures Within(WalkInit(data, i), data) <==> Within(WalkInit(data + s, i), data)
    ensures Within(WalkInit(data, i), data) ==> WalkInit(data + s, i) == WalkInit(data, i)
  {
    hide UnpackWord, UnpackInt8, Counted;
    WordBefore(data, s, i);
    WordBefore(data, s, i + 4);
    WordBefore(data, s, i + 8);
    WordBefore(data, s, i + 12);
    CountedBefore(data, s, i + 16);
    if Counted(data + s, i + 16).Some? {
      var j := Counted(data + s, i + 16).value.1;
      WordBefore(data, s, j);
      WordBefore(data, s, j + 4);
      WordBefore(data, s, j + 8);
      WordBefore(data, s, j + 12);
      WordBefore(data, s, j + 16);
    }
  }

  predicate TailWithin(r: Option<(SendTail, nat)>, data: seq<byte>) {
    r.Some? && r.value.1 <= |data|
  }

  lemma SendTailBefore(data: seq<byte>, s: seq<byte>, i: nat)
    ensures TailWithin(WalkSendTail(data, i), data) <==> TailWithin(WalkSendTail(data + s, i), data)
    ensures TailWithin(WalkSendTail(data, i), data) ==> WalkSendTail(data + s, i) == WalkSendTail(data, i)
    ensures WalkSendTail(data + s, i).Some? ==> i <= WalkSendTail(data + s, i).value.1
    ensures WalkSendTail(data, i).Some? ==> i <= WalkSendTail(data, i).value.1
  {
    hide UnpackWord, UnpackInt8;
    SendTailIsLong(data, i);
    SendTailIsLong(data + s, i);
    if i + 25 <= |data| {
      WordBefore(data, s, i);
      WordBefore(data, s, i + 4);
      BytesBefore(data, s, i + 5, 16);
      WordBefore(data, s, i + 21);
      BytesBefore(data, s, i + 25, Word(data, i + 21).value);
    }
  }

  lemma SendRestBefore(data: seq<byte>, s: seq<byte>, i: nat)
    ensures RestWithin(WalkSendRest(data, i), data) <==> RestWithin(WalkSendRest(data + s, i), data)
    ensures RestWithin(WalkSendRest(data, i), data) ==> WalkSendRest(data + s, i) == WalkSendRest(data, i)
    ensures WalkSendRest(data + s, i).Some? ==> i <= WalkSendRest(data + s, i).value.1
    ensures WalkSendRest(data, i).Some? ==> i <= WalkSendRest(data, i).value.1
  {
    hide Counted, WalkSendTail;
    CountedBefore(data, s, i);
    if Counted(data + s, i).Some? {
      var j := Counted(data + s, i).value.1 + 1;
      CountedBefore(data, s, j);
      if Counted(data + s, j).Some? {
        SendTailBefore(data, s, Counted(data + s, j).value.1 + 1);
      }
    }
  }

  lemma SendBefore(data: seq<byte>, s: seq<byte>, i: nat, sync: bool)
    ensures Within(WalkSend(data, i, sync), data) <==> Within(WalkSend(data + s, i, sync), data)
    ensures Within(WalkSend(data, i, sync), data) ==> WalkSend(data + s, i, sync) == WalkSend(data, i, sync)
  {
    hide Counted, WalkSendRest;
    CountedBefore(data, s, i);
    if Counted(data + s, i).Some? {
      var j := Counted(data + s, i).value.1;
      CountedBefore(data, s, j);
      if Counted(data + s, j).Some? {
        SendRestBefore(data, s, Counted(data + s, j).value.1);
      }
    }
  }

  lemma ResponseBefore(data: seq<byte>, s: seq<byte>, i: nat, sync: bool)
    ensures Within(WalkResponse(data, i, sync), data) <==> Within(WalkResponse(data + s, i, sync), data)
    ensures Within(WalkResponse(data, i, sync), data) ==> WalkResponse(data + s, i, sync) == WalkResponse(data, i, sync)
  {
    hide Counted;
    CountedBefore(data, s, i);
    if Counted(data + s, i).Some? {
      var j := Counted(data + s, i).value.1 + 1;
      CountedBefore(data, s, j);
      if Counted(data + s, j).Some? {
        BytesBefore(data, s, Counted(data + s, j).value.1 + 1, 16);
      }
    }
  }

  lemma ReturnsBefore(data: seq<byte>, s: seq<byte>, i: nat)
    ensures Within(WalkMessage(data, i, MESSAGE_RETURNS_ASYNC), data) <==>
            Within(WalkMessage(data + s, i, MESSAGE_RETURNS_ASYNC), data)
    ensures Within(WalkMessage(data, i, MESSAGE_RETURNS_ASYNC), data) ==>
              WalkMessage(data + s, i, MESSAGE_RETURNS_ASYNC) == WalkMessage(data, i, MESSAGE_RETURNS_ASYNC)
  {
    hide UnpackWord, Chunks;
    WordBefore(data, s, i);
    if i + 4 <= |data| {
      var count: nat := UnpackWord(data[i..i + 4]);
      if i + 4 + 16 * count <= |data| {
        ChunksBefore(data, s, i + 4, count);
      }
    }
  }

  lemma MessageBefore(data: seq<byte>, s: seq<byte>, i: nat, code: word)
    ensures Within(WalkMessage(data, i, code), data) <==> Within(WalkMessage(data + s, i, code), data)
    ensures Within(WalkMessage(data, i, code), data) ==> WalkMessage(data + s, i, code) == WalkMessage(data, i, code)
  {
    hide UnpackWord, WalkInit, WalkSend, WalkResponse, Chunks;
    if code == MESSAGE_INIT {
      InitBefore(data, s, i);
    } else if code == MESSAGE_SEND_ASYNC || code == MESSAGE_SEND_SYNC {
      SendBefore(data, s, i, code == MESSAGE_SEND_SYNC);
    } else if code == MESSAGE_RECV_ASYNC || code == MESSAGE_RETURN_SYNC {
      ResponseBefore(data, s, i, code == MESSAGE_RETURN_SYNC);
    } else if code == MESSAGE_RETURNS_ASYNC {
      ReturnsBefore(data, s, i);
    } else {
      BytesBefore(data, s, i, 16);
      WordBefore(data, s, i);
    }
  }

  lemma ReinitBefore(data: seq<byte>, s: seq<byte>, i: nat)
    ensures i + 13 <= |data| ==> WalkReinit(data + s, i) == WalkReinit(data, i)
  {
    hide UnpackWord, UnpackInt8;
    WordBefore(data, s, i);
    WordBefore(data, s, i + 4);
    WordBefore(data, s, i + 8);
    WordBefore(data, s, i + 12);
  }

  predicate Inside(r: Scan, data: seq<byte>) {
    r.Accepted() && r.end <= |data|
  }

  lemma {:induction false} EventsBefore(data: seq<byte>, s: seq<byte>, i: nat)
    ensures Inside(WalkEvents(data, |data|, i), data) <==> Inside(WalkEvents(data + s, |data|, i), data)
    ensures Inside(WalkEvents(data, |data|, i), data) ==>
              WalkEvents(data + s, |data|, i) == WalkEvents(data, |data|, i)
    ensures WalkEvents(data, |data|, i).Accepted() ==> Inside(WalkEvents(data, |data|, i), data)
    decreases |data| - i
  {
    hide UnpackWord, WalkReinit;
    WordBefore(data, s, i);
    ReinitBefore(data, s, i + 4);
    if i + 17 < |data| {
      EventsBefore(data, s, i + 17);
    }
    if i + 4 < |data| {
      EventsBefore(data, s, i + 4);
    }
  }

  /**
   The walk over a buffer accepts a frame and ends inside of it just when it accepts the exact
   frame; then it finds the same in every buffer.
   */
  lemma {:induction false} StaleBytes(data: seq<byte>, s: seq<byte>, i: nat)
    ensures WalkFrame(data, |data|, i).trailing.Accepted() <==> Inside(WalkFrame(data + s, |data|, i).trailing, data)
    ensures WalkFrame(data, |data|, i).trailing.Accepted() ==>
              WalkFrame(data + s, |data|, i) == WalkFrame(data, |data|, i)
    decreases |data| - i
  {
    hide UnpackWord, WalkReinit, WalkMessage, WalkEvents;
    WordBefore(data, s, i);
    if i + 4 <= |data| {
      var code := Word(data, i).value;
      if IsMessage(code) {
        MessageBefore(data, s, i + 4, code);
        AfterMessageBefore(data, s, WalkMessage(data, i + 4, code));
        AfterMessageBefore(data, s, WalkMessage(data + s, i + 4, code));
      } else if code == MESSAGE_REINIT {
        ReinitBefore(data, s, i + 4);
        if i + 17 < |data| {
          StaleBytes(data, s, i + 17);
        }
      } else if code == MESSAGE_KEEPALIVE && i + 4 < |data| {
        StaleBytes(data, s, i + 4);
      }
    } else {
      ShortFrame(data, s, i);
    }
  }

  lemma AfterMessageBefore(data: seq<byte>, s: seq<byte>, r: Option<(Message, nat)>)
    ensures r.Some? ==>
              var e, f := WalkEvents(data, |data|, r.value.1), WalkEvents(data + s, |data|, r.value.1);
              && (Inside(e, data) <==> Inside(f, data)) && (Inside(e, data) ==> e == f)
              && (e.Accepted() ==> Inside(e, data))
              && (r.value.1 > |data| ==> !e.Accepted() && !f.Accepted())
  {
    if r.Some? {
      EventsBefore(data, s, r.value.1);
    }
  }

  lemma ShortFrame(data: seq<byte>, s: seq<byte>, i: nat)
    requires |data| < i + 4
    ensures !Inside(WalkFrame(data + s, |data|, i).trailing, data)
  {
    hide UnpackWord, WalkReinit, WalkMessage, WalkEvents;
    if i + 4 <= |data + s| {
      var code := Word(data + s, i).value;
      if IsMessage(code) {
        var r := WalkMessage(data + s, i + 4, code);
        MessageAdvances(data + s, i + 4, code);
        AfterMessageBefore(data, s, r);
      }
    }
  }

  lemma MessageAdvances(b: seq<byte>, i: nat, code: word)
    ensures WalkMessage(b, i, code).Some? ==> i <= WalkMessage(b, i, code).value.1
  {
    hide UnpackWord, UnpackInt8;
  }

  // ---------- Which frames those bytes matter to

  /** The walk over data stopped at a code of which only the first one to three bytes are there, those of TERM. */
  predicate CutTerm(data: seq<byte>, r: Scan) {
    r.ending.Undefined? && r.end < |data| && data[r.end..] < PackWord(MESSAGE_TERM)
  }

  lemma TermBytes(s: seq<byte>)
    requires |s| == 4 && UnpackWord(s) == MESSAGE_TERM
    ensures s == PackWord(MESSAGE_TERM)
  {
    assert s[0] as int + 256 * s[1] + 0x1_0000 * s[2] + 0x100_0000 * s[3] == 11;
    assert s == [11, 0, 0, 0];
  }

  /** A TERM that begins inside the frame and ends behind it. */
  lemma TermBegins(data: seq<byte>, s: seq<byte>, i: nat)
    requires i < |data| < i + 4 && Word(data + s, i) == Some(MESSAGE_TERM)
    ensures Word(data, i) == None && data[i..] < PackWord(MESSAGE_TERM)
  {
    hide UnpackWord, PackWord;
    var b := (data + s)[i..i + 4];
    TermBytes(b);
    assert data[i..] == b[..|data| - i];
  }

  lemma {:induction false} EventsOutside(data: seq<byte>, s: seq<byte>, i: nat)
    requires i != |data| && WalkEvents(data + s, |data|, i).Accepted() && |data| < WalkEvents(data + s, |data|, i).end
    ensures CutTerm(data, WalkEvents(data, |data|, i))
    decreases |data + s| - i
  {
    hide UnpackWord, PackWord, WalkReinit, Word;
    WordBefore(data, s, i);
    ReinitBefore(data, s, i + 4);
    var code := Word(data + s, i).value;
    if code == MESSAGE_TERM {
      TermBegins(data, s, i);
    } else if code == MESSAGE_REINIT {
      EventsOutside(data, s, i + 17);
    } else {
      EventsOutside(data, s, i + 4);
    }
  }

  /** What is accepted only with bytes from behind the frame ends in such a TERM. */
  lemma {:induction false} FrameOutside(data: seq<byte>, s: seq<byte>, i: nat)
    requires i < |data| && WalkFrame(data + s, |data|, i).trailing.Accepted()
    requires |data| < WalkFrame(data + s, |data|, i).trailing.end
    ensures CutTerm(data, WalkFrame(data, |data|, i).trailing)
    decreases |data + s| - i
  {
    hide UnpackWord, PackWord, WalkReinit, WalkMessage, WalkEvents, Word;
    WordBefore(data, s, i);
    ReinitBefore(data, s, i + 4);
    var code := Word(data + s, i).value;
    if IsMessage(code) {
      var r := WalkMessage(data + s, i + 4, code);
      MessageAdvances(data + s, i + 4, code);
      MessageBefore(data, s, i + 4, code);
      AfterMessageBefore(data, s, r);
      EventsOutside(data, s, r.value.1);
      WordInside(data, i);
    } else if code == MESSAGE_TERM {
      TermBegins(data, s, i);
    } else if code == MESSAGE_REINIT {
      WordInside(data, i);
      FrameOutside(data, s, i + 17);
    } else {
      WordInside(data, i);
      FrameOutside(data, s, i + 4);
    }
  }

  lemma WordInside(data: seq<byte>, i: nat)
    ensures i + 4 <= |data| <==> Word(data, i).Some?
  {
    hide UnpackWord;
  }

  /** And the missing bytes of such a TERM make it accepted. */
  lemma {:induction false} EventsCompleted(data: seq<byte>, s: seq<byte>, i: nat)
    requires CutTerm(data, WalkEvents(data, |data|, i))
    requires s == PackWord(MESSAGE_TERM)[|data| - WalkEvents(data, |data|, i).end..]
    ensures WalkEvents(data + s, |data|, i).ending == Terminated
    decreases |data| - i
  {
    hide UnpackWord, PackWord, WalkReinit, Word;
    WordBefore(data, s, i);
    WordInside(data, i);
    ReinitBefore(data, s, i + 4);
    ReinitInside(data, i + 4);
    if i + 4 <= |data| {
      var code := Word(data, i).value;
      if code == MESSAGE_REINIT {
        EventsCompleted(data, s, i + 17);
      } else {
        EventsCompleted(data, s, i + 4);
      }
    } else {
      TermCompleted(data, s, i);
    }
  }

  lemma ReinitInside(data: seq<byte>, i: nat)
    ensures i + 13 <= |data| <==> WalkReinit(data, i).Some?
  {
    hide UnpackWord, UnpackInt8;
  }

  lemma TermCompleted(data: seq<byte>, s: seq<byte>, i: nat)
    requires i < |data| < i + 4 && data[i..] < PackWord(MESSAGE_TERM) && s == PackWord(MESSAGE_TERM)[|data| - i..]
    ensures Word(data + s, i) == Some(MESSAGE_TERM)
  {
    hide UnpackWord, PackWord;
    UnpackPackWord(MESSAGE_TERM);
    assert (data + s)[i..i + 4] == PackWord(MESSAGE_TERM);
  }

  lemma {:induction false} FrameCompleted(data: seq<byte>, s: seq<byte>, i: nat)
    requires CutTerm(data, WalkFrame(data, |data|, i).trailing)
    requires s == PackWord(MESSAGE_TERM)[|data| - WalkFrame(data, |data|, i).trailing.end..]
    ensures WalkFrame(data + s, |data|, i).trailing.ending == Terminated
    decreases |data| - i
  {
    hide UnpackWord, PackWord, WalkReinit, WalkMessage, WalkEvents, Word;
    WordBefore(data, s, i);
    WordInside(data, i);
    ReinitBefore(data, s, i + 4);
    ReinitInside(data, i + 4);
    if i + 4 <= |data| {
      var code := Word(data, i).value;
      if IsMessage(code) {
        var r := WalkMessage(data, i + 4, code);
        MessageBefore(data, s, i + 4, code);
        AfterMessageBefore(data, s, r);
        if r.Some? {
          EventsStop(data, r.value.1);
          EventsCompleted(data, s, r.value.1);
        }
      } else if code == MESSAGE_REINIT {
        FrameCompleted(data, s, i + 17);
      } else {
        FrameCompleted(data, s, i + 4);
      }
    } else {
      TermCompleted(data, s, i);
    }
  }

  lemma EventsStop(data: seq<byte>, i: nat)
    ensures i > |data| ==> WalkEvents(data, |data|, i).ending == Underflow
  {
  }

  predicate AcceptedWith(data: seq<byte>, s: seq<byte>, i: nat) {
    WalkFrame(data + s, |data|, i).trailing.Accepted()
  }

  /**
   Whether C++ accepts a frame depends on what lies behind it in the buffer if and only if the
   frame ends inside of a code and with the first bytes of TERM. (The size of a frame is not 0,
   which `poll_request` checks.)
   */
  lemma StaleBytesDecideIff(data: seq<byte>, i: nat)
    requires i < |data|
    ensures (exists s, t :: AcceptedWith(data, s, i) && !AcceptedWith(data, t, i)) <==>
            CutTerm(data, WalkFrame(data, |data|, i).trailing)
    ensures !CutTerm(data, WalkFrame(data, |data|, i).trailing) ==>
              forall s :: AcceptedWith(data, s, i) ==> WalkFrame(data + s, |data|, i) == WalkFrame(data, |data|, i)
  {
    hide WalkFrame, WalkEvents;
    forall s | AcceptedWith(data, s, i) && !CutTerm(data, WalkFrame(data, |data|, i).trailing)
      ensures WalkFrame(data + s, |data|, i) == WalkFrame(data, |data|, i)
    {
      StaleBytes(data, s, i);
      if !WalkFrame(data, |data|, i).trailing.Accepted() {
        FrameOutside(data, s, i);
      }
    }
    if CutTerm(data, WalkFrame(data, |data|, i).trailing) {
      var s := PackWord(MESSAGE_TERM)[|data| - WalkFrame(data, |data|, i).trailing.end..];
      FrameCompleted(data, s, i);
      assert data + [] == data;
      assert AcceptedWith(data, s, i) && !AcceptedWith(data, [], i);
    } else if s, t :| AcceptedWith(data, s, i) && !AcceptedWith(data, t, i) {
      StaleBytes(data, s, i);
      StaleBytes(data, t, i);
    }
  }

  /**
   The one event whose end is not compared with the size of the frame is TERM: with a frame
   that ends inside of the code of an event, what is left of an older frame decides.
   */
  lemma StaleTerm()
    ensures var frame := MessageLayout(SubscribeCount(7)) + [MESSAGE_TERM];
            && WalkFrame(frame + [0, 0, 0], |frame|, 0).trailing.ending == Terminated
            && WalkFrame(frame + [1, 0, 0], |frame|, 0).trailing.ending == Underflow
            && ParseFrame(frame, 0).trailing.ending == Undefined
  {
    hide WalkFrame, ParseFrame, MessageLayout;
    CountFrame();
    StaleTermWalk([10, 0, 0, 0, 7, 0, 0, 0, 11] + [0, 0, 0], 0);
    StaleTermWalk([10, 0, 0, 0, 7, 0, 0, 0, 11] + [1, 0, 0], 1);
    ShortTermParse();
  }

  lemma CountFrame()
    ensures MessageLayout(SubscribeCount(7)) + [MESSAGE_TERM] == [10, 0, 0, 0, 7, 0, 0, 0, 11]
  {
  }

  lemma ShortTermParse()
    ensures ParseFrame([10, 0, 0, 0, 7, 0, 0, 0, 11], 0).trailing.ending == Undefined
  {
    var frame: seq<byte> := [10, 0, 0, 0, 7, 0, 0, 0, 11];
    assert frame[0..4] == [10, 0, 0, 0] && frame[4..8] == [7, 0, 0, 0];
  }

  lemma StaleTermWalk(b: seq<byte>, x: byte)
    requires x <= 1 && b == [10, 0, 0, 0, 7, 0, 0, 0, 11, x, 0, 0]
    ensures WalkFrame(b, 9, 0).trailing.ending == if x == 0 then Terminated else Underflow
  {
    assert b[0..4] == [10, 0, 0, 0] && b[4..8] == [7, 0, 0, 0] && b[8..12] == [11, x, 0, 0];
  }

  // ---------- The layout

  lemma WordAt(b: seq<byte>, i: nat, n: word)
    requires At(b, i, PackWord(n))
    ensures Word(b, i) == Some(n) && i + 4 <= |b|
  {
    UnpackPackWord(n);
  }

  lemma Int8At(b: seq<byte>, i: nat, n: int8)
    requires At(b, i, [PackInt8(n)])
    ensures Int8(b, i) == Some(n) && i + 1 <= |b|
  {
    assert b[i..i + 1][0] == b[i];
  }

  lemma CountedAt(b: seq<byte>, i: nat, s: seq<byte>)
    requires |s| < U32_LIMIT && At(b, i, Sized(s))
    ensures Counted(b, i) == Some((s, i + 4 + |s|)) && i + 4 + |s| <= |b|
  {
    hide PackWord, UnpackWord;
    AtSplit(b, i, PackWord(|s|), s);
    WordAt(b, i, |s|);
  }

  lemma {:induction false} ChunksAt(b: seq<byte>, i: nat, ids: seq<seq<byte>>)
    requires forall k :: 0 <= k < |ids| ==> |ids[k]| == 16
    requires At(b, i, JoinedIds(ids))
    ensures Chunks(b, i, |ids|) == ids
    decreases |ids|
  {
    if ids != [] {
      AtSplit(b, i, ids[0], JoinedIds(ids[1..]));
      ChunksAt(b, i + 16, ids[1..]);
      assert [ids[0]] + ids[1..] == ids;
    }
  }

  lemma InitAt(b: seq<byte>, i: nat, m: Message)
    requires m.Init? && Legal(m) && At(b, i, Fields(m))
    ensures WalkInit(b, i) == Some((m, i + |Fields(m)|))
  {
    hide PackWord, UnpackWord, UnpackInt8, PackInt8, Counted, Word, Int8, At, Sized;
    var w0, w1 := PackWord(m.processIndex), PackWord(m.processCount);
    var w2, w3 := PackWord(m.processCountMax), PackWord(m.processCountMin);
    var p := Sized(m.prefix);
    var w4, w5 := PackWord(m.timeoutInitialize), PackWord(m.timeoutAsync);
    var w6, w7 := PackWord(m.timeoutSync), PackWord(m.timeoutTerminate);
    var c := [PackInt8(m.priorityDefault)];
    var r4 := w4 + (w5 + (w6 + (w7 + c)));
    AtSplit(b, i, w0, w1 + (w2 + (w3 + (p + r4))));
    AtSplit(b, i + 4, w1, w2 + (w3 + (p + r4)));
    AtSplit(b, i + 8, w2, w3 + (p + r4));
    AtSplit(b, i + 12, w3, p + r4);
    AtSplit(b, i + 16, p, r4);
    SizedLength(m.prefix);
    var j := i + 16 + |p|;
    AtSplit(b, j, w4, w5 + (w6 + (w7 + c)));
    AtSplit(b, j + 4, w5, w6 + (w7 + c));
    AtSplit(b, j + 8, w6, w7 + c);
    AtSplit(b, j + 12, w7, c);
    WordAt(b, i, m.processIndex);
    WordAt(b, i + 4, m.processCount);
    WordAt(b, i + 8, m.processCountMax);
    WordAt(b, i + 12, m.processCountMin);
    CountedAt(b, i + 16, m.prefix);
    WordAt(b, j, m.timeoutInitialize);
    WordAt(b, j + 4, m.timeoutAsync);
    WordAt(b, j + 8, m.timeoutSync);
    WordAt(b, j + 12, m.timeoutTerminate);
    Int8At(b, j + 16, m.priorityDefault);
  }

  lemma SizedLength(s: seq<byte>)
    requires |s| < U32_LIMIT
    ensures |Sized(s)| == 4 + |s|
  {
  }

  function SendTailFields(m: Message): seq<byte>
    requires m.Send? && Legal(m)
  {
    PackWord(m.timeout) + ([PackInt8(m.priority)] + (m.transId + Sized(m.pid)))
  }

  function SendRestFields(m: Message): seq<byte>
    requires m.Send? && Legal(m)
  {
    Sized(m.requestInfo) + ([0] + (Sized(m.request) + ([0] + SendTailFields(m))))
  }

  lemma SendTailAt(b: seq<byte>, i: nat, m: Message)
    requires m.Send? && Legal(m) && At(b, i, SendTailFields(m))
    ensures WalkSendTail(b, i)
         == Some((SendTail(m.timeout, m.priority, m.transId, m.pid), i + |SendTailFields(m)|))
  {
    hide PackWord, UnpackWord, UnpackInt8, PackInt8, Word, Int8, Sized;
    var w, c := PackWord(m.timeout), [PackInt8(m.priority)];
    var p := Sized(m.pid);
    SizedLength(m.pid);
    AtSplit(b, i, w, c + (m.transId + p));
    AtSplit(b, i + 4, c, m.transId + p);
    AtSplit(b, i + 5, m.transId, p);
    WordAt(b, i, m.timeout);
    Int8At(b, i + 4, m.priority);
    PidAt(b, i + 21, m.pid);
  }

  lemma PidAt(b: seq<byte>, i: nat, pid: seq<byte>)
    requires |pid| < U32_LIMIT && At(b, i, Sized(pid))
    ensures Word(b, i) == Some(|pid|) && Slice(b, i + 4, |pid|) == pid
  {
    AtSplit(b, i, PackWord(|pid|), pid);
    WordAt(b, i, |pid|);
  }

  lemma SendRestAt(b: seq<byte>, i: nat, m: Message)
    requires m.Send? && Legal(m) && At(b, i, SendRestFields(m))
    ensures WalkSendRest(b, i)
         == Some((SendRest(m.requestInfo, m.request, SendTail(m.timeout, m.priority, m.transId, m.pid)),
                  i + |SendRestFields(m)|))
  {
    hide At, Sized, Counted, WalkSendTail, SendTailFields;
    var f, r, t := Sized(m.requestInfo), Sized(m.request), SendTailFields(m);
    SizedLength(m.requestInfo);
    SizedLength(m.request);
    AtSplit(b, i, f, [0] + (r + ([0] + t)));
    AtSplit(b, i + |f|, [0], r + ([0] + t));
    AtSplit(b, i + |f| + 1, r, [0] + t);
    AtSplit(b, i + |f| + 1 + |r|, [0], t);
    CountedAt(b, i, m.requestInfo);
    CountedAt(b, i + |f| + 1, m.request);
    SendTailAt(b, i + |f| + |r| + 2, m);
  }

  lemma SendFields(m: Message)
    requires m.Send? && Legal(m)
    ensures Fields(m) == Sized(m.name) + (Sized(m.pattern) + SendRestFields(m))
  {
  }

  lemma SendAt(b: seq<byte>, i: nat, m: Message)
    requires m.Send? && Legal(m) && At(b, i, Fields(m))
    ensures WalkSend(b, i, m.sync) == Some((m, i + |Fields(m)|))
  {
    hide At, Sized, Counted, WalkSendRest, SendRestFields, Fields;
    var n, p, r := Sized(m.name), Sized(m.pattern), SendRestFields(m);
    SendFields(m);
    SizedLength(m.name);
    SizedLength(m.pattern);
    AtSplit(b, i, n, p + r);
    AtSplit(b, i + |n|, p, r);
    CountedAt(b, i, m.name);
    CountedAt(b, i + |n|, m.pattern);
    SendRestAt(b, i + |n| + |p|, m);
  }

  lemma ResponseAt(b: seq<byte>, i: nat, m: Message)
    requires m.Response? && Legal(m) && At(b, i, Fields(m))
    ensures WalkResponse(b, i, m.sync) == Some((m, i + |Fields(m)|))
  {
    hide Sized, Counted;
    var f, r := Sized(m.responseInfo), Sized(m.response);
    SizedLength(m.responseInfo);
    SizedLength(m.response);
    AtSplit(b, i, f, [0] + (r + ([0] + m.transId)));
    AtSplit(b, i + |f|, [0], r + ([0] + m.transId));
    AtSplit(b, i + |f| + 1, r, [0] + m.transId);
    AtSplit(b, i + |f| + 1 + |r|, [0], m.transId);
    CountedAt(b, i, m.responseInfo);
    CountedAt(b, i + |f| + 1, m.response);
  }

  lemma ReturnsAt(b: seq<byte>, i: nat, m: Message)
    requires m.ReturnsAsync? && Legal(m) && At(b, i, Fields(m))
    ensures WalkMessage(b, i, MESSAGE_RETURNS_ASYNC) == Some((m, i + |Fields(m)|))
  {
    hide PackWord, UnpackWord, Chunks, JoinedIds, Word;
    AtSplit(b, i, PackWord(|m.transIds|), JoinedIds(m.transIds));
    WordAt(b, i, |m.transIds|);
    ChunksAt(b, i + 4, m.transIds);
  }

  lemma MessageAt(b: seq<byte>, i: nat, m: Message)
    requires Legal(m) && At(b, i, Fields(m))
    ensures WalkMessage(b, i, Code(m)) == Some((m, i + |Fields(m)|))
  {
    hide PackWord, UnpackWord, WalkInit, WalkSend, WalkResponse, Chunks;
    match m
    case Init(_, _, _, _, _, _, _, _, _, _) => InitAt(b, i, m);
    case Send(_, _, _, _, _, _, _, _, _) => SendAt(b, i, m);
    case Response(_, _, _, _) => ResponseAt(b, i, m);
    case ReturnAsync(_) =>
    case ReturnsAsync(_) => ReturnsAt(b, i, m);
    case SubscribeCount(count) => WordAt(b, i, count);
  }

  lemma ReinitAt(b: seq<byte>, i: nat, e: Event)
    requires e.Reinit? && At(b, i, EventLayout(e))
    ensures Word(b, i) == Some(MESSAGE_REINIT) && WalkReinit(b, i + 4) == Some(e) && |EventLayout(e)| == 17
  {
    hide PackWord, UnpackWord, PackInt8, UnpackInt8, Word, Int8, At;
    var w0, w1 := PackWord(MESSAGE_REINIT), PackWord(e.processCount);
    var w2, w3 := PackWord(e.timeoutAsync), PackWord(e.timeoutSync);
    var c := [PackInt8(e.priorityDefault)];
    AtSplit(b, i, w0, w1 + (w2 + (w3 + c)));
    AtSplit(b, i + 4, w1, w2 + (w3 + c));
    AtSplit(b, i + 8, w2, w3 + c);
    AtSplit(b, i + 12, w3, c);
    WordAt(b, i, MESSAGE_REINIT);
    WordAt(b, i + 4, e.processCount);
    WordAt(b, i + 8, e.timeoutAsync);
    WordAt(b, i + 12, e.timeoutSync);
    Int8At(b, i + 16, e.priorityDefault);
  }

  /** Up to the first TERM, itself included: what takes effect. */
  function UpToTerm(es: seq<Event>): seq<Event> {
    if es == [] then [] else if es[0].Term? then [Term] else [es[0]] + UpToTerm(es[1..])
  }

  lemma EventAt(b: seq<byte>, i: nat, es: seq<Event>)
    requires es != [] && At(b, i, EventsLayout(es))
    ensures At(b, i, EventLayout(es[0])) && At(b, i + |EventLayout(es[0])|, EventsLayout(es[1..]))
    ensures |EventsLayout(es)| == |EventLayout(es[0])| + |EventsLayout(es[1..])|
    ensures |EventLayout(es[0])| == if es[0].Reinit? then 17 else 4
    ensures es[0].Reinit? ==> Word(b, i) == Some(MESSAGE_REINIT) && WalkReinit(b, i + 4) == Some(es[0])
    ensures es[0].Keepalive? ==> Word(b, i) == Some(MESSAGE_KEEPALIVE)
    ensures es[0].Term? ==> Word(b, i) == Some(MESSAGE_TERM)
  {
    hide PackWord, UnpackWord, Word, WalkReinit, At;
    AtSplit(b, i, EventLayout(es[0]), EventsLayout(es[1..]));
    match es[0]
    case Term => WordAt(b, i, MESSAGE_TERM);
    case Reinit(_, _, _, _) => ReinitAt(b, i, es[0]);
    case Keepalive => WordAt(b, i, MESSAGE_KEEPALIVE);
  }

  lemma EventsLength(es: seq<Event>)
    ensures (EventsLayout(es) == []) <==> (es == [])
  {
    if es != [] {
      assert |EventLayout(es[0])| >= 4;
    }
  }

  /** What handle_events makes of the events es that fill the frame up to size. */
  function Expected(es: seq<Event>, size: nat, end: nat): Scan {
    if Term in es then Scan(UpToTerm(es), Terminated, end) else Scan(es, Complete, size)
  }

  lemma {:induction false} EventsAt(b: seq<byte>, i: nat, size: nat, es: seq<Event>)
    requires es != [] && At(b, i, EventsLayout(es)) && size == i + |EventsLayout(es)|
    ensures WalkEvents(b, size, i) == Expected(es, size, WalkEvents(b, size, i).end)
    ensures WalkEvents(b, size, i).end <= size
    decreases |es|
  {
    hide PackWord, UnpackWord, WalkReinit, Word, At, EventLayout, EventsLayout;
    var rest := es[1..];
    EventAt(b, i, es);
    EventsLength(rest);
    assert es == [es[0]] + rest;
    if !es[0].Term? && rest != [] {
      EventsAt(b, i + |EventLayout(es[0])|, size, rest);
    }
  }

  // ---------- Whole frames

  /** Some events, at most one message, and then some more events; not nothing at all. */
  predicate Sensible(leading: seq<Event>, message: Option<Message>, trailing: seq<Event>) {
    && (message.Some? ==> Legal(message.value))
    && (message.None? ==> leading != [] && trailing == [])
  }

  /** What follows the leading events. */
  function Behind(message: Option<Message>, trailing: seq<Event>): (s: seq<byte>)
    requires message.Some? ==> Legal(message.value)
    ensures message.Some? ==> |s| >= 4
    ensures message.None? ==> s == []
  {
    match message
    case None => []
    case Some(m) => MessageLayout(m) + EventsLayout(trailing)
  }

  function FrameLayout(leading: seq<Event>, message: Option<Message>, trailing: seq<Event>): seq<byte>
    requires Sensible(leading, message, trailing)
  {
    EventsLayout(leading) + Behind(message, trailing)
  }

  /** The frame as it should be understood. */
  function Meaning(leading: seq<Event>, message: Option<Message>, trailing: seq<Event>, size: nat, end: nat): Frame {
    if Term in leading then Frame(UpToTerm(leading), None, Scan([], Terminated, end))
    else match message
      case None => Frame(leading, None, Scan([], Complete, size))
      case Some(m) => Frame(leading, message, Expected(trailing, size, end))
  }

  lemma MessageFrameAt(b: seq<byte>, i: nat, size: nat, m: Message, trailing: seq<Event>)
    requires Legal(m) && At(b, i, MessageLayout(m) + EventsLayout(trailing))
    requires size == i + |MessageLayout(m) + EventsLayout(trailing)|
    ensures var f := WalkFrame(b, size, i);
            f == Meaning([], Some(m), trailing, size, f.trailing.end) && f.trailing.end <= size
  {
    hide PackWord, UnpackWord, WalkMessage, WalkEvents, Word, At, Fields, EventsLayout;
    AtSplit(b, i, MessageLayout(m), EventsLayout(trailing));
    AtSplit(b, i, PackWord(Code(m)), Fields(m));
    WordAt(b, i, Code(m));
    MessageAt(b, i + 4, m);
    EventsLength(trailing);
    if trailing != [] {
      EventsAt(b, i + |MessageLayout(m)|, size, trailing);
    }
  }

  /** The walk over an event that next follows. */
  lemma LeadingEventAt(b: seq<byte>, i: nat, size: nat, e: Event, next: nat)
    requires Word(b, i)
          == Some(if e.Term? then MESSAGE_TERM else if e.Reinit? then MESSAGE_REINIT else MESSAGE_KEEPALIVE)
    requires e.Reinit? ==> WalkReinit(b, i + 4) == Some(e)
    requires size == i + (if e.Reinit? then 17 else 4) + next
    ensures WalkFrame(b, size, i)
         == if e.Term? then Frame([Term], None, Scan([], Terminated, i + 4))
            else if next == 0 then Frame([e], None, Scan([], Complete, size))
            else WalkFrame(b, size, size - next).After(e)
  {
    hide WalkMessage, WalkEvents, WalkReinit;
  }

  lemma {:induction false} FrameAt(b: seq<byte>, i: nat, size: nat, leading: seq<Event>, message: Option<Message>,
                                   trailing: seq<Event>)
    requires Sensible(leading, message, trailing) && At(b, i, FrameLayout(leading, message, trailing))
    requires size == i + |FrameLayout(leading, message, trailing)|
    ensures var f := WalkFrame(b, size, i);
            f == Meaning(leading, message, trailing, size, f.trailing.end) && f.trailing.end <= size
    decreases |leading|
  {
    hide WalkFrame, Word, WalkReinit, At, EventLayout, EventsLayout, Behind, Expected;
    var behind := Behind(message, trailing);
    if leading == [] {
      assert EventsLayout([]) == [] by { EventsLength([]); }
      assert [] + behind == behind;
      BehindMessage(message.value, trailing);
      MessageFrameAt(b, i, size, message.value, trailing);
    } else {
      var rest := leading[1..];
      assert leading == [leading[0]] + rest;
      var e := EventLayout(leading[0]);
      var next := EventsLayout(rest) + behind;
      LeadingLayout(leading, behind);
      AtSplit(b, i, EventsLayout(leading), behind);
      EventAt(b, i, leading);
      AtSplit(b, i, e, next);
      LeadingEventAt(b, i, size, leading[0], |next|);
      EventsLength(rest);
      if leading[0] != Term && next != [] {
        FrameAt(b, i + |e|, size, rest, message, trailing);
      }
    }
  }

  lemma BehindMessage(m: Message, trailing: seq<Event>)
    requires Legal(m)
    ensures Behind(Some(m), trailing) == MessageLayout(m) + EventsLayout(trailing)
  {
  }

  lemma LeadingLayout(es: seq<Event>, behind: seq<byte>)
    requires es != []
    ensures EventsLayout(es) + behind == EventLayout(es[0]) + (EventsLayout(es[1..]) + behind)
  {
  }

  /**
   What the core lays out is what the service gets, by the C++ walk over a buffer with any old
   contents behind the frame, and by the Python parser just when no text lacks its NUL.
   */
  lemma LayoutRecovered(leading: seq<Event>, message: Option<Message>, trailing: seq<Event>, stale: seq<byte>)
    requires Sensible(leading, message, trailing)
    ensures var data := FrameLayout(leading, message, trailing);
            var f := WalkFrame(data + stale, |data|, 0);
            && f == Meaning(leading, message, trailing, |data|, f.trailing.end)
            && (ParseFrame(data, 0) == f <==> FrameTexts(f))
  {
    hide WalkFrame, ParseFrame, FrameLayout;
    var data := FrameLayout(leading, message, trailing);
    assert (data + stale)[0..|data|] == data;
    FrameAt(data + stale, 0, |data|, leading, message, trailing);
    StaleBytes(data, stale, 0);
    ParsersAgree(data, 0);
  }

  // ---------- Texts

  /** The C string at a pointer to `b[i]`. */
  function CString(b: seq<byte>, i: nat): seq<byte>
    decreases |b| - i
  {
    if |b| <= i || b[i] == 0 then [] else [b[i]] + CString(b, i + 1)
  }

  /** C++ callbacks see the text that Python cuts out by its size just when its NUL is last and its only one. */
  lemma {:induction false} SameText(b: seq<byte>, i: nat, size: nat)
    requires 0 < size && i + size <= |b|
    ensures CString(b, i) == b[i..i + size - 1] <==> b[i + size - 1] == 0 && 0 !in b[i..i + size - 1]
    decreases size
  {
    var text := b[i..i + size - 1];
    if size == 1 {
      assert text == [];
    } else {
      var rest := b[i + 1..i + size - 1];
      assert text == [b[i]] + rest;
      SameText(b, i + 1, size - 1);
      if b[i] != 0 {
        assert CString(b, i)[1..] == CString(b, i + 1);
        assert text[1..] == rest;
      }
    }
  }

  /** A NUL inside of a block ends the C string that starts with the block. */
  lemma CStringOfBlock(b: seq<byte>, i: nat, n: nat)
    requires 0 in Slice(b, i, n)
    ensures CString(b, i) == CString(Slice(b, i, n), 0)
  {
    hide CString;
    var s := Slice(b, i, n);
    var k :| 0 <= k < |s| && s[k] == 0;
    assert forall j: nat | j < |s| :: s[j] == b[i + j];
    SameCString(b, i, s, 0, k);
  }

  lemma {:induction false} SameCString(b: seq<byte>, i: nat, s: seq<byte>, j: nat, k: nat)
    requires j <= k < |s| && i + |s| <= |b| + j && s[k] == 0
    requires forall l: nat | j <= l < |s| :: s[l] == b[i + l - j]
    ensures CString(b, i) == CString(s, j)
    decreases k - j
  {
    if j < k && s[j] != 0 {
      SameCString(b, i + 1, s, j + 1, k);
    }
  }
}
