/**
 The C++ client as a state machine: `poll_request` takes frames from the socket, lets events
 change the instance, dispatches requests to callbacks and is called again from inside them.
 */
module Polling {
  import opened Prelude
  import opened Frames
  import opened FrameLaws
  import opened ErlangTags

  // ---------- What the instance keeps and writes

  datatype Settings = Settings(
    processIndex: word, processCount: word, processCountMax: word, processCountMin: word, prefix: seq<byte>,
    timeoutInitialize: word, timeoutAsync: word, timeoutSync: word, timeoutTerminate: word, priorityDefault: int8)

  /** The terms that are written; those that end a request carry its identifiers. */
  datatype Output =
    | InitTerm
    | PollingTerm
    | KeepaliveTerm
    | Return(sync: bool, name: seq<byte>, pattern: seq<byte>, responseInfo: seq<byte>, response: seq<byte>,
             timeout: word, transId: seq<byte>, pid: seq<byte>)
    | Forward(sync: bool, target: seq<byte>, requestInfo: seq<byte>, request: seq<byte>,
              timeout: word, priority: int8, transId: seq<byte>, pid: seq<byte>)
    | OtherTerm      // subscribe, send_sync and every other term

  predicate IsAnswer(o: Output) {
    o.Return? || o.Forward?
  }

  function Answers(os: seq<Output>): (r: seq<Output>)
    ensures forall o :: o in r ==> IsAnswer(o)
  {
    if os == [] then [] else Answers(os[..|os| - 1]) + if IsAnswer(os[|os| - 1]) then [os[|os| - 1]] else []
  }

  /** How often o occurs. */
  function Times(os: seq<Output>, o: Output): nat {
    if os == [] then 0 else Times(os[..|os| - 1], o) + if os[|os| - 1] == o then 1 else 0
  }

  lemma OutputAppend(os: seq<Output>, o: Output)
    ensures Answers(os + [o]) == Answers(os) + if IsAnswer(o) then [o] else []
    ensures forall p :: Times(os + [o], p) == Times(os, p) + if o == p then 1 else 0
  {
    assert (os + [o])[..|os|] == os;
  }

  /** n times the keepalive term. */
  function KeepaliveTerms(n: nat): (os: seq<Output>)
    ensures |os| == n && forall k :: 0 <= k < n ==> os[k] == KeepaliveTerm
  {
    seq(n, _ => KeepaliveTerm)
  }

  /** One keepalive term for each KEEPALIVE event of a frame. */
  function Echoed(os: seq<Output>, f: Frame): seq<Output> {
    os + KeepaliveTerms(Keepalives(f.leading)) + KeepaliveTerms(Keepalives(f.trailing.events))
  }

  // ---------- What events do

  function Apply(s: Settings, e: Event): Settings {
    match e
    case Reinit(count, async, sync, priority) =>
      s.(processCount := count, timeoutAsync := async, timeoutSync := sync, priorityDefault := priority)
    case _ => s
  }

  function ApplyAll(s: Settings, es: seq<Event>): Settings {
    if es == [] then s else Apply(ApplyAll(s, es[..|es| - 1]), es[|es| - 1])
  }

  function Keepalives(es: seq<Event>): nat {
    if es == [] then 0 else Keepalives(es[..|es| - 1]) + if es[|es| - 1].Keepalive? then 1 else 0
  }

  /**
   The last REINIT gives the process count, the timeouts and the priority, whatever came before
   it and whatever else comes after it; no event changes anything else.
   */
  lemma {:induction false} LastReinitWins(s: Settings, es: seq<Event>, k: nat)
    requires k < |es| && es[k].Reinit?
    requires forall j :: k < j < |es| ==> !es[j].Reinit?
    ensures var r, e := ApplyAll(s, es), es[k];
            && r.processCount == e.processCount
            && r.timeoutAsync == e.timeoutAsync && r.timeoutSync == e.timeoutSync
            && r.priorityDefault == e.priorityDefault
    decreases |es|
  {
    var init := es[..|es| - 1];
    if k < |es| - 1 {
      assert init[k] == es[k];
      LastReinitWins(s, init, k);
    }
  }

  lemma {:induction false} EventsKeepTheRest(s: Settings, es: seq<Event>)
    ensures var r := ApplyAll(s, es);
            && r.processIndex == s.processIndex
            && r.processCountMax == s.processCountMax && r.processCountMin == s.processCountMin
            && r.prefix == s.prefix
            && r.timeoutInitialize == s.timeoutInitialize && r.timeoutTerminate == s.timeoutTerminate
    decreases |es|
  {
    if es != [] {
      EventsKeepTheRest(s, es[..|es| - 1]);
    }
  }

  lemma EventAppend(s: Settings, es: seq<Event>, e: Event)
    ensures ApplyAll(s, es + [e]) == Apply(ApplyAll(s, es), e)
    ensures Keepalives(es + [e]) == Keepalives(es) + if e.Keepalive? then 1 else 0
    ensures e.Keepalive? ==> KeepaliveTerms(Keepalives(es + [e])) == KeepaliveTerms(Keepalives(es)) + [KeepaliveTerm]
  {
    assert (es + [e])[..|es|] == es;
  }

  lemma {:induction false} NoReinitNoChange(s: Settings, es: seq<Event>)
    requires forall e :: e in es ==> !e.Reinit?
    ensures ApplyAll(s, es) == s
    decreases |es|
  {
    if es != [] {
      NoReinitNoChange(s, es[..|es| - 1]);
    }
  }

  function ApplyMessage(s: Settings, m: Option<Message>): Settings {
    match m
    case Some(Init(index, count, max, min, prefix, initialize, async, sync, terminate, priority)) =>
      Settings(index, count, max, min, prefix, initialize, async, sync, terminate, priority)
    case _ => s
  }

  /** INIT gives all settings, each from its own field; other messages give none. */
  lemma InitGivesAll(s: Settings, m: Message)
    ensures !m.Init? ==> ApplyMessage(s, Some(m)) == s
    ensures ApplyMessage(s, None) == s
    ensures m.Init? ==>
              var r := ApplyMessage(s, Some(m));
              && r.processIndex == m.processIndex && r.processCount == m.processCount
              && r.processCountMax == m.processCountMax && r.processCountMin == m.processCountMin
              && r.prefix == m.prefix && r.timeoutInitialize == m.timeoutInitialize
              && r.timeoutAsync == m.timeoutAsync && r.timeoutSync == m.timeoutSync
              && r.timeoutTerminate == m.timeoutTerminate && r.priorityDefault == m.priorityDefault
  {
  }

  /** The settings after a whole frame. */
  function ApplyFrame(s: Settings, f: Frame): Settings {
    ApplyAll(ApplyMessage(ApplyAll(s, f.leading), f.message), f.trailing.events)
  }

  // ---------- Requests in the call buffer

  /** The pointers into buffer_call that a callback gets, as offsets, and its other arguments. */
  datatype Call = Call(
    sync: bool, name: nat, nameSize: nat, pattern: nat, patternSize: nat, requestInfo: nat, requestInfoSize: nat,
    request: nat, requestSize: nat, timeout: word, priority: int8, transId: nat, pid: nat, pidSize: nat)
  {
    /** What the pointers give access to while buffer_call holds b. */
    function In(b: seq<byte>): Message {
      Send(sync, Slice(b, name, nameSize), Slice(b, pattern, patternSize), Slice(b, requestInfo, requestInfoSize),
           Slice(b, request, requestSize), timeout, priority, Slice(b, transId, 16), Slice(b, pid, pidSize))
    }
  }

  /** The walk over a SEND message again, for the places of its fields. */
  function CallAt(b: seq<byte>, i: nat, sync: bool): Call
    requires WalkSend(b, i, sync).Some?
  {
    hide UnpackWord, WalkSendTail;
    var (name, j) := Counted(b, i).value;
    var (pattern, k) := Counted(b, j).value;
    var (info, l) := Counted(b, k).value;
    var (request, m) := Counted(b, l + 1).value;
    var t := WalkSendTail(b, m + 1).value.0;
    TailFields(b, m + 1);
    Call(sync, i + 4, |name|, j + 4, |pattern|, k + 4, |info|, l + 5, |request|,
         t.timeout, t.priority, m + 6, m + 26, Word(b, m + 22).value)
  }

  lemma CountedField(b: seq<byte>, i: nat)
    ensures var r := Counted(b, i); r.Some? ==> Slice(b, i + 4, |r.value.0|) == r.value.0
  {
    hide UnpackWord;
  }

  lemma TailFields(b: seq<byte>, i: nat)
    requires WalkSendTail(b, i).Some?
    ensures var t := WalkSendTail(b, i).value.0;
            t.transId == Slice(b, i + 5, 16) && Word(b, i + 21).Some?
            && t.pid == Slice(b, i + 25, Word(b, i + 21).value)
  {
    hide UnpackWord, UnpackInt8;
  }

  /** While the buffer is what it was, the pointers give the fields that the walk found. */
  lemma CallIsMessage(b: seq<byte>, i: nat, sync: bool)
    requires WalkSend(b, i, sync).Some?
    ensures CallAt(b, i, sync).In(b) == WalkSend(b, i, sync).value.0
  {
    hide UnpackWord, UnpackInt8, WalkSendTail, Counted, Slice, Word;
    CountedField(b, i);
    var j := Counted(b, i).value.1;
    CountedField(b, j);
    var k := Counted(b, j).value.1;
    CountedField(b, k);
    var l := Counted(b, k).value.1;
    CountedField(b, l + 1);
    TailFields(b, Counted(b, l + 1).value.1 + 1);
  }

  /** Whether o ends request m. */
  predicate Matches(m: Message, o: Output) {
    m.Send? && IsAnswer(o) && o.sync == m.sync && o.transId == m.transId && o.pid == m.pid
  }

  /** The answers are those of the requests, one each, in the same order. */
  predicate Answered(requests: seq<Message>, answers: seq<Output>) {
    |requests| == |answers| && forall k :: 0 <= k < |requests| ==> Matches(requests[k], answers[k])
  }

  datatype Status = Success | Timeout | Terminate | ReadError | ReadUnderflow | WriteError | Aborted

  /** What comes of a frame: another poll, the end of this one, or a request for a callback. */
  datatype Next = Again | End(status: Status) | Dispatch(call: Call)

  /** A message that events, or something wrong, follow. */
  predicate EventsFollow(f: Frame) {
    f.message.Some? && (f.trailing.events != [] || !f.trailing.ending.Complete?)
  }

  predicate IsRequest(f: Frame) {
    f.message.Some? && f.message.value.Send?
  }

  /** `assert(external)` behind a request and `assert(! external)` behind any other message fail. */
  predicate Misused(f: Frame, external: bool) {
    EventsFollow(f) && (IsRequest(f) <==> !external)
  }

  function Prepend(es: seq<Event>, r: Scan): Scan {
    Scan(es + r.events, r.ending, r.end)
  }

  function PrependAll(es: seq<Event>, f: Frame): Frame {
    Frame(es + f.leading, f.message, f.trailing)
  }

  /** The answer that `callback` gives for a callback that gave none. */
  function EmptyResponse(call: Call, b: seq<byte>): Output {
    Return(call.sync, CString(b, call.name), CString(b, call.pattern), [], [], call.timeout,
           Slice(b, call.transId, 16), Slice(b, call.pid, call.pidSize))
  }

  lemma EmptyResponseMatches(call: Call, b: seq<byte>)
    ensures Matches(call.In(b), EmptyResponse(call, b))
    ensures IsAnswer(EmptyResponse(call, b)) && EmptyResponse(call, b) !in {InitTerm, PollingTerm}
  {
  }

  /** It is empty, and all else in it is from the request; a text ends at its NUL. */
  lemma EmptyResponseIs(call: Call, b: seq<byte>)
    ensures var (o, m) := (EmptyResponse(call, b), call.In(b));
            && o == Return(m.sync, o.name, o.pattern, [], [], m.timeout, m.transId, m.pid)
            && (0 in m.name ==> o.name == CString(m.name, 0))
            && (0 in m.pattern ==> o.pattern == CString(m.pattern, 0))
  {
    hide Slice, CString;
    if 0 in call.In(b).name {
      CStringOfBlock(b, call.name, call.nameSize);
    }
    if 0 in call.In(b).pattern {
      CStringOfBlock(b, call.pattern, call.patternSize);
    }
  }

  lemma AnsweredAppend(requests: seq<Message>, answers: seq<Output>, m: Message, o: Output)
    requires Answered(requests, answers) && Matches(m, o)
    ensures Answered(requests + [m], answers + [o])
  {
  }

  lemma PrependAllNothing(f: Frame)
    ensures PrependAll([], f) == f
  {
  }

  /** What the walk over a frame finds at i, behind the events done. */
  lemma FrameCases(b: seq<byte>, size: nat, i: nat, done: seq<Event>, s: Settings, output: seq<Output>)
    requires i < size
    ensures output + [] == output && KeepaliveTerms(Keepalives([])) == []
    ensures ApplyAll(ApplyAll(s, done), []) == ApplyAll(s, done)
    ensures var f := PrependAll(done, WalkFrame(b, size, i));
            && (Word(b, i) == None ==> f == Frame(done, None, Scan([], Undefined, i)))
            && (Word(b, i).Some? ==>
                  var code := Word(b, i).value;
                  && (code == MESSAGE_TERM ==> f == Frame(done + [Term], None, Scan([], Terminated, i + 4)))
                  && (!IsMessage(code) && code !in {MESSAGE_TERM, MESSAGE_REINIT, MESSAGE_KEEPALIVE} ==>
                        f == Frame(done, None, Scan([], Underflow, i)))
                  && (code == MESSAGE_REINIT ==>
                        match WalkReinit(b, i + 4)
                        case None => f == Frame(done, None, Scan([], Undefined, i))
                        case Some(e) => AfterEvent(f, b, size, i + 17, done + [e]))
                  && (code == MESSAGE_KEEPALIVE ==> AfterEvent(f, b, size, i + 4, done + [Keepalive])))
    ensures ApplyAll(s, done + [Term]) == ApplyAll(s, done) && Keepalives(done + [Term]) == Keepalives(done)
  {
    hide UnpackWord, WalkMessage, WalkEvents, WalkReinit;
    EventAppend(s, done, Term);
    assert done + [] == done;
    forall e: Event, rest: seq<Event>
      ensures done + ([e] + rest) == (done + [e]) + rest
    {
    }
  }

  predicate AfterEvent(f: Frame, b: seq<byte>, size: nat, j: nat, done: seq<Event>) {
    && (j == size ==> f == Frame(done, None, Scan([], Complete, j)))
    && (j > size ==> f == Frame(done, None, Scan([], Underflow, j)))
    && (j < size ==> f == PrependAll(done, WalkFrame(b, size, j)))
  }

  lemma CodeOfMessage(b: seq<byte>, i: nat, code: word)
    requires IsMessage(code) && WalkMessage(b, i, code).Some?
    ensures Code(WalkMessage(b, i, code).value.0) == code
    ensures code == MESSAGE_SEND_ASYNC || code == MESSAGE_SEND_SYNC ==>
              WalkSend(b, i, code == MESSAGE_SEND_SYNC) == WalkMessage(b, i, code)
  {
    hide UnpackWord, UnpackInt8, WalkSendRest, Counted, Chunks, Word, Slice;
  }

  /** Where the walk does not start at the end of the frame, it does not find nothing. */
  lemma EndsBehind(b: seq<byte>, size: nat, i: nat)
    requires i != size
    ensures var r := WalkEvents(b, size, i); r.events != [] || !r.ending.Complete?
  {
    hide UnpackWord, WalkReinit;
  }

  lemma WalkBehind(b: seq<byte>, size: nat, i: nat)
    requires i > size
    ensures WalkEvents(b, size, i) == Scan([], Underflow, i)
  {
  }

  lemma IsReinit(b: seq<byte>, i: nat)
    ensures WalkReinit(b, i).Some? ==> WalkReinit(b, i).value.Reinit?
  {
    hide UnpackWord, UnpackInt8;
  }

  lemma WalkTerm(b: seq<byte>, size: nat, i: nat, s: Settings, done: seq<Event>)
    requires i <= size && Word(b, i) == Some(MESSAGE_TERM)
    ensures var r := Prepend(done, WalkEvents(b, size, i));
            r.ending == Terminated && ApplyAll(s, r.events) == ApplyAll(s, done)
            && Keepalives(r.events) == Keepalives(done)
  {
    hide Word, WalkReinit, ApplyAll, Keepalives;
    EventAppend(s, done, Term);
  }

  /** No event at i, because of an unknown code or a read behind the buffer. */
  lemma WalkStops(b: seq<byte>, size: nat, i: nat, done: seq<Event>)
    requires i <= size
    requires Word(b, i).None? || (Word(b, i).value == MESSAGE_REINIT && WalkReinit(b, i + 4).None?)
             || Word(b, i).value !in {MESSAGE_TERM, MESSAGE_REINIT, MESSAGE_KEEPALIVE}
    ensures var r := Prepend(done, WalkEvents(b, size, i));
            && r.events == done
            && r.ending == if Word(b, i).None? || Word(b, i).value == MESSAGE_REINIT then Undefined else Underflow
  {
    hide Word, WalkReinit;
    assert done + [] == done;
  }

  /** The event e at i, behind which comes j. */
  lemma WalkStep(b: seq<byte>, size: nat, i: nat, e: Event, j: nat, done: seq<Event>)
    requires i <= size && !e.Term? && j == i + (if e.Reinit? then 17 else 4)
    requires Word(b, i) == Some(if e.Reinit? then MESSAGE_REINIT else MESSAGE_KEEPALIVE)
    requires e.Reinit? ==> WalkReinit(b, i + 4) == Some(e)
    ensures var r := Prepend(done, WalkEvents(b, size, i));
            && (j == size ==> r == Scan(done + [e], Complete, size))
            && (j > size ==> r == Scan(done + [e], Underflow, j))
            && (j < size ==> r == Prepend(done + [e], WalkEvents(b, size, j)))
  {
    hide Word, WalkReinit;
    var r := WalkEvents(b, size, j);
    assert done + ([e] + r.events) == (done + [e]) + r.events;
    assert done + [e] + [] == done + [e];
  }

  lemma NothingHappens(s: Settings)
    ensures ApplyAll(s, []) == s && KeepaliveTerms(Keepalives([])) == []
  {
  }

  lemma PrependNothing(r: Scan)
    ensures Prepend([], r) == r
  {
  }

  // ---------- Frames as they were laid out

  lemma {:induction false} NoTerm(es: seq<Event>)
    requires Term !in es
    ensures UpToTerm(es) == es
    decreases |es|
  {
    if es != [] {
      NoTerm(es[1..]);
      assert es == [es[0]] + es[1..];
    }
  }

  /**
   With any layout in the buffer, the settings become those of the events up to the first TERM
   and of the message among them, and the frame terminates just when it has a TERM: then its
   request, if any, is not dispatched (see Took).
   */
  lemma LayoutTakesEffect(s: Settings, leading: seq<Event>, message: Option<Message>, trailing: seq<Event>,
      stale: seq<byte>)
    requires Sensible(leading, message, trailing)
    ensures var data := FrameLayout(leading, message, trailing);
            var f := WalkFrame(data + stale, |data|, 0);
            && f.trailing.Accepted()
            && (f.trailing.ending.Terminated? <==> Term in leading || Term in trailing)
            && ApplyFrame(s, f) == (if Term in leading then ApplyAll(s, UpToTerm(leading))
                                    else ApplyAll(ApplyMessage(ApplyAll(s, leading), message), UpToTerm(trailing)))
            && f.leading + f.trailing.events
               == (if Term in leading then UpToTerm(leading) else leading + UpToTerm(trailing))
  {
    hide WalkFrame, FrameLayout, ApplyAll, UpToTerm;
    LayoutRecovered(leading, message, trailing, stale);
    EmptyEvents(ApplyAll(s, UpToTerm(leading)));
    EmptyEvents(ApplyAll(s, leading));
    assert leading + [] == leading && UpToTerm(leading) + [] == UpToTerm(leading);
    if Term !in trailing {
      NoTerm(trailing);
    }
  }

  lemma EmptyEvents(s: Settings)
    ensures ApplyAll(s, []) == s && UpToTerm([]) == []
  {
  }

  // ---------- The history of a service

  /** A frame that was read, as the walk finds it, by an external poll or by an internal one. */
  datatype Read = Read(frame: Frame, external: bool)

  /** The status with which a frame ends its poll, if it does. */
  function EndOf(r: Read): Option<Status> {
    if Misused(r.frame, r.external) || r.frame.trailing.ending.Undefined? then Some(Aborted)
    else match r.frame.trailing.ending
      case Terminated => Some(if r.external then Success else Terminate)
      case Underflow => Some(ReadUnderflow)
      case Complete => if r.frame.message.None? || IsRequest(r.frame) then None else Some(Success)
  }

  /** A request that nothing is wrong with and no TERM travels with. */
  predicate Dispatchable(r: Read) {
    IsRequest(r.frame) && r.frame.trailing.ending.Complete? && !Misused(r.frame, r.external)
  }

  /** What has to come of a frame. */
  predicate NextFits(r: Read, next: Next) {
    match EndOf(r)
    case Some(status) => next == End(status)
    case None => if IsRequest(r.frame) then next.Dispatch? else next == Again
  }

  lemma FittingNext(r: Read, next: Next)
    requires NextFits(r, next)
    ensures next.Dispatch? <==> Dispatchable(r)
    ensures next.End? ==> EndOf(r) == Some(next.status)
  {
  }

  /** A frame with a message m that stands at its end, or that something follows. */
  lemma EndOfMessage(f: Frame, m: Message, external: bool, atEnd: bool)
    requires f.message == Some(m) && (atEnd <==> f.trailing.events == [] && f.trailing.ending.Complete?)
    ensures IsRequest(f) == m.Send?
    ensures EndOf(Read(f, external))
         == if (!atEnd && external != m.Send?) || f.trailing.ending.Undefined? then Some(Aborted)
            else match f.trailing.ending
              case Terminated => Some(if external then Success else Terminate)
              case Underflow => Some(ReadUnderflow)
              case Complete => if m.Send? then None else Some(Success)
  {
  }

  /** A frame of events alone. */
  lemma EventsOnly(s: Settings, f: Frame)
    ensures f.message == None && f.trailing.events == [] ==>
              && ApplyFrame(s, f) == ApplyAll(s, f.leading) && !IsRequest(f)
              && forall x :: EndOf(Read(f, x)) == match f.trailing.ending
                                                  case Undefined => Some(Aborted)
                                                  case Terminated => Some(if x then Success else Terminate)
                                                  case Underflow => Some(ReadUnderflow)
                                                  case Complete => None
  {
    NothingHappens(ApplyAll(s, f.leading));
  }

  /** Events in front of a message change nothing in how its frame ends. */
  lemma FrameOfMessage(done: seq<Event>, s: Settings, f: Frame)
    requires f.leading == []
    ensures var g := PrependAll(done, f); g.leading == done && g.message == f.message && g.trailing == f.trailing
    ensures ApplyFrame(s, PrependAll(done, f)) == ApplyFrame(ApplyAll(s, done), f)
    ensures forall x, next :: NextFits(Read(PrependAll(done, f), x), next) <==> NextFits(Read(f, x), next)
    ensures IsRequest(PrependAll(done, f)) <==> IsRequest(f)
  {
    assert done + [] == done;
    NothingHappens(ApplyAll(s, done));
    forall x
      ensures EndOf(Read(PrependAll(done, f), x)) == EndOf(Read(f, x))
    {
    }
  }

  /** The requests that have to be dispatched, in order. */
  function Requests(rs: seq<Read>): seq<Message> {
    if rs == [] then []
    else
      var last := rs[|rs| - 1];
      Requests(rs[..|rs| - 1]) + if Dispatchable(last) then [last.frame.message.value] else []
  }

  function SettingsAfter(s: Settings, rs: seq<Read>): Settings {
    if rs == [] then s else ApplyFrame(SettingsAfter(s, rs[..|rs| - 1]), rs[|rs| - 1].frame)
  }

  /** How many KEEPALIVE events took effect. */
  function Echoes(rs: seq<Read>): nat {
    if rs == [] then 0
    else
      var last := rs[|rs| - 1].frame;
      Echoes(rs[..|rs| - 1]) + Keepalives(last.leading) + Keepalives(last.trailing.events)
  }

  predicate Terminates(rs: seq<Read>) {
    rs != [] && (Terminates(rs[..|rs| - 1]) || rs[|rs| - 1].frame.trailing.ending.Terminated?)
  }

  lemma ReadAppend(s: Settings, rs: seq<Read>, r: Read)
    ensures Requests(rs + [r]) == Requests(rs) + if Dispatchable(r) then [r.frame.message.value] else []
    ensures SettingsAfter(s, rs + [r]) == ApplyFrame(SettingsAfter(s, rs), r.frame)
    ensures Echoes(rs + [r]) == Echoes(rs) + Keepalives(r.frame.leading) + Keepalives(r.frame.trailing.events)
    ensures Terminates(rs + [r]) <==> Terminates(rs) || r.frame.trailing.ending.Terminated?
  {
    assert (rs + [r])[..|rs|] == rs;
  }

  /** Echoes are written one for each event. */
  lemma {:induction false} TimesKeepalives(os: seq<Output>, n: nat)
    ensures Times(os + KeepaliveTerms(n), KeepaliveTerm) == Times(os, KeepaliveTerm) + n
  {
    if n == 0 {
      assert os + KeepaliveTerms(0) == os;
    } else {
      var all := os + KeepaliveTerms(n);
      assert all[..|all| - 1] == os + KeepaliveTerms(n - 1);
      TimesKeepalives(os, n - 1);
    }
  }

  lemma FrameEchoes(os: seq<Output>, f: Frame)
    ensures Times(Echoed(os, f), KeepaliveTerm)
         == Times(os, KeepaliveTerm) + Keepalives(f.leading) + Keepalives(f.trailing.events)
  {
    hide Times, KeepaliveTerms, Keepalives;
    TimesKeepalives(os, Keepalives(f.leading));
    TimesKeepalives(os + KeepaliveTerms(Keepalives(f.leading)), Keepalives(f.trailing.events));
  }

  /** Before anything has been written or read. */
  lemma NothingYet(s: Settings)
    ensures Answers([]) == [] && forall o :: Times([], o) == 0
    ensures Requests([]) == [] && SettingsAfter(s, []) == s && Echoes([]) == 0 && !Terminates([])
    ensures Answered([], [])
  {
  }

  /** How a callback ends: normally, by an exception, or because the process ended inside of it. */
  datatype Outcome = Finished | StandardException | UnknownException | Answering(sync: bool) | Died

  /** `ei_decode_version`: without the version byte no answer can be written. */
  predicate Decodes(pid: seq<byte>) {
    pid != [] && pid[0] == TAG_VERSION
  }

  /** Every pid that was written as a term has it, those of the core among them. */
  lemma WrittenPidDecodes(e: seq<byte>)
    ensures Decodes([TAG_VERSION] + e)
  {
  }

  /** The endings of a callback for a request m that `callback` does not survive. */
  predicate Fatal(o: Outcome, m: Message)
    requires m.Send?
  {
    o.UnknownException? || o.Died? || (o.Answering? && o.sync != m.sync)
  }

  /** The endings after which it has to answer itself, and may be unable to. */
  predicate Unanswerable(o: Outcome, m: Message, broken: bool)
    requires m.Send?
  {
    (o.Finished? || o.StandardException?) && (broken || !Decodes(m.pid))
  }

  class Instance {
    const broken: bool                 // whether writing may fail
    var terminate: bool
    var initializationComplete: bool
    var settings: Settings
    var bufferRecv: seq<byte>          // all of the allocated buffer
    var bufferRecvIndex: nat           // the size of the frame in it
    var bufferCall: seq<byte>
    var received: Option<Message>      // the response fields
    var output: seq<Output>
    ghost const initial: Settings
    ghost var frames: seq<Read>        // the frames read, in order
    ghost var dispatched: seq<Message> // requests given to a callback
    ghost var ends: seq<Outcome>       // how the callbacks ended
    ghost var waits: seq<Status>       // what came of each wait for a frame, and each time that ran out
    ghost var unechoed: bool           // a keepalive could not be written
    ghost var swallowed: nat           // return and forward exceptions that a callback caught itself
    var budget: nat                    // frames and calls that are still to come

    /** Only keepalive terms were written; no request was dispatched or answered. */
    twostate predicate Quiet()
      reads this
    {
      && old(output) <= output
      && Answers(output) == Answers(old(output))
      && Times(output, PollingTerm) == Times(old(output), PollingTerm)
      && Times(output, InitTerm) == Times(old(output), InitTerm)
    }

    /** `write_exact` of a term */
    method Write(o: Output) returns (ok: bool)
      modifies `output
      ensures output == old(output) + if ok then [o] else []
      ensures Answers(output) == Answers(old(output)) + if ok && IsAnswer(o) then [o] else []
      ensures Times(output, PollingTerm) == Times(old(output), PollingTerm) + if ok && o == PollingTerm then 1 else 0
      ensures Times(output, InitTerm) == Times(old(output), InitTerm) + if ok && o == InitTerm then 1 else 0
      ensures Times(output, KeepaliveTerm) == Times(old(output), KeepaliveTerm) + if ok
              && o == KeepaliveTerm then 1 else 0
      ensures !broken ==> ok
    {
      var fails: bool := *;
      ok := !(broken && fails);
      if ok {
        OutputAppend(output, o);
        output := output + [o];
      } else {
        assert output + [] == output && Answers(output) + [] == Answers(output);
      }
    }

    /** `handle_events`; command is 0 unless the caller has read it already. */
    method HandleEvents(external: bool, start: nat, given: word) returns (more: bool, result: Status)
      requires bufferRecvIndex <= |bufferRecv|
      requires given == 0 || given == MESSAGE_TERM
      modifies `terminate, `settings, `output
      ensures Quiet()
      ensures more ==> result == Success
      ensures !more && result == WriteError ==> broken
      ensures old(terminate) ==> terminate
      ensures given == MESSAGE_TERM ==> !more && result == (if external then Success else Terminate)
                                        && terminate && settings == old(settings) && output == old(output)
      ensures given == 0 && result != WriteError ==>
                var r := WalkEvents(bufferRecv, bufferRecvIndex, start);
                && more == r.ending.Complete?
                && settings == ApplyAll(old(settings), r.events)
                && output == old(output) + KeepaliveTerms(Keepalives(r.events))
                && terminate == (old(terminate) || r.ending.Terminated?)
                && (r.ending.Terminated? ==> result == if external then Success else Terminate)
                && (r.ending.Underflow? ==> result == ReadUnderflow)
                && (r.ending.Undefined? ==> result == Aborted)
    {
      hide UnpackWord, WalkReinit, WalkEvents, Answers, Times, Word, KeepaliveTerms, ApplyAll, Keepalives, Prepend;
      ghost var done: seq<Event> := [];
      assert ApplyAll(settings, []) == settings && KeepaliveTerms(Keepalives([])) == [] by { NothingHappens(settings); }
      assert output + [] == output;
      var index, command := start, given;
      ghost var b, size := bufferRecv, bufferRecvIndex;
      if command == 0 {
        if index > bufferRecvIndex {
          WalkBehind(b, size, start);
          return false, ReadUnderflow;
        }
        PrependNothing(WalkEvents(b, size, start));
        if Word(bufferRecv, index) == None {
          WalkStops(b, size, index, done);
          return false, Aborted;
        }
        command := Word(bufferRecv, index).value;
        index := index + 4;
      }
      while true
        invariant Quiet() && (old(terminate) ==> terminate)
        invariant given == MESSAGE_TERM ==>
                  command == MESSAGE_TERM && settings == old(settings) && output == old(output)
        invariant given == 0 ==>
            && 4 <= index && index - 4 <= bufferRecvIndex && Word(b, index - 4) == Some(command)
            && WalkEvents(b, size, start) == Prepend(done, WalkEvents(b, size, index - 4))
            && settings == ApplyAll(old(settings), done)
            && output == old(output) + KeepaliveTerms(Keepalives(done))
            && terminate == old(terminate)
        decreases |bufferRecv| + 4 - index
      {
        if command == MESSAGE_TERM {
          terminate := true;
          if given == 0 {
            WalkTerm(b, size, index - 4, old(settings), done);
          }
          return false, if external then Success else Terminate;
        }
        ghost var e := Keepalive;
        ghost var at := index - 4;
        if command == MESSAGE_REINIT {
          if WalkReinit(bufferRecv, index) == None {
            WalkStops(b, size, at, done);
            return false, Aborted;
          }
          var reinit := WalkReinit(bufferRecv, index).value;
          e := reinit;
          IsReinit(b, index);
          settings := Apply(settings, reinit);
          index := index + 13;
        } else if command == MESSAGE_KEEPALIVE {
          var ok := Write(KeepaliveTerm);
          if !ok {
            return false, WriteError;
          }
        } else {
          WalkStops(b, size, at, done);
          return false, ReadUnderflow;
        }
        WalkStep(b, size, at, e, index, done);
        EventAppend(old(settings), done, e);
        assert output == old(output) + KeepaliveTerms(Keepalives(done + [e]));
        done := done + [e];
        if index > bufferRecvIndex {
          return false, ReadUnderflow;
        } else if index == bufferRecvIndex {
          return true, Success;
        }
        if Word(bufferRecv, index) == None {
          WalkStops(b, size, index, done);
          return false, Aborted;
        }
        command := Word(bufferRecv, index).value;
        index := index + 4;
      }
    }

    /**
     What a frame f must come to, once all of it has been taken: the settings are those of the
     events and the message in order, each KEEPALIVE has been echoed, and only TERM terminates.
     */
    twostate predicate Took(f: Frame, external: bool, next: Next)
      reads this
    {
      && NextFits(Read(f, external), next)
      && (next != End(Aborted) ==>
            && settings == ApplyFrame(old(settings), f)
            && output == Echoed(old(output), f)
            && terminate == (old(terminate) || f.trailing.ending.Terminated?)
            && (f.trailing.ending.Complete? && next == End(Success) ==> received == f.message))
    }

    /** A message of poll_request whose code has been read; failed says that a keepalive could not be written. */
    method TakeMessage(external: bool, code: word, start: nat) returns (next: Next, ghost failed: bool)
      requires bufferRecvIndex <= |bufferRecv| && 4 <= start
      requires Word(bufferRecv, start - 4) == Some(code) && IsMessage(code)
      modifies `terminate, `settings, `bufferRecvIndex, `bufferCall, `received, `output
      ensures Quiet() && (old(terminate) ==> terminate) && (failed ==> broken)
      ensures var f := WalkFrame(bufferRecv, old(bufferRecvIndex), start - 4);
              && f.leading == []
              && (!failed ==> Took(f, external, next))
              && (failed ==> next == End(WriteError) || next == End(Success))
              && (next.Dispatch? ==> IsRequest(f) && f.trailing.ending.Complete?)
              && (next.Dispatch? ==> next.call.In(bufferCall) == f.message.value)
              && (!IsRequest(f) ==> bufferCall == old(bufferCall))
    {
      hide UnpackWord, WalkMessage, WalkInit, WalkSend, WalkResponse, WalkEvents, Answers, Times, Word,
           KeepaliveTerms, ApplyAll, Keepalives, EndOf, IsRequest;
      ghost var f := WalkFrame(bufferRecv, bufferRecvIndex, start - 4);
      NothingHappens(settings);
      failed := false;
      var isRequest := code == MESSAGE_SEND_ASYNC || code == MESSAGE_SEND_SYNC;
      if WalkMessage(bufferRecv, start, code) == None {
        EventsOnly(settings, f);
        return End(Aborted), false;
      }
      CodeOfMessage(bufferRecv, start, code);
      var (m, index) := WalkMessage(bufferRecv, start, code).value;
      if isRequest {
        bufferCall := bufferRecv;
      } else {
        settings := ApplyMessage(settings, Some(m));
        received := Some(m);
      }
      NothingHappens(settings);
      assert output + [] == output;
      if index != bufferRecvIndex {
        EndsBehind(bufferRecv, bufferRecvIndex, index);
      }
      EndOfMessage(f, m, external, index == bufferRecvIndex);
      if index != bufferRecvIndex {
        if external != isRequest {
          return End(Aborted), false;
        }
        var more, result := HandleEvents(external, index, 0);
        if !more {
          return End(result), result == WriteError;
        }
      }
      bufferRecvIndex := 0;
      if isRequest {
        CallIsMessage(bufferCall, start, code == MESSAGE_SEND_SYNC);
        next := Dispatch(CallAt(bufferCall, start, code == MESSAGE_SEND_SYNC));
      } else {
        next := End(Success);
      }
    }

    /** The loop of `poll_request` over one frame. */
    method TakeFrame(external: bool) returns (next: Next, ghost failed: bool)
      requires 0 < bufferRecvIndex <= |bufferRecv|
      modifies `terminate, `settings, `bufferRecvIndex, `bufferCall, `received, `output
      ensures Quiet() && (old(terminate) ==> terminate) && (failed ==> broken)
      ensures var f := WalkFrame(bufferRecv, old(bufferRecvIndex), 0);
              && (!failed ==> Took(f, external, next))
              && (failed ==> next == End(WriteError) || next == End(Success))
              && (next.Dispatch? ==> IsRequest(f) && f.trailing.ending.Complete?)
              && (next.Dispatch? ==> next.call.In(bufferCall) == f.message.value)
              && (!IsRequest(f) ==> bufferCall == old(bufferCall))
    {
      hide UnpackWord, WalkFrame, WalkMessage, WalkReinit, Word, Answers, Times, KeepaliveTerms, ApplyAll,
           Keepalives, Prepend;
      hide ApplyFrame, EndOf, IsRequest, PrependAll;
      ghost var b, size := bufferRecv, bufferRecvIndex;
      ghost var done: seq<Event> := [];
      NothingHappens(settings);
      assert output + [] == output;
      PrependAllNothing(WalkFrame(b, size, 0));
      EventsOnly(old(settings), WalkFrame(b, size, 0));
      var index := 0;
      while true
        invariant index < size && bufferRecvIndex == size && terminate == old(terminate) && Quiet()
        invariant bufferCall == old(bufferCall) && received == old(received)
        invariant WalkFrame(b, size, 0) == PrependAll(done, WalkFrame(b, size, index))
        invariant settings == ApplyAll(old(settings), done)
        invariant output == old(output) + KeepaliveTerms(Keepalives(done))
        decreases |bufferRecv| - index
      {
        FrameCases(b, size, index, done, old(settings), output);
        if Word(bufferRecv, index) == None {
          return End(Aborted), false;
        }
        var code := Word(bufferRecv, index).value;
        index := index + 4;
        ghost var e := Keepalive;
        if IsMessage(code) {
          ghost var f, before := WalkFrame(b, size, index - 4), output;
          next, failed := TakeMessage(external, code, index);
          FrameOfMessage(done, old(settings), f);
          assert f.leading == [] && before + [] == before;
          assert PrependAll(done, f) == WalkFrame(b, size, 0);
          return;
        } else if code == MESSAGE_TERM {
          var more, result := HandleEvents(external, index, code);
          return End(result), false;
        } else if code == MESSAGE_REINIT {
          if WalkReinit(bufferRecv, index) == None {
            return End(Aborted), false;
          }
          IsReinit(b, index);
          e := WalkReinit(bufferRecv, index).value;
          settings := Apply(settings, WalkReinit(bufferRecv, index).value);
          index := index + 13;
        } else if code == MESSAGE_KEEPALIVE {
          var ok := Write(KeepaliveTerm);
          if !ok {
            return End(Success), true;      // `return false`
          }
        } else {
          return End(ReadUnderflow), false;
        }
        EventAppend(old(settings), done, e);
        done := done + [e];
        assert output == old(output) + KeepaliveTerms(Keepalives(done));
        assert output + [] == output;
        if index == bufferRecvIndex {
          bufferRecvIndex := 0;
          return Again, false;
        } else if index > bufferRecvIndex {
          return End(ReadUnderflow), false;
        }
      }
    }

    // ---------- Whole polls

    /** What arrives is arbitrary, but no poll that is not the program's own (external) one receives a request. */
    method Receive(external: bool) returns (status: Status)
      requires budget > 0
      modifies `bufferRecv, `bufferRecvIndex, `budget, `frames, `waits
      ensures budget == old(budget) - 1 && waits == old(waits) + [status]
      ensures status == Success ==> 0 < bufferRecvIndex <= |bufferRecv|
      ensures status == Success ==>
                frames == old(frames) + [Read(WalkFrame(bufferRecv, bufferRecvIndex, 0), external)]
      ensures status != Success ==> frames == old(frames)
      ensures status == Success && !external ==> !IsRequest(WalkFrame(bufferRecv, bufferRecvIndex, 0))
      ensures status in {Success, Timeout, ReadError, ReadUnderflow}
    {
      budget := budget - 1;
      var frame: seq<byte>, stale: seq<byte> := *, *;
      var failing: nat := *;
      if failing == 0 || (!external && IsRequest(WalkFrame(frame + stale, |frame|, 0))) {
        status := Timeout;
      } else if failing == 1 {
        status := ReadError;
      } else {
        bufferRecv := frame + stale;
        bufferRecvIndex := |frame|;
        status := if bufferRecvIndex == 0 then ReadUnderflow else Success;
        if status == Success {
          frames := frames + [Read(WalkFrame(bufferRecv, bufferRecvIndex, 0), external)];
        }
      }
      waits := waits + [status];
    }

    /**
     The order of a service's life: init first and once, polling once at most and before any
     request; and the requests that were dispatched are those that were read, in their order.
     */
    ghost predicate Lifecycle()
      reads this
    {
      && output != [] && output[0] == InitTerm && Times(output, InitTerm) == 1
      && Times(output, PollingTerm) == (if initializationComplete then 1 else 0)
      && (dispatched != [] ==> initializationComplete)
      && (unechoed ==> broken)
      && (!unechoed ==> dispatched == Requests(frames))
    }

    /** The state is that of all the frames read, one after the other. */
    ghost predicate Followed()
      reads this
    {
      !unechoed ==>
        && settings == SettingsAfter(initial, frames)
        && Times(output, KeepaliveTerm) == Echoes(frames)
        && terminate == Terminates(frames)
    }

    /** Each dispatched request has been answered: once, unless a callback got around that by catching the exception. */
    ghost predicate Conserved()
      reads this
    {
      && |Answers(output)| == |dispatched| + swallowed
      && (swallowed == 0 ==> Answered(dispatched, Answers(output)))
    }

    /** What a poll from inside of a callback may not do to the request that is being handled. */
    twostate predicate Nested()
      reads this
    {
      && bufferCall == old(bufferCall)
      && dispatched == old(dispatched) && swallowed == old(swallowed)
      && initializationComplete == old(initializationComplete) && ends == old(ends)
      && (old(terminate) ==> terminate) && budget <= old(budget)
      && old(waits) <= waits && Quiet()
    }

    /** `polling` and its assertion, which is the precondition. */
    method PollingStarts() returns (ok: bool)
      requires !initializationComplete && Lifecycle()
      modifies `output
      ensures old(output) <= output && Answers(output) == Answers(old(output))
      ensures Times(output, InitTerm) == 1 && output[0] == InitTerm
      ensures Times(output, KeepaliveTerm) == Times(old(output), KeepaliveTerm)
      ensures Times(output, PollingTerm) == if ok then 1 else 0
      ensures !broken ==> ok
    {
      ok := Write(PollingTerm);
    }

    /** This poll returned what the last frame it read itself made of it. */
    twostate predicate EndedByFrame(external: bool, status: Status)
      reads this
    {
      && |old(frames)| < |frames| && frames[|frames| - 1].external == external
      && EndOf(frames[|frames| - 1]) == Some(status)
    }

    /** This poll returned what came of its last wait: no frame, or none that is one. */
    twostate predicate EndedByWait(status: Status)
      reads this
    {
      && |old(waits)| < |waits| && waits[|waits| - 1] == status
      && status in {Timeout, ReadError, ReadUnderflow}
    }

    /** This poll ended in a callback that the process did not survive. */
    twostate predicate EndedByCallback()
      reads this
    {
      && |old(ends)| < |ends| && dispatched != [] && dispatched[|dispatched| - 1].Send?
      && var (o, m) := (ends[|ends| - 1], dispatched[|dispatched| - 1]);
         Fatal(o, m) || Unanswerable(o, m, broken)
    }

    /** The state is that of all the frames read but the last, which has only been received. */
    ghost predicate FollowedBut()
      reads this
    {
      && frames != [] && (unechoed ==> broken)
      && var before := frames[..|frames| - 1];
         !unechoed ==>
           && settings == SettingsAfter(initial, before)
           && Times(output, KeepaliveTerm) == Echoes(before)
           && terminate == Terminates(before)
           && dispatched == Requests(before)
    }

    /** The frame that has been received takes effect. */
    method TakeReceived(external: bool) returns (next: Next)
      requires 0 < bufferRecvIndex <= |bufferRecv| && FollowedBut()
      requires frames[|frames| - 1] == Read(WalkFrame(bufferRecv, bufferRecvIndex, 0), external)
      modifies `terminate, `settings, `bufferRecvIndex, `bufferCall, `received, `output, `unechoed
      ensures Quiet() && (unechoed ==> broken) && (old(terminate) ==> terminate)
      ensures next != End(Aborted) ==> Followed()
      ensures var r := frames[|frames| - 1];
              && (next.Dispatch? ==> Dispatchable(r) && next.call.In(bufferCall) == r.frame.message.value)
              && (next.Dispatch? ==> next.call.In(bufferCall).Send?)
              && (!unechoed && next.Dispatch? ==> Requests(frames) == dispatched + [next.call.In(bufferCall)])
              && (!unechoed && !next.Dispatch? ==> Requests(frames) == dispatched)
              && (!IsRequest(r.frame) ==> !next.Dispatch? && bufferCall == old(bufferCall))
              && (next.End? && (!unechoed || next.status == Aborted) ==> EndOf(r) == Some(next.status))
    {
      hide WalkFrame, Answers, Times, Slice, Requests, SettingsAfter, Echoes, Terminates, Keepalives, KeepaliveTerms,
           ApplyFrame, Call.In, NextFits, EndOf, Echoed;
      assert dispatched + [] == dispatched;
      ghost var before, r := frames[..|frames| - 1], frames[|frames| - 1];
      assert frames == before + [r];
      ReadAppend(initial, before, r);
      FrameEchoes(output, r.frame);
      ghost var failed;
      next, failed := TakeFrame(external);
      unechoed := unechoed || failed;
      if !failed {
        FittingNext(r, next);
      }
    }

    /** One frame: received and taken. */
    method TakeNext(external: bool) returns (next: Next)
      requires budget > 0 && Lifecycle() && Followed()
      modifies this
      ensures budget == old(budget) - 1
      ensures dispatched == old(dispatched) && swallowed == old(swallowed) && ends == old(ends)
      ensures initializationComplete == old(initializationComplete) && (old(terminate) ==> terminate)
      ensures old(frames) <= frames && old(waits) <= waits && Quiet() && (unechoed ==> broken)
      ensures next != End(Aborted) ==> Followed()
      ensures !unechoed && next.Dispatch? ==> Requests(frames) == dispatched + [next.call.In(bufferCall)]
      ensures !unechoed && !next.Dispatch? ==> Requests(frames) == dispatched
      ensures next.Dispatch? ==> external && next.call.In(bufferCall).Send?
      ensures !external ==> bufferCall == old(bufferCall)
      ensures next == End(Aborted) ==> EndedByFrame(external, Aborted)
      ensures next.End? && !unechoed ==> EndedByFrame(external, next.status) || EndedByWait(next.status)
    {
      hide WalkFrame, Answers, Times, Requests, SettingsAfter, Echoes, Terminates, Call.In, EndOf, IsRequest, Misused,
           Dispatchable, Slice;
      var received := Receive(external);
      if received != Success {
        return End(received);
      }
      assert frames[..|frames| - 1] == old(frames);
      next := TakeReceived(external);
    }

    /** One turn of the loop: a frame, and its request if it has one. */
    method PollOnce(external: bool) returns (next: Next)
      requires budget > 0 && Lifecycle() && Followed() && (external ==> Conserved() && initializationComplete)
      modifies this
      ensures Lifecycle() && (old(terminate) ==> terminate) && budget < old(budget)
      ensures old(output) <= output && old(frames) <= frames && old(waits) <= waits && |old(ends)| <= |ends|
      ensures external ==> initializationComplete
      ensures !external ==> Nested()
      ensures !next.Dispatch? && (next != End(Aborted) ==> Followed() && (external ==> Conserved()))
      ensures next == End(Aborted) ==> EndedByFrame(external, Aborted) || EndedByCallback()
      ensures next.End? && !unechoed && next != End(Aborted) ==>
                EndedByFrame(external, next.status) || EndedByWait(next.status)
      decreases budget, 3
    {
      hide WalkFrame, Answers, Times, Slice, CString, Matches, Call.In, Answered, Took;
      hide Requests, SettingsAfter, Echoes, Terminates, EndOf, Dispatchable, Fatal, Unanswerable;
      next := TakeNext(external);
      if next.Dispatch? {
        var result := Handle(next.call);
        next := if result == Aborted then End(Aborted) else Again;
      }
    }

    /** `poll_request` */
    method PollRequest(external: bool) returns (status: Status)
      requires Lifecycle() && Followed() && (external ==> Conserved())
      modifies this
      ensures Lifecycle() && (old(terminate) ==> terminate)
      ensures old(output) <= output && old(frames) <= frames && old(waits) <= waits && budget <= old(budget)
      ensures status != Aborted ==> Followed()
      ensures external && status != Aborted ==> Conserved()
      ensures !external ==> Nested()
      ensures old(terminate) ==> status == Success && output == old(output) && frames == old(frames)
                                 && budget == old(budget) && Nested()
      ensures status == Aborted ==> EndedByFrame(external, Aborted) || EndedByCallback()
      ensures !old(terminate) && !unechoed && status != Aborted ==>
                || EndedByFrame(external, status) || EndedByWait(status)
                || (status == WriteError && broken && external && !old(initializationComplete))
      decreases budget, 4
    {
      hide WalkFrame, Answers, Times, Slice, CString, Matches, Call.In, Answered, Took;
      hide Requests, SettingsAfter, Echoes, Terminates, EndOf, Dispatchable, Fatal, Unanswerable;
      if terminate {
        return Success;
      } else if external && !initializationComplete {
        var ok := PollingStarts();
        if !ok {
          return WriteError;
        }
        initializationComplete := true;
      }
      while budget > 0
        invariant Lifecycle() && Followed() && (old(terminate) ==> terminate)
        invariant old(output) <= output && old(frames) <= frames && old(waits) <= waits && budget <= old(budget)
        invariant |old(ends)| <= |ends|
        invariant external ==> Conserved() && initializationComplete
        invariant !external ==> Nested()
        decreases budget
      {
        var next := PollOnce(external);
        if next.End? {
          return next.status;
        }
        var elapsed: bool := *;
        if elapsed {
          break;
        }
      }
      waits := waits + [Timeout];
      return Timeout;
    }

    // ---------- Callbacks

    /**
     `cloudi_return` and `cloudi_forward` with the pointers that the callback was given. What
     they point to is read now, from what buffer_call holds now.
     */
    method Answer(call: Call, sync: bool, forward: bool) returns (ok: bool, ghost answer: Output)
      requires Lifecycle() && Followed()
      modifies `output
      ensures Lifecycle() && Followed() && old(output) <= output
      ensures Answers(output) == Answers(old(output)) + if ok then [answer] else []
      ensures IsAnswer(answer) && answer.sync == sync && (answer.Forward? <==> forward)
      ensures ok && sync == call.sync ==> Matches(call.In(bufferCall), answer)
      ensures ok ==> Decodes(call.In(bufferCall).pid)
      ensures !broken && Decodes(call.In(bufferCall).pid) ==> ok
    {
      hide Times, Answers, CString, Slice;
      var transId, pid := Slice(bufferCall, call.transId, 16), Slice(bufferCall, call.pid, call.pidSize);
      var text: seq<byte>, info: seq<byte>, body: seq<byte> := *, *, *;
      var timeout: word, priority: int8 := *, *;
      var o := if forward then Forward(sync, text, info, body, timeout, priority, transId, pid)
               else Return(sync, CString(bufferCall, call.name), CString(bufferCall, call.pattern), info, body,
                           timeout, transId, pid);
      answer := o;
      if !Decodes(pid) {
        assert Answers(output) + [] == Answers(output);
        return false, answer;
      }
      ok := Write(o);
    }

    /** subscribe, and whatever else is sent without waiting for a response */
    method SendOther() returns (ok: bool)
      requires Lifecycle() && Followed()
      modifies `output
      ensures Lifecycle() && Followed() && Quiet()
    {
      hide Times, Answers;
      assert Answers(output) + [] == Answers(output);
      ok := Write(OtherTerm);
    }

    /** send_sync, recv_async, ...: a term and a poll for its response. */
    method NestedRequest() returns (outcome: Outcome)
      requires Lifecycle() && Followed()
      modifies this
      ensures Lifecycle() && Nested() && old(frames) <= frames
      ensures outcome == Finished || outcome == Died
      ensures outcome == Finished ==> Followed()
      ensures outcome == Died ==> EndedByFrame(false, Aborted)
      decreases budget, 5
    {
      hide Times, Answers, EndOf;
      outcome := Finished;
      var ok := SendOther();
      if ok {
        var status := PollRequest(false);
        if status == Aborted {
          outcome := Died;
        }
      }
    }

    /** An answer, whose exception is caught at once or ends the callback. */
    method TryAnswer(call: Call, sync: bool, forward: bool) returns (outcome: Outcome, ghost answer: Output)
      requires Lifecycle() && Followed()
      modifies `output, `swallowed
      ensures Lifecycle() && Followed() && old(output) <= output && old(swallowed) <= swallowed
      ensures outcome == Finished || outcome == Answering(sync)
      ensures |Answers(output)|
           == |Answers(old(output))| + swallowed - old(swallowed) + if outcome.Answering? then 1 else 0
      ensures swallowed == old(swallowed) ==>
                Answers(output) == Answers(old(output)) + if outcome.Answering? then [answer] else []
      ensures outcome.Answering? && sync == call.sync ==> Matches(call.In(bufferCall), answer)
    {
      hide Times, Answers, Matches, Call.In;
      assert Answers(output) + [] == Answers(output);
      outcome := Finished;
      var ok;
      ok, answer := Answer(call, sync, forward);
      if ok {
        var caught: bool := *;
        if caught {
          swallowed := swallowed + 1;
        } else {
          outcome := Answering(sync);
        }
      }
    }

    /** What holds of all that happens inside of a callback. */
    twostate predicate Undisturbed()
      reads this
    {
      && bufferCall == old(bufferCall) && dispatched == old(dispatched)
      && initializationComplete == old(initializationComplete)
      && (old(terminate) ==> terminate) && budget <= old(budget)
      && old(output) <= output && old(frames) <= frames && old(waits) <= waits
    }

    /**
     Any callback. It sends requests (and so polls), sends other terms, answers, catches the
     exception of an answer or not, and ends in an exception or by falling through. How it
     ends is put on record.
     */
    method UserCode(call: Call) returns (outcome: Outcome, ghost answer: Output)
      requires Lifecycle() && Followed()
      modifies this
      ensures Lifecycle() && Undisturbed() && old(swallowed) <= swallowed
      ensures ends == old(ends) + [outcome]
      ensures !outcome.Died? ==> Followed()
      ensures outcome.Died? ==> EndedByFrame(false, Aborted)
      ensures |Answers(output)|
           == |Answers(old(output))| + swallowed - old(swallowed) + if outcome.Answering? then 1 else 0
      ensures swallowed == old(swallowed) ==>
                Answers(output) == Answers(old(output)) + if outcome.Answering? then [answer] else []
      ensures outcome.Answering? && outcome.sync == call.sync ==> Matches(call.In(bufferCall), answer)
      decreases budget, 1
    {
      hide Times, Answers, Matches, Call.In, EndOf, Terminates, SettingsAfter, Echoes, Requests;
      answer := InitTerm;
      outcome := Finished;
      var running := true;
      assert Answers(output) + [] == Answers(output);
      while running && budget > 0
        invariant Lifecycle() && Undisturbed() && old(swallowed) <= swallowed && ends == old(ends)
        invariant running ==> outcome == Finished
        invariant !outcome.Died? ==> Followed()
        invariant outcome.Died? ==> EndedByFrame(false, Aborted)
        invariant |Answers(output)|
               == |Answers(old(output))| + swallowed - old(swallowed) + if outcome.Answering? then 1 else 0
        invariant swallowed == old(swallowed) ==>
                    Answers(output) == Answers(old(output)) + if outcome.Answering? then [answer] else []
        invariant outcome.Answering? && outcome.sync == call.sync ==> Matches(call.In(bufferCall), answer)
        decreases budget
      {
        budget := budget - 1;
        var action: nat, choice: bool, exotic: bool := *, *, *;
        if action == 0 {
          outcome := NestedRequest();
          running := outcome == Finished;
        } else if action == 1 {
          var ok := SendOther();
        } else if action == 2 {
          outcome, answer := TryAnswer(call, choice, exotic);
          running := outcome == Finished;
        } else {
          outcome := if exotic then UnknownException else if choice then StandardException else Finished;
          running := false;
        }
      }
      ends := ends + [outcome];
    }

    /**
     `callback`. If the callback did not end in an answer that it let go, the last thing written
     is the empty response with the identifiers of the request.
     */
    method Callback(call: Call) returns (status: Status, ghost answer: Output)
      requires Lifecycle() && Followed()
      modifies this
      ensures Lifecycle() && Undisturbed() && old(swallowed) <= swallowed
      ensures status == Success || status == Aborted
      ensures |ends| == |old(ends)| + 1 && old(ends) <= ends
      ensures var (o, m) := (ends[|ends| - 1], call.In(old(bufferCall)));
              && (Fatal(o, m) ==> status == Aborted)
              && (status == Aborted ==> Fatal(o, m) || Unanswerable(o, m, broken))
              && (status == Success && !o.Answering? ==>
                 && output != [] && output[|output| - 1] == answer && answer.Return?
                 && answer == Return(m.sync, answer.name, answer.pattern, [], [], m.timeout, m.transId, m.pid)
                 && (0 in m.name ==> answer.name == CString(m.name, 0))
                 && (0 in m.pattern ==> answer.pattern == CString(m.pattern, 0)))
      ensures status == Success ==>
                && Followed()
                && |Answers(output)| == |Answers(old(output))| + swallowed - old(swallowed) + 1
                && (swallowed == old(swallowed) ==>
                      Answers(output) == Answers(old(output)) + [answer] && Matches(call.In(old(bufferCall)), answer))
      decreases budget, 2
    {
      hide Answers, Times, Slice, CString, Matches, EmptyResponse, EndOf, Terminates, SettingsAfter, Echoes, Requests;
      EmptyResponseMatches(call, bufferCall);
      EmptyResponseIs(call, bufferCall);
      var outcome: Outcome;
      outcome, answer := UserCode(call);
      match outcome
      case UnknownException =>
        return Aborted, answer;
      case Died =>
        return Aborted, answer;
      case Answering(sync) =>
        return if sync == call.sync then Success else Aborted, answer;
      case _ =>
        var o := EmptyResponse(call, bufferCall);
        answer := o;
        var ok := Decodes(Slice(bufferCall, call.pid, call.pidSize));
        if ok {
          ok := Write(o);
        }
        status := if ok then Success else Aborted;
    }

    /** A request becomes one that has been dispatched, and is given to its callback. */
    method Handle(call: Call) returns (status: Status)
      requires initializationComplete && (unechoed ==> broken) && !(output == [])
      requires output[0] == InitTerm && Times(output, InitTerm) == 1 && Times(output, PollingTerm) == 1
      requires !unechoed ==> Requests(frames) == dispatched + [call.In(bufferCall)]
      requires Followed() && Conserved()
      modifies this
      ensures Lifecycle() && initializationComplete && (old(terminate) ==> terminate)
      ensures old(output) <= output && old(frames) <= frames && old(waits) <= waits && budget <= old(budget)
      ensures dispatched == old(dispatched) + [call.In(old(bufferCall))]
      ensures |old(ends)| < |ends|
      ensures status != Aborted ==> Conserved() && Followed()
      ensures status == Aborted ==> EndedByCallback()
      decreases budget, 3
    {
      hide Answers, Times, Slice, CString, Matches, Answered, Fatal, Unanswerable, EndOf, Terminates, SettingsAfter,
           Echoes, Requests;
      ghost var m := call.In(bufferCall);
      dispatched := dispatched + [m];
      ghost var answer: Output;
      status, answer := Callback(call);
      if status != Aborted && swallowed == 0 {
        AnsweredAppend(old(dispatched), Answers(old(output)), m, answer);
      }
    }

    // ---------- Whole runs

    constructor (broken: bool, budget: nat, settings: Settings)
      ensures this.broken == broken && initial == settings && Fresh()
    {
      this.broken := broken;
      terminate, initializationComplete := false, false;
      this.settings, initial := settings, settings;
      bufferRecv, bufferRecvIndex, bufferCall := [], 0, [];
      received := None;
      output := [];
      frames, dispatched, ends, waits, swallowed, unechoed := [], [], [], [], 0, false;
      this.budget := budget;
    }

    ghost predicate Fresh()
      reads this
    {
      && output == [] && frames == [] && dispatched == [] && swallowed == 0
      && !unechoed && !terminate && !initializationComplete && settings == initial
    }

    /** `cloudi_initialize` */
    method Initialize() returns (status: Status)
      requires Fresh()
      modifies this
      ensures budget <= old(budget)
      ensures output == [] ==> status == WriteError
      ensures output != [] ==> Lifecycle() && Conserved() && !initializationComplete
      ensures output != [] && status != Aborted ==> Followed()
    {
      hide Answers, Times, Requests, SettingsAfter, Echoes, Terminates, Answered, EndOf, Fatal, Unanswerable;
      NothingYet(initial);
      assert [] + [InitTerm] == [InitTerm] && Answers([]) + [] == [];
      var ok := Write(InitTerm);
      if !ok {
        return WriteError;
      }
      status := PollRequest(false);
      while status == Timeout && budget > 0
        invariant Lifecycle() && Conserved() && !initializationComplete && budget <= old(budget)
        invariant status != Aborted ==> Followed()
        decreases budget
      {
        budget := budget - 1;
        status := PollRequest(false);
      }
    }
  }

  /**
   A service from its start: any requests, other terms and polls of its own, and whatever the
   socket delivers. Between polls the requests that were read have been dispatched, and
   answered, one for one and in order; the settings are those of all frames; and each KEEPALIVE
   has been echoed.
   */
  method Service(broken: bool, budget: nat, settings: Settings) returns (instance: Instance, status: Status)
    ensures fresh(instance) && instance.broken == broken && instance.initial == settings
    ensures instance.output == [] || instance.Lifecycle()
    ensures status != Aborted && instance.output != [] ==> instance.Conserved() && instance.Followed()
  {
    hide WalkFrame, Answers, Times, Answered, Requests, SettingsAfter, Echoes, Terminates, EndOf, Fatal, Unanswerable;
    instance := new Instance(broken, budget, settings);
    status := instance.Initialize();
    if instance.output == [] || status == Aborted {
      return;
    }
    while instance.budget > 0
      invariant fresh(instance) && instance.broken == broken && instance.initial == settings
      invariant instance.Lifecycle() && instance.Conserved() && instance.Followed()
      decreases instance.budget
    {
      instance.budget := instance.budget - 1;
      var action: nat := *;
      if action == 0 {
        status := instance.PollRequest(true);
        if status == Aborted {
          return;
        }
      } else if action == 1 {
        var outcome := instance.NestedRequest();
        if outcome == Died {
          return instance, Aborted;
        }
      } else {
        var ok := instance.SendOther();
      }
    }
    status := Success;
  }
}
