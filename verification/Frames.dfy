/**
 The frames that CloudI sends to a service: one message with the events that had to travel
 with it. They are laid out by the core (cloudi_core_i_services_external.erl) and taken
 apart twice, by an index that walks a reused buffer (C++) and by slices of an exact byte
 string (Python).
 */
module Frames {
  import opened Prelude

  // ---------- Native (little-endian) fields

  type word = n: int | 0 <= n < 0x1_0000_0000
  type int8 = n: int | -128 <= n < 128

  function PackWord(n: word): (s: seq<byte>)
    ensures |s| == 4
  {
    var s := PackU32(n);
    [s[3], s[2], s[1], s[0]]
  }

  function UnpackWord(s: seq<byte>): word
    requires |s| == 4
  {
    U32([s[3], s[2], s[1], s[0]])
  }

  function PackInt8(n: int8): byte {
    if n < 0 then n + 256 else n
  }

  function UnpackInt8(b: byte): int8 {
    if b < 128 then b else b - 256
  }

  lemma UnpackPackWord(n: word)
    ensures UnpackWord(PackWord(n)) == n
  {
    var s := PackU32(n);
    UnpackPack32(n);
    assert [s[0], s[1], s[2], s[3]] == s;
  }

  // ---------- Messages and events

  const MESSAGE_INIT := 1
  const MESSAGE_SEND_ASYNC := 2
  const MESSAGE_SEND_SYNC := 3
  const MESSAGE_RECV_ASYNC := 4
  const MESSAGE_RETURN_ASYNC := 5
  const MESSAGE_RETURN_SYNC := 6
  const MESSAGE_RETURNS_ASYNC := 7
  const MESSAGE_KEEPALIVE := 8
  const MESSAGE_REINIT := 9
  const MESSAGE_SUBSCRIBE_COUNT := 10
  const MESSAGE_TERM := 11

  /** The prefix, the name and the pattern include the NUL that ends them. */
  datatype Message =
    | Init(processIndex: word, processCount: word, processCountMax: word, processCountMin: word,
           prefix: seq<byte>, timeoutInitialize: word, timeoutAsync: word, timeoutSync: word,
           timeoutTerminate: word, priorityDefault: int8)
    | Send(sync: bool, name: seq<byte>, pattern: seq<byte>, requestInfo: seq<byte>, request: seq<byte>,
           timeout: word, priority: int8, transId: seq<byte>, pid: seq<byte>)
    | Response(sync: bool, responseInfo: seq<byte>, response: seq<byte>, transId: seq<byte>)
    | ReturnAsync(transId: seq<byte>)
    | ReturnsAsync(transIds: seq<seq<byte>>)
    | SubscribeCount(count: word)

  datatype Event =
    | Term
    | Reinit(processCount: word, timeoutAsync: word, timeoutSync: word, priorityDefault: int8)
    | Keepalive

  function Code(m: Message): word {
    match m
    case Init(_, _, _, _, _, _, _, _, _, _) => MESSAGE_INIT
    case Send(sync, _, _, _, _, _, _, _, _) => if sync then MESSAGE_SEND_SYNC else MESSAGE_SEND_ASYNC
    case Response(sync, _, _, _) => if sync then MESSAGE_RETURN_SYNC else MESSAGE_RECV_ASYNC
    case ReturnAsync(_) => MESSAGE_RETURN_ASYNC
    case ReturnsAsync(_) => MESSAGE_RETURNS_ASYNC
    case SubscribeCount(_) => MESSAGE_SUBSCRIBE_COUNT
  }

  // ---------- The layout

  /** The sizes that the fields of a message can have. */
  predicate Legal(m: Message) {
    match m
    case Init(_, _, _, _, prefix, _, _, _, _, _) => |prefix| < U32_LIMIT
    case Send(_, name, pattern, info, request, _, _, transId, pid) =>
      |name| < U32_LIMIT && |pattern| < U32_LIMIT && |info| < U32_LIMIT && |request| < U32_LIMIT
      && |transId| == 16 && |pid| < U32_LIMIT
    case Response(_, info, response, transId) =>
      |info| < U32_LIMIT && |response| < U32_LIMIT && |transId| == 16
    case ReturnAsync(transId) => |transId| == 16
    case ReturnsAsync(ids) => |ids| < U32_LIMIT && forall k :: 0 <= k < |ids| ==> |ids[k]| == 16
    case SubscribeCount(_) => true
  }

  function Sized(s: seq<byte>): seq<byte>
    requires |s| < U32_LIMIT
  {
    PackWord(|s|) + s
  }

  function JoinedIds(ids: seq<seq<byte>>): (s: seq<byte>)
    requires forall k :: 0 <= k < |ids| ==> |ids[k]| == 16
    ensures |s| == 16 * |ids|
  {
    if ids == [] then [] else ids[0] + JoinedIds(ids[1..])
  }

  /** The fields behind the code of a message. */
  function Fields(m: Message): seq<byte>
    requires Legal(m)
  {
    match m
    case Init(index, count, max, min, prefix, initialize, async, sync, terminate, priority) =>
      PackWord(index) + (PackWord(count) + (PackWord(max) + (PackWord(min) + (Sized(prefix)
        + (PackWord(initialize) + (PackWord(async) + (PackWord(sync) + (PackWord(terminate)
        + [PackInt8(priority)]))))))))
    case Send(_, name, pattern, info, request, timeout, priority, transId, pid) =>
      Sized(name) + (Sized(pattern) + (Sized(info) + ([0] + (Sized(request) + ([0]
        + (PackWord(timeout) + ([PackInt8(priority)] + (transId + Sized(pid)))))))))
    case Response(_, info, response, transId) =>
      Sized(info) + ([0] + (Sized(response) + ([0] + transId)))
    case ReturnAsync(transId) => transId
    case ReturnsAsync(ids) => PackWord(|ids|) + JoinedIds(ids)
    case SubscribeCount(count) => PackWord(count)
  }

  function MessageLayout(m: Message): seq<byte>
    requires Legal(m)
  {
    PackWord(Code(m)) + Fields(m)
  }

  function EventLayout(e: Event): seq<byte> {
    match e
    case Term => PackWord(MESSAGE_TERM)
    case Reinit(count, async, sync, priority) =>
      PackWord(MESSAGE_REINIT) + (PackWord(count) + (PackWord(async) + (PackWord(sync) + [PackInt8(priority)])))
    case Keepalive => PackWord(MESSAGE_KEEPALIVE)
  }

  function EventsLayout(es: seq<Event>): seq<byte> {
    if es == [] then [] else EventLayout(es[0]) + EventsLayout(es[1..])
  }

  // ---------- The C++ walk: an index into a buffer that may be longer than the frame

  /** `store_incoming_uint32`; None when it would read behind the buffer. */
  function Word(b: seq<byte>, i: nat): Option<word> {
    if i + 4 <= |b| then Some(UnpackWord(b[i..i + 4])) else None
  }

  /** `store_incoming_int8` */
  function Int8(b: seq<byte>, i: nat): Option<int8> {
    if i < |b| then Some(UnpackInt8(b[i])) else None
  }

  /**
   The n bytes at a pointer to `buffer[i]` that are followed by more fields. (What a message
   ends with is not read here; it may stretch behind the frame, which the index then shows.)
   */
  function Bytes(b: seq<byte>, i: nat, n: nat): Option<seq<byte>> {
    if i + n <= |b| then Some(b[i..i + n]) else None
  }

  /** A size and that many bytes; the index behind them. */
  function Counted(b: seq<byte>, i: nat): Option<(seq<byte>, nat)> {
    var size :- Word(b, i);
    var s :- Bytes(b, i + 4, size);
    Some((s, i + 4 + size))
  }

  /** n identifiers one behind the other. */
  function Chunks(b: seq<byte>, i: nat, n: nat): (ids: seq<seq<byte>>)
    decreases n
  {
    if n == 0 then [] else [Slice(b, i, 16)] + Chunks(b, i + 16, n - 1)
  }

  function WalkInit(b: seq<byte>, i: nat): Option<(Message, nat)> {
    var index :- Word(b, i);
    var count :- Word(b, i + 4);
    var max :- Word(b, i + 8);
    var min :- Word(b, i + 12);
    var (prefix, j) :- Counted(b, i + 16);
    var initialize :- Word(b, j);
    var async :- Word(b, j + 4);
    var sync :- Word(b, j + 8);
    var terminate :- Word(b, j + 12);
    var priority :- Int8(b, j + 16);
    Some((Init(index, count, max, min, prefix, initialize, async, sync, terminate, priority), j + 17))
  }

  datatype SendTail = SendTail(timeout: word, priority: int8, transId: seq<byte>, pid: seq<byte>)

  datatype SendRest = SendRest(requestInfo: seq<byte>, request: seq<byte>, tail: SendTail)

  /** A SEND message behind its request. */
  function WalkSendTail(b: seq<byte>, i: nat): Option<(SendTail, nat)> {
    var timeout :- Word(b, i);
    var priority :- Int8(b, i + 4);
    var transId :- Bytes(b, i + 5, 16);
    var pidSize :- Word(b, i + 21);
    Some((SendTail(timeout, priority, transId, Slice(b, i + 25, pidSize)), i + 25 + pidSize))
  }

  /** A SEND message behind its pattern. */
  function WalkSendRest(b: seq<byte>, i: nat): Option<(SendRest, nat)> {
    var (info, j) :- Counted(b, i);
    var (request, k) :- Counted(b, j + 1);
    var (tail, l) :- WalkSendTail(b, k + 1);
    Some((SendRest(info, request, tail), l))
  }

  function SendMessage(sync: bool, name: seq<byte>, pattern: seq<byte>, r: SendRest): Message {
    Send(sync, name, pattern, r.requestInfo, r.request, r.tail.timeout, r.tail.priority, r.tail.transId, r.tail.pid)
  }

  function WalkSend(b: seq<byte>, i: nat, sync: bool): Option<(Message, nat)> {
    var (name, j) :- Counted(b, i);
    var (pattern, k) :- Counted(b, j);
    var (rest, l) :- WalkSendRest(b, k);
    Some((SendMessage(sync, name, pattern, rest), l))
  }

  function WalkResponse(b: seq<byte>, i: nat, sync: bool): Option<(Message, nat)> {
    var (info, j) :- Counted(b, i);
    var (response, k) :- Counted(b, j + 1);
    Some((Response(sync, info, response, Slice(b, k + 1, 16)), k + 17))
  }

  /** The message with this code whose fields start at i, and the index behind it. */
  function WalkMessage(b: seq<byte>, i: nat, code: word): Option<(Message, nat)> {
    if code == MESSAGE_INIT then WalkInit(b, i)
    else if code == MESSAGE_SEND_ASYNC || code == MESSAGE_SEND_SYNC then
      WalkSend(b, i, code == MESSAGE_SEND_SYNC)
    else if code == MESSAGE_RECV_ASYNC || code == MESSAGE_RETURN_SYNC then
      WalkResponse(b, i, code == MESSAGE_RETURN_SYNC)
    else if code == MESSAGE_RETURN_ASYNC then
      Some((ReturnAsync(Slice(b, i, 16)), i + 16))
    else if code == MESSAGE_RETURNS_ASYNC then
      var count :- Word(b, i);
      Some((ReturnsAsync(Chunks(b, i + 4, count)), i + 4 + 16 * count))
    else if code == MESSAGE_SUBSCRIBE_COUNT then
      var count :- Word(b, i);
      Some((SubscribeCount(count), i + 4))
    else None
  }

  predicate IsMessage(code: word) {
    1 <= code <= 7 || code == MESSAGE_SUBSCRIBE_COUNT
  }

  function WalkReinit(b: seq<byte>, i: nat): Option<Event> {
    var count :- Word(b, i);
    var async :- Word(b, i + 4);
    var sync :- Word(b, i + 8);
    var priority :- Int8(b, i + 12);
    Some(Reinit(count, async, sync, priority))
  }

  /** How the walk over a frame ends. */
  datatype Ending =
    | Complete           // exactly at the end of the frame
    | Terminated         // at a TERM, whatever follows it
    | Underflow          // cloudi_error_read_underflow (MessageDecodingException in Python)
    | Undefined          // a read behind the buffer (struct.error in Python)

  /** Events that took effect, in order, how the walk ended, and the index behind what it used. */
  datatype Scan = Scan(events: seq<Event>, ending: Ending, end: nat) {
    function After(e: Event): Scan {
      Scan([e] + events, ending, end)
    }

    predicate Accepted() {
      ending.Complete? || ending.Terminated?
    }
  }

  /** `handle_events` from index i on; size is `buffer_recv_index`. */
  function WalkEvents(b: seq<byte>, size: nat, i: nat): (r: Scan)
    decreases |b| - i
  {
    if i > size then Scan([], Underflow, i)
    else match Word(b, i)
      case None => Scan([], Undefined, i)
      case Some(code) =>
        if code == MESSAGE_TERM then Scan([Term], Terminated, i + 4)
        else if code == MESSAGE_REINIT then
          match WalkReinit(b, i + 4)
          case None => Scan([], Undefined, i)
          case Some(e) => if i + 17 == size then Scan([e], Complete, i + 17) else WalkEvents(b, size, i + 17).After(e)
        else if code == MESSAGE_KEEPALIVE then
          if i + 4 == size then Scan([Keepalive], Complete, i + 4) else WalkEvents(b, size, i + 4).After(Keepalive)
        else Scan([], Underflow, i)
  }

  /** A frame: events in front, then at most one message with the events behind it. */
  datatype Frame = Frame(leading: seq<Event>, message: Option<Message>, trailing: Scan) {
    function After(e: Event): Frame {
      Frame([e] + leading, message, trailing)
    }
  }

  /** One pass of the loop of `poll_request` over a frame of size bytes, from index i on. */
  function WalkFrame(b: seq<byte>, size: nat, i: nat): (f: Frame)
    decreases |b| - i
  {
    match Word(b, i)
    case None => Frame([], None, Scan([], Undefined, i))
    case Some(code) =>
      if IsMessage(code) then
        match WalkMessage(b, i + 4, code)
        case None => Frame([], None, Scan([], Undefined, i))
        case Some((m, k)) => Frame([], Some(m), if k == size then Scan([], Complete, k) else WalkEvents(b, size, k))
      else if code == MESSAGE_TERM then Frame([Term], None, Scan([], Terminated, i + 4))
      else if code == MESSAGE_REINIT then
        match WalkReinit(b, i + 4)
        case None => Frame([], None, Scan([], Undefined, i))
        case Some(e) =>
          if i + 17 == size then Frame([e], None, Scan([], Complete, i + 17))
          else if i + 17 < size then WalkFrame(b, size, i + 17).After(e)
          else Frame([e], None, Scan([], Underflow, i + 17))
      else if code == MESSAGE_KEEPALIVE then
        if i + 4 == size then Frame([Keepalive], None, Scan([], Complete, i + 4))
        else if i + 4 < size then WalkFrame(b, size, i + 4).After(Keepalive)
        else Frame([Keepalive], None, Scan([], Underflow, i + 4))
      else Frame([], None, Scan([], Underflow, i))
  }

  // ---------- The Python parser: slices of the exact frame, several fields at a time

  /** `struct.unpack` of data[i:i + n] with a format of n bytes; None for struct.error. */
  function Unpack(data: seq<byte>, i: nat, n: nat): (r: Option<seq<byte>>)
    ensures r.Some? ==> |r.value| == n
  {
    if |Slice(data, i, n)| == n then Some(Slice(data, i, n)) else None
  }

  /** The format `'=%dsc...' % (size - 1)`, which no size of 0 can have. */
  function UnpackText(data: seq<byte>, i: nat, size: nat, n: nat): (r: Option<seq<byte>>)
    ensures r.Some? ==> |r.value| == size + n && size > 0
  {
    if size == 0 then None else Unpack(data, i, size + n)
  }

  function ParseInit(data: seq<byte>, i: nat): Option<(Message, nat)> {
    var head :- Unpack(data, i, 20);
    var size := UnpackWord(head[16..20]);
    var tail :- UnpackText(data, i + 20, size, 17);
    var t := tail[size..];
    Some((Init(UnpackWord(head[..4]), UnpackWord(head[4..8]), UnpackWord(head[8..12]), UnpackWord(head[12..16]),
               tail[..size], UnpackWord(t[..4]), UnpackWord(t[4..8]), UnpackWord(t[8..12]), UnpackWord(t[12..16]),
               UnpackInt8(t[16])),
          i + 20 + size + 17))
  }

  /** The 25 bytes of `'Ib16sI'` behind a request, and the pid from index i on. */
  function ParseSendTail(data: seq<byte>, f: seq<byte>, i: nat): (SendTail, nat)
    requires |f| == 25
  {
    var pidSize := UnpackWord(f[21..]);
    (SendTail(UnpackWord(f[..4]), UnpackInt8(f[4]), f[5..21], Slice(data, i, pidSize)), i + pidSize)
  }

  /** From the request information on: `'=%dscI' % request_info_size`, `'=%dscIb16sI' % request_size` and the pid. */
  function ParseSendRest(data: seq<byte>, i: nat, infoSize: word): Option<(SendRest, nat)> {
    var d :- Unpack(data, i, infoSize + 5);
    var requestSize := UnpackWord(d[infoSize + 1..]);
    var j := i + infoSize + 5;
    var e :- Unpack(data, j, requestSize + 26);
    var tail := ParseSendTail(data, e[requestSize + 1..], j + requestSize + 26);
    Some((SendRest(d[..infoSize], e[..requestSize], tail.0), tail.1))
  }

  function ParseSend(data: seq<byte>, i: nat, sync: bool): Option<(Message, nat)> {
    var a :- Unpack(data, i, 4);
    var nameSize := UnpackWord(a);
    var b :- UnpackText(data, i + 4, nameSize, 4);
    var patternSize := UnpackWord(b[nameSize..]);
    var j := i + 4 + nameSize + 4;
    var c :- UnpackText(data, j, patternSize, 4);
    var infoSize := UnpackWord(c[patternSize..]);
    var rest :- ParseSendRest(data, j + patternSize + 4, infoSize);
    Some((SendMessage(sync, b[..nameSize], c[..patternSize], rest.0), rest.1))
  }

  function ParseResponse(data: seq<byte>, i: nat, sync: bool): Option<(Message, nat)> {
    var a :- Unpack(data, i, 4);
    var infoSize := UnpackWord(a);
    var b :- Unpack(data, i + 4, infoSize + 5);
    var responseSize := UnpackWord(b[infoSize + 1..]);
    var j := i + 4 + infoSize + 5;
    var c :- Unpack(data, j, responseSize + 17);
    Some((Response(sync, b[..infoSize], c[..responseSize], c[responseSize + 1..]), j + responseSize + 17))
  }

  /** The format `'16s' * count`. */
  function Strings16(s: seq<byte>): (ids: seq<seq<byte>>)
    requires |s| % 16 == 0
  {
    if s == [] then [] else [s[..16]] + Strings16(s[16..])
  }

  function ParseMessage(data: seq<byte>, i: nat, code: word): Option<(Message, nat)> {
    if code == MESSAGE_INIT then ParseInit(data, i)
    else if code == MESSAGE_SEND_ASYNC || code == MESSAGE_SEND_SYNC then
      ParseSend(data, i, code == MESSAGE_SEND_SYNC)
    else if code == MESSAGE_RECV_ASYNC || code == MESSAGE_RETURN_SYNC then
      ParseResponse(data, i, code == MESSAGE_RETURN_SYNC)
    else if code == MESSAGE_RETURN_ASYNC then
      Some((ReturnAsync(Slice(data, i, 16)), i + 16))
    else if code == MESSAGE_RETURNS_ASYNC then
      var a :- Unpack(data, i, 4);
      var count := UnpackWord(a);
      var ids :- Unpack(data, i + 4, 16 * count);
      Some((ReturnsAsync(Strings16(ids)), i + 4 + 16 * count))
    else if code == MESSAGE_SUBSCRIBE_COUNT then
      var a :- Unpack(data, i, 4);
      Some((SubscribeCount(UnpackWord(a)), i + 4))
    else None
  }

  function ParseReinit(data: seq<byte>, i: nat): Option<Event> {
    var a :- Unpack(data, i, 13);
    Some(Reinit(UnpackWord(a[..4]), UnpackWord(a[4..8]), UnpackWord(a[8..12]), UnpackInt8(a[12])))
  }

  /** `__handle_events` with j behind what has been parsed. */
  function ParseEvents(data: seq<byte>, j: nat): (r: Scan)
    decreases |data| - j
  {
    if j > |data| then Scan([], Underflow, j)
    else match Unpack(data, j, 4)
      case None => Scan([], Undefined, j)
      case Some(a) =>
        var code := UnpackWord(a);
        if code == MESSAGE_TERM then Scan([Term], Terminated, j + 4)
        else if code == MESSAGE_REINIT then
          match ParseReinit(data, j + 4)
          case None => Scan([], Undefined, j)
          case Some(e) => if j + 17 == |data| then Scan([e], Complete, j + 17) else ParseEvents(data, j + 17).After(e)
        else if code == MESSAGE_KEEPALIVE then
          if j + 4 == |data| then Scan([Keepalive], Complete, j + 4) else ParseEvents(data, j + 4).After(Keepalive)
        else Scan([], Underflow, j)
  }

  /** One pass of the loop of `__poll_request` over data from i on. */
  function ParseFrame(data: seq<byte>, i: nat): (f: Frame)
    decreases |data| - i
  {
    match Unpack(data, i, 4)
    case None => Frame([], None, Scan([], Undefined, i))
    case Some(a) =>
      var code := UnpackWord(a);
      if IsMessage(code) then
        match ParseMessage(data, i + 4, code)
        case None => Frame([], None, Scan([], Undefined, i))
        case Some((m, j)) => Frame([], Some(m), if j == |data| then Scan([], Complete, j) else ParseEvents(data, j))
      else if code == MESSAGE_TERM then Frame([Term], None, Scan([], Terminated, i + 4))
      else if code == MESSAGE_REINIT then
        match ParseReinit(data, i + 4)
        case None => Frame([], None, Scan([], Undefined, i))
        case Some(e) =>
          if i + 17 == |data| then Frame([e], None, Scan([], Complete, i + 17))
          else if i + 17 < |data| then ParseFrame(data, i + 17).After(e)
          else Frame([e], None, Scan([], Underflow, i + 17))
      else if code == MESSAGE_KEEPALIVE then
        if i + 4 == |data| then Frame([Keepalive], None, Scan([], Complete, i + 4))
        else if i + 4 < |data| then ParseFrame(data, i + 4).After(Keepalive)
        else Frame([Keepalive], None, Scan([], Underflow, i + 4))
      else Frame([], None, Scan([], Underflow, i))
  }
}
