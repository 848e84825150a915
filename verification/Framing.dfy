/** Length-prefixed messages over a byte stream that is read and written piecemeal. */
module Framing {
  import opened Prelude
  import opened ReallocPtr

  // ---------- The stream as a value

  /** A message behind its length. */
  function Framed(m: seq<byte>): (s: seq<byte>)
    requires |m| < U32_LIMIT
    ensures |s| == 4 + |m|
  {
    PackU32(|m|) + m
  }

  predicate Sendable(ms: seq<seq<byte>>) {
    forall k :: 0 <= k < |ms| ==> |ms[k]| < U32_LIMIT
  }

  function Stream(ms: seq<seq<byte>>): seq<byte>
    requires Sendable(ms)
  {
    if ms == [] then [] else Framed(ms[0]) + Stream(ms[1..])
  }

  /** The first message of a stream and what follows it, once it has arrived in full. */
  function Split(s: seq<byte>): Option<(seq<byte>, seq<byte>)> {
    if |s| < 4 then None
    else
      var length := U32(s[..4]);
      if |s| < 4 + length then None else Some((s[4..4 + length], s[4 + length..]))
  }

  /** n messages and the rest. */
  function SplitMany(s: seq<byte>, n: nat): Option<(seq<seq<byte>>, seq<byte>)>
    decreases n
  {
    if n == 0 then Some(([], s))
    else match Split(s)
      case None => None
      case Some((m, rest)) =>
        match SplitMany(rest, n - 1)
        case None => None
        case Some((ms, last)) => Some(([m] + ms, last))
  }

  lemma SplitFramed(m: seq<byte>, rest: seq<byte>)
    requires |m| < U32_LIMIT
    ensures Split(Framed(m) + rest) == Some((m, rest))
  {
    var s := Framed(m) + rest;
    UnpackPack32(|m|);
    assert s[..4] == PackU32(|m|);
    assert s[4..4 + |m|] == m && s[4 + |m|..] == rest;
  }

  /** As many splits as messages were framed give back those messages and touch nothing behind them. */
  lemma {:induction false} SplitStream(ms: seq<seq<byte>>, rest: seq<byte>)
    requires Sendable(ms)
    ensures SplitMany(Stream(ms) + rest, |ms|) == Some((ms, rest))
  {
    if ms == [] {
      assert [] + rest == rest;
    } else {
      assert Stream(ms) + rest == Framed(ms[0]) + (Stream(ms[1..]) + rest);
      SplitFramed(ms[0], Stream(ms[1..]) + rest);
      SplitStream(ms[1..], rest);
      assert [ms[0]] + ms[1..] == ms;
    }
  }

  // ---------- The socket

  datatype Status = Success | ReadError | ReadNull | WriteError | WriteNull | OutOfMemory

  /**
   One end of a connection. Any call may move any positive number of the bytes asked for;
   a broken socket may also fail at any call.
   */
  class Socket {
    const broken: bool
    var incoming: seq<byte>
    var outgoing: seq<byte>

    constructor (broken: bool, incoming: seq<byte>)
      ensures this.broken == broken && this.incoming == incoming && outgoing == []
    {
      this.broken := broken;
      this.incoming := incoming;
      outgoing := [];
    }

    /** `::read` into buffer from index at on. */
    method Read(buffer: array<byte>, at: nat, n: nat) returns (i: int)
      requires at + n <= buffer.Length && 0 < n
      modifies this`incoming, buffer
      ensures -1 <= i <= n && i <= |old(incoming)|
      ensures !broken && old(incoming) != [] ==> 0 < i
      ensures i <= 0 ==> incoming == old(incoming) && buffer[..] == old(buffer[..])
      ensures 0 < i ==> incoming == old(incoming)[i..]
      ensures 0 < i ==> buffer[..at + i] == old(buffer[..at]) + old(incoming)[..i]
    {
      var most := if |incoming| < n then |incoming| else n;
      var failing: bool := *;
      if most == 0 {
        i := if failing then -1 else 0;
      } else if broken && failing {
        i := -1;
      } else {
        var some: int := *;
        i := if 1 <= some <= most then some else most;
        forall k | 0 <= k < i {
          buffer[at + k] := incoming[k];
        }
        assert buffer[at..at + i] == incoming[..i];
        assert buffer[..at + i] == buffer[..at] + buffer[at..at + i];
        incoming := incoming[i..];
      }
    }

    /** `::write` from buffer, starting at index at. */
    method Write(buffer: array<byte>, at: nat, n: nat) returns (i: int)
      requires at + n <= buffer.Length && 0 < n
      modifies this`outgoing
      ensures -1 <= i <= n
      ensures !broken ==> 0 < i
      ensures i <= 0 ==> outgoing == old(outgoing)
      ensures 0 < i ==> outgoing == old(outgoing) + buffer[at..at + i]
    {
      var failing: bool := *;
      if broken && failing {
        var closed: bool := *;
        i := if closed then 0 else -1;
      } else {
        var some: int := *;
        i := if 1 <= some <= n then some else n;
        outgoing := outgoing + buffer[at..at + i];
      }
    }
  }

  /** `read_exact` */
  method ReadExact(fd: Socket, buffer: array<byte>, length: nat) returns (status: Status)
    requires length <= buffer.Length
    modifies fd`incoming, buffer
    ensures status == Success ==> length <= |old(fd.incoming)|
    ensures status == Success ==>
              buffer[..length] == old(fd.incoming)[..length] && fd.incoming == old(fd.incoming)[length..]
    ensures !fd.broken && length <= |old(fd.incoming)| ==> status == Success
  {
    var total := 0;
    while total < length
      invariant total <= length && total <= |old(fd.incoming)|
      invariant buffer[..total] == old(fd.incoming)[..total]
      invariant fd.incoming == old(fd.incoming)[total..]
      decreases length - total
    {
      var i := fd.Read(buffer, total, length - total);
      if i <= 0 {
        if i == -1 {
          return ReadError;
        } else {
          return ReadNull;
        }
      }
      assert old(fd.incoming)[..total + i] == old(fd.incoming)[..total] + old(fd.incoming)[total..][..i];
      assert old(fd.incoming)[total..][i..] == old(fd.incoming)[total + i..];
      total := total + i;
    }
    status := Success;
  }

  /**
   `read_all` with a header: the next message is left at the front of the buffer and no
   byte of the message after it is taken from the socket.
   */
  method ReadAll(fd: Socket, buffer: Buffer<byte>, available: bool) returns (status: Status, total: nat)
    requires buffer.Valid()
    modifies fd`incoming, buffer, buffer.p
    ensures buffer.Valid() && (buffer.p == old(buffer.p) || fresh(buffer.p))
    ensures status == Success ==>
              total < buffer.size && Split(old(fd.incoming)) == Some((buffer.p[..total], fd.incoming))
    ensures (!fd.broken && available && Split(old(fd.incoming)).Some?
             && |Split(old(fd.incoming)).value.0| <= buffer.maxSize) ==> status == Success
  {
    total := 0;
    var header := new byte[4];
    status := ReadExact(fd, header, 4);
    if status != Success {
      return;
    }
    assert header[..] == header[..4] == old(fd.incoming)[..4];
    var length := U32(header[..]);
    var reserved := buffer.Reserve(length, available);
    if !reserved {
      return OutOfMemory, 0;
    }
    total := length;
    status := ReadExact(fd, buffer.p, length);
    ghost var stream := old(fd.incoming);
    if 4 + length <= |stream| {
      assert stream[4..][..length] == stream[4..4 + length];
      assert stream[4..][length..] == stream[4 + length..];
    }
  }

  /** The length in front of a message. */
  method PutHeader(buffer: array<byte>, lengthBody: nat)
    requires 4 <= buffer.Length && lengthBody < U32_LIMIT
    modifies buffer
    ensures buffer[..] == PackU32(lengthBody) + old(buffer[4..])
  {
    var header := PackU32(lengthBody);
    buffer[0], buffer[1], buffer[2], buffer[3] := header[0], header[1], header[2], header[3];
    assert buffer[..4] == header;
    assert buffer[..] == buffer[..4] + buffer[4..];
  }

  /** `write_exact`: with a header the length of what stands behind it is put into its first 4 bytes. */
  method WriteExact(fd: Socket, useHeader: bool, buffer: array<byte>, length: nat) returns (status: Status)
    requires length <= buffer.Length && length < U32_LIMIT && (useHeader ==> 4 <= length)
    modifies fd`outgoing, buffer
    ensures buffer[..] == if useHeader then PackU32(length - 4) + old(buffer[4..]) else old(buffer[..])
    ensures status == Success ==>
              fd.outgoing == old(fd.outgoing)
                             + if useHeader then Framed(old(buffer[4..length])) else old(buffer[..length])
    ensures !fd.broken ==> status == Success
  {
    hide PackU32;
    if useHeader {
      ghost var body, rest := buffer[4..length], buffer[4..];
      assert rest[..length - 4] == body;
      PutHeader(buffer, length - 4);
      assert (PackU32(length - 4) + rest)[..length] == PackU32(length - 4) + rest[..length - 4];
    }
    ghost var filled := buffer[..];
    ghost var whole := filled[..length];
    var total := 0;
    while total < length
      invariant total <= length && buffer[..] == filled
      invariant fd.outgoing == old(fd.outgoing) + whole[..total]
      modifies fd`outgoing
      decreases length - total
    {
      var i := fd.Write(buffer, total, length - total);
      if i <= 0 {
        if i == -1 {
          return WriteError;
        } else {
          return WriteNull;
        }
      }
      assert buffer[total..total + i] == filled[total..total + i] == whole[total..total + i];
      assert whole[..total + i] == whole[..total] + whole[total..total + i];
      total := total + i;
    }
    assert whole[..length] == whole;
    status := Success;
  }

  lemma {:induction false} StreamAppend(ms: seq<seq<byte>>, m: seq<byte>)
    requires Sendable(ms + [m])
    ensures Sendable(ms) && |m| < U32_LIMIT && Stream(ms + [m]) == Stream(ms) + Framed(m)
  {
    assert (ms + [m])[|ms|] == m;
    assert forall k :: 0 <= k < |ms| ==> (ms + [m])[k] == ms[k];
    if ms == [] {
      assert [] + [m] == [m] && [m][1..] == [];
    } else {
      assert (ms + [m])[1..] == ms[1..] + [m];
      StreamAppend(ms[1..], m);
      assert Framed(ms[0]) + (Stream(ms[1..]) + Framed(m)) == Framed(ms[0]) + Stream(ms[1..]) + Framed(m);
    }
  }

  /** One message behind 4 bytes left free for the header. */
  method Send(fd: Socket, m: seq<byte>) returns (status: Status)
    requires |m| + 4 < U32_LIMIT
    modifies fd`outgoing
    ensures status == Success ==> fd.outgoing == old(fd.outgoing) + Framed(m)
    ensures !fd.broken ==> status == Success
  {
    var buffer := new byte[4 + |m|](k => if 4 <= k < 4 + |m| then m[k - 4] else 0);
    assert buffer[4..4 + |m|] == m;
    status := WriteExact(fd, true, buffer, 4 + |m|);
  }

  /** Any number of framed writes, under any schedule of short writes. */
  method SendAll(fd: Socket, ms: seq<seq<byte>>) returns (status: Status)
    requires forall k :: 0 <= k < |ms| ==> |ms[k]| + 4 < U32_LIMIT
    modifies fd`outgoing
    ensures status == Success ==> fd.outgoing == old(fd.outgoing) + Stream(ms)
    ensures !fd.broken ==> status == Success
  {
    hide Framed;
    status := Success;
    ghost var start := fd.outgoing;
    for n := 0 to |ms|
      invariant fd.outgoing == start + Stream(ms[..n])
      invariant status == Success
    {
      status := Send(fd, ms[n]);
      if status != Success {
        return;
      }
      assert ms[..n + 1] == ms[..n] + [ms[n]];
      StreamAppend(ms[..n], ms[n]);
      assert start + Stream(ms[..n]) + Framed(ms[n]) == start + (Stream(ms[..n]) + Framed(ms[n]));
    }
    assert ms[..|ms|] == ms;
  }

  lemma {:induction false} SplitManyAppend(s: seq<byte>, n: nat, ms: seq<seq<byte>>, mid: seq<byte>,
      m: seq<byte>, rest: seq<byte>)
    requires SplitMany(s, n) == Some((ms, mid)) && Split(mid) == Some((m, rest))
    ensures SplitMany(s, n + 1) == Some((ms + [m], rest))
    decreases n
  {
    if n == 0 {
      assert SplitMany(rest, 0) == Some(([], rest));
      assert [m] + [] == [] + [m];
    } else {
      var (first, next) := Split(s).value;
      var tail := SplitMany(next, n - 1).value.0;
      SplitManyAppend(next, n - 1, tail, mid, m, rest);
      assert [first] + (tail + [m]) == [first] + tail + [m];
    }
  }

  /** The first of n messages, and the others behind it. */
  lemma SplitManyFirst(s: seq<byte>, n: nat)
    requires n > 0 && SplitMany(s, n).Some?
    ensures Split(s).Some?
    ensures var (m, rest) := Split(s).value;
            SplitMany(rest, n - 1).Some? && SplitMany(s, n).value.0 == [m] + SplitMany(rest, n - 1).value.0
  {
    hide Split;
  }

  predicate AllFit(ms: seq<seq<byte>>, most: nat) {
    forall k :: 0 <= k < |ms| ==> |ms[k]| <= most
  }

  /**
   Any number of framed reads, under any schedule of short reads: the messages that the stream
   holds, all of them unless the connection breaks or one does not fit.
   */
  method ReceiveAll(fd: Socket, buffer: Buffer<byte>, n: nat) returns (status: Status, ms: seq<seq<byte>>)
    requires buffer.Valid()
    modifies fd`incoming, buffer, buffer.p
    ensures status == Success ==> SplitMany(old(fd.incoming), n) == Some((ms, fd.incoming))
    ensures var all := SplitMany(old(fd.incoming), n);
            !fd.broken && all.Some? && AllFit(all.value.0, buffer.maxSize) ==> status == Success
  {
    hide Split, SplitMany;
    status, ms := Success, [];
    ghost var all := SplitMany(fd.incoming, n);
    NothingSplit(fd.incoming);
    assert all.Some? ==> [] + all.value.0 == all.value.0;
    for k := 0 to n
      invariant buffer.Valid() && (buffer.p == old(buffer.p) || fresh(buffer.p))
      invariant status == Success && SplitMany(old(fd.incoming), k) == Some((ms, fd.incoming))
      invariant all.Some? ==>
                SplitMany(fd.incoming, n - k).Some? && all.value.0 == ms + SplitMany(fd.incoming, n - k).value.0
    {
      ghost var before := fd.incoming;
      if all.Some? {
        SplitManyFirst(before, n - k);
        assert all.value.0[|ms|] == Split(before).value.0;
      }
      var total;
      status, total := ReadAll(fd, buffer, true);
      if status != Success {
        return;
      }
      var m := buffer.p[..total];
      SplitManyAppend(old(fd.incoming), k, ms, before, m, fd.incoming);
      ghost var others := SplitMany(fd.incoming, n - k - 1);
      assert all.Some? ==> ms + ([m] + others.value.0) == (ms + [m]) + others.value.0;
      ms := ms + [m];
    }
  }

  lemma NothingSplit(s: seq<byte>)
    ensures SplitMany(s, 0) == Some(([], s))
  {
  }

  /** What goes into one end comes out of the other, message by message, however it is cut up on the way. */
  method Exchange(near: Socket, ms: seq<seq<byte>>, buffer: Buffer<byte>)
    returns (far: Socket, status: Status, got: seq<seq<byte>>)
    requires buffer.Valid() && !near.broken && near.outgoing == []
    requires forall k :: 0 <= k < |ms| ==> |ms[k]| + 4 < U32_LIMIT
    requires AllFit(ms, buffer.maxSize)
    modifies near`outgoing, buffer, buffer.p
    ensures status == Success && got == ms && far.incoming == []
  {
    hide Framed, SplitMany;
    status := SendAll(near, ms);
    assert [] + Stream(ms) == Stream(ms) == Stream(ms) + [];
    far := new Socket(false, near.outgoing);
    SplitStream(ms, []);
    status, got := ReceiveAll(far, buffer, |ms|);
  }

  // ---------- The Go receiver

  /** `Instance` of src/api/go/cloudi/cloudi.go as far as it receives: what arrived waits in bufferRecv. */
  class GoReceiver {
    const fragmentSize: nat
    const socket: Socket
    var bufferRecv: seq<byte>

    constructor (socket: Socket, fragmentSize: nat)
      requires 0 < fragmentSize
      ensures this.socket == socket && this.fragmentSize == fragmentSize && bufferRecv == []
    {
      this.socket := socket;
      this.fragmentSize := fragmentSize;
      bufferRecv := [];
    }

    /** Everything received and still to come. */
    ghost function Pending(): seq<byte>
      reads this, socket
    {
      bufferRecv + socket.incoming
    }

    /** `recvFragment`: at most size bytes are taken when a size is given. */
    method RecvFragment(size: nat) returns (i: int)
      requires 0 < fragmentSize
      modifies this`bufferRecv, socket`incoming
      ensures Pending() == old(Pending())
      ensures -1 <= i && (size != 0 ==> i <= size)
      ensures |bufferRecv| == |old(bufferRecv)| + if 0 < i then i else 0
      ensures !socket.broken && old(socket.incoming) != [] ==> 0 < i
    {
      var recvSize := if size != 0 && fragmentSize > size then size else fragmentSize;
      var fragment := new byte[recvSize];
      i := socket.Read(fragment, 0, recvSize);
      if i > 0 {
        assert fragment[..i] == old(socket.incoming)[..i];
        assert old(socket.incoming) == old(socket.incoming)[..i] + old(socket.incoming)[i..];
        bufferRecv := bufferRecv + fragment[..i];
        assert bufferRecv + socket.incoming == old(bufferRecv) + (fragment[..i] + socket.incoming);
      }
    }

    /** Fill bufferRecv up to n bytes, never beyond. */
    method Fill(n: nat) returns (ok: bool)
      requires 0 < fragmentSize
      modifies this`bufferRecv, socket`incoming
      ensures Pending() == old(Pending())
      ensures |bufferRecv| <= (if |old(bufferRecv)| < n then n else |old(bufferRecv)|)
      ensures ok ==> n <= |bufferRecv|
      ensures !socket.broken && n <= |old(Pending())| ==> ok
    {
      while |bufferRecv| < n
        invariant Pending() == old(Pending())
        invariant |bufferRecv| <= (if |old(bufferRecv)| < n then n else |old(bufferRecv)|)
        decreases n - |bufferRecv|
      {
        var i := RecvFragment(n - |bufferRecv|);
        if i <= 0 {
          return false;
        }
      }
      ok := true;
    }

    /** `recv` with a header; no byte of the next message is taken from the socket. */
    method Recv() returns (message: Option<seq<byte>>)
      requires 0 < fragmentSize
      modifies this`bufferRecv, socket`incoming
      ensures message.Some? ==> Split(old(Pending())) == Some((message.value, Pending()))
      ensures message.Some? && old(bufferRecv) == [] ==> bufferRecv == []
      ensures !socket.broken && Split(old(Pending())).Some? ==> message.Some?
    {
      var ok := Fill(4);
      if !ok {
        return None;
      }
      ghost var stream := old(Pending());
      assert stream[..4] == bufferRecv[..4];
      var header := bufferRecv[..4];
      bufferRecv := bufferRecv[4..];
      assert Pending() == stream[4..];
      var total := U32(header);
      ok := Fill(total);
      if !ok {
        return None;
      }
      assert stream[4..4 + total] == stream[4..][..total] == bufferRecv[..total];
      message := Some(bufferRecv[..total]);
      bufferRecv := bufferRecv[total..];
      assert stream[4..][total..] == stream[4 + total..];
      assert Pending() == stream[4 + total..];
    }
  }
}
