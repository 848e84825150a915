/**
 How src/api/javascript/CloudI.js puts the operations of a program that never waits one
 behind the other: a request may be sent only while no other awaits its response, and
 what is called in the meantime is queued, with a timer of its own to try again.
 */
module JavaScriptScheduler {
  import opened Prelude

  /**
   What an operation does when it is started. A request installs its callback and is sent.
   A notice (subscribe, unsubscribe, shutdown) is sent and its callback is called at once.
   An answer (return, forward) is sent and an exception is thrown.
   */
  datatype Kind = Request | Notice | Answer

  datatype Op = Op(id: nat, kind: Kind)

  /** Whose callback awaits a response: that given to the constructor, or that of a request. */
  datatype Waiter = Initial | Of(id: nat)

  /** The requests among some operations, in their order: each has one response to come. */
  function Waiters(ops: seq<Op>): seq<Waiter> {
    if ops == [] then []
    else
      var last := ops[|ops| - 1];
      Waiters(ops[..|ops| - 1]) + if last.kind.Request? then [Of(last.id)] else []
  }

  lemma WaitersAppend(ops: seq<Op>, op: Op)
    ensures op.kind.Request? ==> Waiters(ops + [op]) == Waiters(ops) + [Of(op.id)]
    ensures !op.kind.Request? ==> Waiters(ops + [op]) == Waiters(ops)
  {
    assert (ops + [op])[..|ops|] == ops;
    assert Waiters(ops) + [] == Waiters(ops);
  }

  class API {
    var terminate: bool                    // _terminate
    var pollCallback: Option<Waiter>       // _poll_callback
    var pending: seq<Op>                   // _poll_callbacks_pending
    var timers: nat                        // retry timers that have been set and have not fired
    var nextId: nat
    ghost var submitted: seq<Op>           // what _poll_wait accepted, in order
    ghost var sent: seq<Op>                // what was started and so written, in order
    ghost var called: seq<Waiter>          // whose callbacks were called with a response, in order
    ghost var inResponse: bool             // a response callback is running, or ended in an exception
    var budget: nat                        // operations that the program will still call

    ghost predicate Valid()
      reads this
    {
      // nothing is lost, doubled or reordered
      && submitted == sent + pending
      && |submitted| == nextId
      && (forall k :: 0 <= k < |submitted| ==> submitted[k].id == k)
      // each queued operation has its timer
      && (!terminate ==> timers == |pending|)
      && InTurn()
    }

    /**
     Responses go, in order, to the callbacks of the requests that were sent, after the initial
     one; at most one callback awaits its response, and that is the one whose turn is next.
     */
    ghost predicate InTurn()
      reads this
    {
      && (pollCallback.Some? && !inResponse ==> called + [pollCallback.value] == [Initial] + Waiters(sent))
      && (pollCallback == None || inResponse ==> called == [Initial] + Waiters(sent))
      && (inResponse ==> pollCallback.Some?)
    }

    constructor (budget: nat)
      ensures Valid() && !terminate && pollCallback == Some(Initial) && sent == [] && pending == [] && !inResponse
    {
      terminate := false;
      pollCallback := Some(Initial);
      pending := [];
      timers := 0;
      nextId := 0;
      submitted, sent, called, inResponse := [], [], [], false;
      this.budget := budget;
    }

    /** Whether an operation called now would be started at once. */
    predicate Idle()
      reads this
    {
      pollCallback == None && pending == []
    }

    /** What no operation of the program can undo. */
    twostate predicate Progress()
      reads this
    {
      && old(sent) <= sent && old(submitted) <= submitted && budget <= old(budget)
      && terminate == old(terminate) && called == old(called) && inResponse == old(inResponse)
      && (terminate ==> sent == old(sent) && pending == old(pending) && pollCallback == old(pollCallback))
      && (!old(Idle()) ==> sent == old(sent) && old(pending) <= pending && pollCallback == old(pollCallback))
    }

    /** `f(API)`: a queued or directly called operation runs. */
    method Start(op: Op)
      requires ValidBut(op) && !terminate && pollCallback == None
      modifies this
      ensures Valid()
      ensures terminate == old(terminate) && called == old(called) && inResponse == old(inResponse)
      ensures old(sent) + [op] <= sent && old(submitted) <= submitted && budget <= old(budget)
      ensures old(pending) != [] ==> sent == old(sent) + [op] && old(pending) <= pending
      decreases budget, 1
    {
      WaitersAppend(sent, op);
      assert [Initial] + (Waiters(sent) + [Of(op.id)]) == [Initial] + Waiters(sent) + [Of(op.id)];
      sent := sent + [op];
      match op.kind
      case Request =>
        pollCallback := Some(Of(op.id));
      case Notice =>
        Program();
      case Answer =>
        // the exception ends the caller's code; it leaves this object as it is
    }

    /** The invariant while op is neither queued nor written. */
    ghost predicate ValidBut(op: Op)
      reads this
    {
      && submitted == sent + [op] + pending
      && |submitted| == nextId
      && (forall k :: 0 <= k < |submitted| ==> submitted[k].id == k)
      && (!terminate ==> timers == |pending|)
      && InTurn()
    }

    /** `_poll_wait` */
    method PollWait(kind: Kind)
      requires Valid()
      modifies this
      ensures Valid() && Progress()
      ensures !terminate && old(Idle()) ==> old(sent) + [Op(old(nextId), kind)] <= sent
      ensures !terminate && !old(Idle()) ==> pending == old(pending) + [Op(old(nextId), kind)]
      decreases budget, 2
    {
      if terminate {
        return;
      }
      var op := Op(nextId, kind);
      nextId := nextId + 1;
      submitted := submitted + [op];
      if pollCallback == None && |pending| == 0 {
        assert submitted == sent + [op] + pending;
        Start(op);
      } else {
        pending := pending + [op];
        timers := timers + 1;
      }
    }

    /** Any code of the program: it calls any operations, at most as many as its budget allows. */
    method Program()
      requires Valid()
      modifies this
      ensures Valid() && Progress()
      decreases budget, 0
    {
      var more: bool := *;
      while more && budget > 0
        invariant Valid() && Progress()
        decreases budget
      {
        budget := budget - 1;
        var n: nat := *;
        PollWait(if n % 3 == 0 then Request else if n % 3 == 1 then Notice else Answer);
        more := *;
      }
    }

    /** `_poll_wait_retry`, called by a timer. */
    method RetryTimerFires()
      requires Valid() && timers > 0
      modifies this
      ensures Valid()
      ensures terminate == old(terminate) && called == old(called) && inResponse == old(inResponse)
      ensures old(terminate) || old(pollCallback).Some? ==> sent == old(sent) && pending == old(pending)
      ensures !old(terminate) && old(pollCallback) == None ==>
                old(pending) != [] && old(sent) + [old(pending)[0]] <= sent
    {
      timers := timers - 1;
      if terminate {
        return;
      } else if pollCallback == None {
        var f := pending[0];
        pending := pending[1..];
        assert submitted == sent + [f] + pending;
        Start(f);
      } else {
        timers := timers + 1;
      }
    }

    /**
     A response frame arrives: `API._poll_callback(...)` and then `API._poll_callback = undefined`.
     What the callback calls is queued, never sent before the response has been dealt with.
     An exception in the callback, or a frame that nobody awaits, ends the program.
     */
    method ResponseArrives()
      requires Valid() && !terminate && !inResponse
      modifies this
      ensures Valid()
      ensures sent == old(sent) && old(pending) <= pending
      ensures inResponse ==> terminate
      ensures old(pollCallback).Some? ==> called == old(called) + [old(pollCallback).value]
      ensures old(pollCallback) == None ==> called == old(called) && terminate
      ensures !terminate ==> pollCallback == None
    {
      if pollCallback == None {
        PollTerminate();
        return;
      }
      called := called + [pollCallback.value];
      inResponse := true;
      Program();
      var throws: bool := *;
      if throws {
        PollTerminate();
        return;
      }
      pollCallback := None;
      inResponse := false;
    }

    /** `_poll_terminate` */
    method PollTerminate()
      requires Valid()
      modifies this`terminate
      ensures Valid() && terminate
    {
      terminate := true;
    }
  }

  /** Every interleaving of timers, responses, program code and termination, for any number of events. */
  method EventLoop(budget: nat, events: nat) returns (api: API)
    ensures fresh(api) && api.Valid()
    ensures api.sent <= api.submitted
    ensures !api.terminate && api.timers == 0 ==> api.sent == api.submitted
    ensures api.called <= [Initial] + Waiters(api.sent)
    ensures |api.called| >= |Waiters(api.sent)|
    ensures api.pollCallback == None ==> api.called == [Initial] + Waiters(api.sent)
  {
    api := new API(budget);
    for n := 0 to events
      invariant fresh(api) && api.Valid()
      invariant api.inResponse ==> api.terminate
    {
      var event: nat := *;
      if event % 4 == 0 && api.timers > 0 {
        api.RetryTimerFires();
      } else if event % 4 == 1 && !api.terminate {
        api.ResponseArrives();
      } else if event % 4 == 2 {
        api.Program();
      } else if event % 4 == 3 {
        api.PollTerminate();
      }
    }
  }
}
