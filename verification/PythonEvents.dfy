/** `__handle_events` of src/api/python/cloudi.py as it runs, against the same reading of events as in C++. */
module PythonEvents {
  import opened Prelude
  import opened Frames
  import opened FrameLaws
  import P = Polling

  /** What a call returns or raises. */
  datatype Result = Returns(value: bool) | TerminateException | MessageDecodingException | StructError

  class API {
    var terminate: bool
    var settings: P.Settings
    var sent: seq<P.Output>

    constructor (settings: P.Settings)
      ensures !terminate && this.settings == settings && sent == []
    {
      terminate := false;
      this.settings := settings;
      sent := [];
    }

    /** `__send` of the keepalive atom */
    method SendKeepalive()
      modifies `sent
      ensures sent == old(sent) + [P.KeepaliveTerm]
    {
      sent := sent + [P.KeepaliveTerm];
    }

    /** command is None unless the caller has read it already. */
    method HandleEvents(external: bool, data: seq<byte>, start: nat, given: Option<word>) returns (r: Result)
      requires given == None || given == Some(MESSAGE_TERM)
      modifies this
      ensures given.Some? ==> terminate && settings == old(settings) && sent == old(sent)
                              && r == if external then Returns(false) else TerminateException
      ensures given == None ==>
                var scan := ParseEvents(data, start);
                && settings == P.ApplyAll(old(settings), scan.events)
                && sent == old(sent) + P.KeepaliveTerms(P.Keepalives(scan.events))
                && terminate == (old(terminate) || scan.ending.Terminated?)
                && r == match scan.ending
                        case Complete => Returns(true)
                        case Terminated => if external then Returns(false) else TerminateException
                        case Underflow => MessageDecodingException
                        case Undefined => StructError
    {
      hide UnpackWord, ParseReinit, WalkReinit, ParseEvents, WalkEvents, P.KeepaliveTerms, P.ApplyAll,
           P.Keepalives, P.Prepend, Slice;
      ghost var size := |data|;
      ghost var done: seq<Event> := [];
      P.NothingHappens(settings);
      assert sent + [] == sent;
      EventsAgree(data, start);
      var j, command := start, 0;
      if given == None {
        if j > |data| {
          P.WalkBehind(data, size, start);
          return MessageDecodingException;
        }
        P.PrependNothing(WalkEvents(data, size, start));
        SameWord(data, j);
        if Unpack(data, j, 4) == None {
          P.WalkStops(data, size, j, done);
          return StructError;
        }
        command := UnpackWord(Unpack(data, j, 4).value);
        j := j + 4;
      } else {
        command := given.value;
      }
      while true
        invariant given.Some? ==> command == MESSAGE_TERM && settings == old(settings) && sent == old(sent)
        invariant given == None ==>
            && 4 <= j <= size && Word(data, j - 4) == Some(command)
            && WalkEvents(data, size, start) == P.Prepend(done, WalkEvents(data, size, j - 4))
            && settings == P.ApplyAll(old(settings), done)
            && sent == old(sent) + P.KeepaliveTerms(P.Keepalives(done))
            && terminate == old(terminate)
        decreases |data| - j
      {
        if command == MESSAGE_TERM {
          terminate := true;
          if given == None {
            P.WalkTerm(data, size, j - 4, old(settings), done);
          }
          return if external then Returns(false) else TerminateException;
        }
        ghost var e, at := Keepalive, j - 4;
        if command == MESSAGE_REINIT {
          ReinitAgrees(data, j);
          if ParseReinit(data, j) == None {
            P.WalkStops(data, size, at, done);
            return StructError;
          }
          P.IsReinit(data, j);
          e := ParseReinit(data, j).value;
          settings := P.Apply(settings, ParseReinit(data, j).value);
          j := j + 13;
        } else if command == MESSAGE_KEEPALIVE {
          SendKeepalive();
        } else {
          P.WalkStops(data, size, at, done);
          return MessageDecodingException;
        }
        P.WalkStep(data, size, at, e, j, done);
        P.EventAppend(old(settings), done, e);
        assert sent == old(sent) + P.KeepaliveTerms(P.Keepalives(done + [e]));
        done := done + [e];
        if j > |data| {
          return MessageDecodingException;
        } else if j == |data| {
          return Returns(true);
        }
        SameWord(data, j);
        if Unpack(data, j, 4) == None {
          P.WalkStops(data, size, j, done);
          return StructError;
        }
        command := UnpackWord(Unpack(data, j, 4).value);
        j := j + 4;
      }
    }
  }

  lemma SameWord(data: seq<byte>, i: nat)
    ensures Word(data, i) == match Unpack(data, i, 4) case None => None case Some(a) => Some(UnpackWord(a))
    ensures Word(data, i).Some? ==> i + 4 <= |data|
  {
    hide UnpackWord;
  }
}
