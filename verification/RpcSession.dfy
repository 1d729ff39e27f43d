/**
 The session object and the worker's loops as the code writes them.  What other
 threads do while the worker waits is a sequence of arrivals, after which the
 session is closed; what the worker dispatches is what all the bytes frame.
 */
module RpcSessions {
  import opened Options
  import opened RpcFraming
  import opened RpcProtocol

  /** How one turn of the worker's loop ends: a message, a decode error, or the end of file. */
  datatype Outcome = Decoded(message: Bytes) | Undecodable | AtEnd(message: Bytes)

  function Concat(arrivals: seq<Bytes>): Bytes {
    if arrivals == [] then [] else arrivals[0] + Concat(arrivals[1..])
  }

  class RpcSession {
    var stream: Bytes
    var newData: bool
    var disconnect: bool
    var decodeError: bool
    var terminate: bool
    var dispatched: seq<Bytes>
    var tail: Option<Bytes>
    var errorReplies: nat
    var arrivals: seq<Bytes>     // what the stream buffer accepts, one by one, while the worker waits

    /** Nothing arrives at a session that has been closed. */
    predicate Valid()
      reads this`disconnect, this`arrivals
    {
      disconnect ==> arrivals == []
    }

    /** All bytes that the worker will find, now or later. */
    ghost function Coming(): Bytes
      reads this`stream, this`arrivals
    {
      stream + Concat(arrivals)
    }

    constructor (arrivals: seq<Bytes>)
      ensures Valid() && this.arrivals == arrivals && stream == [] && !newData && !disconnect && !decodeError && !terminate
      ensures dispatched == [] && tail == None && errorReplies == 0
    {
      stream, newData, disconnect, decodeError, terminate := [], false, false, false, false;
      dispatched, tail, errorReplies := [], None, 0;
      this.arrivals := arrivals;
    }

    /** Accepts as many of the bytes as the buffer has room for, and raises the flag in any case. */
    method Feed(bytes: Bytes) returns (sent: nat)
      requires |stream| <= BUFFER_SIZE
      modifies this`stream, this`newData
      ensures sent <= |bytes| && stream == old(stream) + bytes[..sent] && |stream| <= BUFFER_SIZE
      ensures sent < |bytes| ==> |stream| == 1024
      ensures newData
    {
      var room: nat := BUFFER_SIZE - |stream|;
      sent := if |bytes| <= room then |bytes| else room;
      stream := stream + bytes[..sent];
      newData := true;
    }

    /** Closes the session, whatever else would have arrived. */
    method Close()
      modifies this`disconnect, this`arrivals
      ensures disconnect && Valid()
    {
      disconnect, arrivals := true, [];
    }

    /**
     Waits for a flag and clears all of them.  With none raised the worker
     sleeps until the next bytes arrive, or the session is closed.
     */
    method Wait() returns (closed: bool)
      requires Valid()
      modifies this`stream, this`newData, this`disconnect, this`arrivals
      ensures Valid() && !newData && !disconnect && Coming() == old(Coming())
      ensures closed ==> arrivals == [] && stream == old(stream)
      ensures old(disconnect) ==> closed
      ensures !closed ==>
                |arrivals| < |old(arrivals)| || (old(newData) && arrivals == old(arrivals) && stream == old(stream))
      ensures closed && !old(disconnect) ==> !old(newData)
    {
      if !newData && !disconnect {
        if arrivals != [] {
          stream, arrivals, newData := stream + arrivals[0], arrivals[1..], true;
        } else {
          disconnect := true;
        }
      }
      closed := disconnect;
      newData, disconnect := false, false;
    }

    /**
     A read succeeds exactly when no decode error has occurred and enough bytes
     come before the session is closed; otherwise it empties the stream, however
     full, and sets `terminate`.
     */
    method Read(count: Positive) returns (ok: bool, buf: Bytes)
      requires Valid() && !terminate
      modifies this`stream, this`newData, this`disconnect, this`terminate, this`arrivals
      ensures Valid() && ok == (!decodeError && |old(Coming())| >= count)
      ensures ok ==> buf == old(Coming())[..count] && Coming() == old(Coming())[count..] && !terminate
      ensures !ok ==> terminate && stream == [] && arrivals == []
    {
      buf := [];
      while true
        invariant Valid() && !terminate && |buf| < count
        invariant decodeError ==> buf == []
        invariant !decodeError ==> buf + Coming() == old(Coming())
        decreases |arrivals|, !disconnect, newData, |stream|
      {
        var missing: nat := count - |buf|;
        var n: nat := if missing <= |stream| then missing else |stream|;
        Receives(stream, Concat(arrivals), n, buf);
        buf, stream := buf + stream[..n], stream[n..];
        if decodeError {
          buf := [];
        }
        if |buf| == count {
          return true, buf;
        }
        var closed := Wait();
        if closed {
          if stream == [] {
            terminate := true;
            return false, buf;
          }
          // the flag is kept for the next wait
          disconnect := true;
        }
      }
    }

    /** Decodes one message by reads of exactly the lengths the decoder asks for. */
    method DecodeMessage(d: Decoder) returns (outcome: Outcome)
      requires d([]).Need? && Valid() && !terminate
      modifies this`stream, this`newData, this`disconnect, this`terminate, this`arrivals
      ensures Valid() && outcome.AtEnd? == terminate && (terminate ==> stream == [] && arrivals == [])
      ensures !terminate ==> !decodeError && |Coming()| < |old(Coming())|
      ensures outcome.Decoded? ==>
                Frames(d, [], old(Coming())) == Prefixed([outcome.message], Frames(d, [], Coming()))
      ensures outcome.Undecodable? ==>
                Frames(d, [], old(Coming())).messages == [] && Frames(d, [], old(Coming())).invalid
      ensures outcome.AtEnd? && !decodeError ==>
                Frames(d, [], old(Coming())) == Parse([], outcome.message, false)
    {
      var message: Bytes := [];
      while d(message).Need?
        invariant Valid() && !terminate
        invariant Frames(d, [], old(Coming())) == Frames(d, message, Coming())
        invariant message == [] ==> Coming() == old(Coming())
        invariant message != [] ==> !decodeError && |Coming()| < |old(Coming())|
        decreases |Coming()|
      {
        var ok, buf := Read(d(message).count);
        if !ok {
          return AtEnd(message);
        }
        message := message + buf;
      }
      return if d(message) == Complete then Decoded(message) else Undecodable;
    }

    /** One turn of the worker's loop: a message is dispatched, a decode error answered, or the end of file met. */
    method Turn(d: Decoder, decodesAtEnd: bool)
      requires d([]).Need? && Valid() && !terminate
      modifies this
      ensures Valid() && (terminate ==> stream == [] && arrivals == [])
      ensures old(decodeError) ==>
                terminate && decodeError && dispatched == old(dispatched) && errorReplies == old(errorReplies)
      ensures !old(decodeError) ==>
                var parse, rest := Frames(d, [], old(Coming())), Frames(d, [], Coming());
                && (terminate ==> !decodeError && parse.messages == [] && !parse.invalid && dispatched == old(dispatched)
                                  && errorReplies == old(errorReplies) && (decodesAtEnd ==> tail == Some(parse.message)))
                && (!terminate && decodeError ==> parse.messages == [] && parse.invalid && dispatched == old(dispatched)
                                                  && errorReplies == old(errorReplies) + 1 && stream == [])
                && (!terminate && !decodeError ==>
                      && |Coming()| < |old(Coming())| && errorReplies == old(errorReplies)
                      && old(dispatched) + parse.messages == dispatched + rest.messages
                      && parse.invalid == rest.invalid && parse.message == rest.message)
      ensures if terminate && decodesAtEnd then tail.Some? else tail == old(tail)
    {
      var outcome := DecodeMessage(d);
      match outcome {
        case Decoded(message) =>
          dispatched := dispatched + [message];
        case Undecodable =>
          stream := [];
          decodeError := true;
          errorReplies := errorReplies + 1;
        case AtEnd(message) =>
          if decodesAtEnd {
            tail := Some(message);
          } else {
            stream := [];
          }
      }
    }

    /**
     The worker of a session that is closed at last ends with the stream empty.
     It dispatches exactly the messages all the bytes frame, in order, and answers
     a decode error once if they stop being a message before their end.
     */
    method Worker(d: Decoder, decodesAtEnd: bool)
      requires d([]).Need? && Valid() && !terminate
      modifies this
      ensures terminate && stream == [] && arrivals == []
      ensures old(decodeError) ==> dispatched == old(dispatched) && errorReplies == old(errorReplies)
      ensures !old(decodeError) ==>
                var parse := Frames(d, [], old(Coming()));
                && dispatched == old(dispatched) + parse.messages
                && decodeError == parse.invalid
                && errorReplies == old(errorReplies) + (if parse.invalid then 1 else 0)
                && (decodesAtEnd && !parse.invalid ==> tail == Some(parse.message))
      ensures !decodesAtEnd ==> tail == old(tail)
    {
      ghost var parse := Frames(d, [], Coming());
      while !terminate
        invariant Valid() && (terminate ==> stream == [] && arrivals == [])
        invariant decodeError ==> old(decodeError) || parse.invalid
        invariant old(decodeError) ==> decodeError && dispatched == old(dispatched) && errorReplies == old(errorReplies)
        invariant !old(decodeError) && decodeError ==>
                    dispatched == old(dispatched) + parse.messages && errorReplies == old(errorReplies) + 1
        invariant !old(decodeError) && !decodeError && !terminate ==>
                    && errorReplies == old(errorReplies)
                    && old(dispatched) + parse.messages == dispatched + Frames(d, [], Coming()).messages
                    && parse.invalid == Frames(d, [], Coming()).invalid && parse.message == Frames(d, [], Coming()).message
        invariant !old(decodeError) && !decodeError && terminate ==>
                    && errorReplies == old(errorReplies) && !parse.invalid
                    && old(dispatched) + parse.messages == dispatched
        invariant !terminate || !decodesAtEnd ==> tail == old(tail)
        invariant terminate && decodesAtEnd ==> tail.Some?
        invariant !old(decodeError) && terminate && decodesAtEnd && !parse.invalid ==> tail == Some(parse.message)
        decreases !terminate, !decodeError, |Coming()|
      {
        Turn(d, decodesAtEnd);
      }
    }
  }

  lemma {:induction false} Receives(stream: Bytes, later: Bytes, n: nat, buf: Bytes)
    requires n <= |stream|
    ensures (buf + stream[..n]) + (stream[n..] + later) == buf + (stream + later)
  {
  }
}
