/**
 An RPC session as a protocol between feeders, whoever closes the session, and
 its worker thread, in any interleaving.  The stream buffer is a FIFO that
 accepts what fits; the two thread flags are cleared together by a wait.
 */
module RpcProtocol {
  import opened Options
  import opened RpcFraming

  const BUFFER_SIZE: nat := 1024

  /** Where the worker stands; `message` is what the decoder has, `got` what an unfinished read has. */
  datatype Pc =
    | Deciding(message: Bytes)
    | Receiving(message: Bytes, got: Bytes)
    | Waiting(message: Bytes, got: Bytes)
    | Woken(message: Bytes, got: Bytes)         // woken by the disconnect flag
    | EndOfFile(message: Bytes)                 // the read failed: terminate is set
    | Failed                                    // decoding failed
    | Ended                                     // end of one turn of the worker's loop
    | Done

  /**
   `accepted`, `given` and `heard` are histories: the bytes the stream took, the
   bytes of complete reads before a decode error, and what had been accepted
   when `terminate` was set.
   */
  datatype Session = Session(
    stream: Bytes,
    newData: bool,
    disconnect: bool,
    decodeError: bool,
    terminate: bool,
    notifying: nat,
    pc: Pc,
    dispatched: seq<Bytes>,
    tail: Option<Bytes>,
    accepted: Bytes,
    given: Bytes,
    heard: Bytes
  )

  /**
   The stream takes `bytes` from a feeder, the feeder sets its flag, the session
   is closed, or the worker moves.  `decodes` is what the decoder makes of a
   message cut short at the end of file; `resets` is false when the stream
   cannot be reset because a feeder is blocked on it.
   */
  datatype Step =
    | Send(bytes: Bytes)
    | Notify
    | Close
    | Work(decodes: bool, resets: bool)

  const OPENED: Session := Session([], false, false, false, false, 0, Ended, [], None, [], [], [])

  predicate Enabled(s: Session, step: Step) {
    match step
    case Send(bytes) => |s.stream| + |bytes| <= BUFFER_SIZE
    case Notify => s.notifying > 0
    case Close => true
    case Work(_, _) => s.pc != Done && (s.pc.Waiting? ==> s.newData || s.disconnect)
  }

  /** The decoder decides what to do with the bytes of its message. */
  function Decide(d: Decoder, s: Session): Session
    requires s.pc.Deciding?
  {
    match d(s.pc.message)
    case Need(_) => s.(pc := Receiving(s.pc.message, []))
    case Complete => s.(pc := Ended, dispatched := s.dispatched + [s.pc.message])
    case Invalid => s.(pc := Failed)
  }

  /** Takes what is there, up to the rest of the read; keeps nothing after a decode error. */
  function Receive(d: Decoder, s: Session): Session
    requires s.pc.Receiving? && d(s.pc.message).Need? && |s.pc.got| < d(s.pc.message).count
  {
    var missing: nat := d(s.pc.message).count - |s.pc.got|;
    var n: nat := if missing <= |s.stream| then missing else |s.stream|;
    var got := if s.decodeError then [] else s.pc.got + s.stream[..n];
    var t := s.(stream := s.stream[n..]);
    if |got| == d(s.pc.message).count
    then t.(pc := Deciding(s.pc.message + got), given := s.given + got)
    else t.(pc := Waiting(s.pc.message, got))
  }

  /** A wait returns with both flags cleared. */
  function Wake(s: Session): Session
    requires s.pc.Waiting?
  {
    s.(newData := false, disconnect := false,
       pc := if s.disconnect then Woken(s.pc.message, s.pc.got) else Receiving(s.pc.message, s.pc.got))
  }

  /** Closed: with the stream empty the session ends, else the flag is put back and reading goes on. */
  function CheckEnd(s: Session): Session
    requires s.pc.Woken?
  {
    if s.stream == [] then s.(terminate := true, heard := s.accepted, pc := EndOfFile(s.pc.message))
    else s.(disconnect := true, pc := Receiving(s.pc.message, s.pc.got))
  }

  function Fail(s: Session, resets: bool): Session {
    s.(pc := Ended, stream := if resets then [] else s.stream, decodeError := s.decodeError || !s.terminate)
  }

  function Worked(d: Decoder, s: Session, decodes: bool, resets: bool): Session
    requires Enabled(s, Work(decodes, resets)) && ReadsFit(d, s.pc)
  {
    match s.pc
    case Deciding(_) => Decide(d, s)
    case Receiving(_, _) => Receive(d, s)
    case Waiting(_, _) => Wake(s)
    case Woken(_, _) => CheckEnd(s)
    case EndOfFile(message) => if decodes then s.(pc := Ended, tail := Some(message)) else s.(pc := Failed)
    case Failed => Fail(s, resets)
    case Ended => s.(pc := if s.terminate then Done else Deciding([]))
  }

  function Next(d: Decoder, s: Session, step: Step): Session
    requires Enabled(s, step) && ReadsFit(d, s.pc)
  {
    match step
    case Send(bytes) => s.(stream := s.stream + bytes, accepted := s.accepted + bytes, notifying := s.notifying + 1)
    case Notify => s.(newData := true, notifying := s.notifying - 1)
    case Close => s.(disconnect := true)
    case Work(decodes, resets) => Worked(d, s, decodes, resets)
  }

  /** A read in progress asks for more than it has got. */
  predicate ReadsFit(d: Decoder, pc: Pc) {
    pc.Receiving? || pc.Waiting? || pc.Woken? ==> d(pc.message).Need? && |pc.got| < d(pc.message).count
  }

  // ----- the invariant -----

  function Message(pc: Pc): Bytes {
    if pc.Deciding? || pc.Receiving? || pc.Waiting? || pc.Woken? || pc.EndOfFile? then pc.message else []
  }

  function Got(pc: Pc): Bytes {
    if pc.Receiving? || pc.Waiting? || pc.Woken? then pc.got else []
  }

  /** Before a decode error every accepted byte is given to the decoder, in the read in progress, or in the stream. */
  ghost predicate Fifo(d: Decoder, s: Session)
    requires d([]).Need?
  {
    && s.accepted == s.given + Got(s.pc) + s.stream
    && StandsAt(d, s.given, s.dispatched, Message(s.pc))
  }

  ghost predicate Consistent(d: Decoder, s: Session)
    requires d([]).Need?
  {
    && ReadsFit(d, s.pc)
    && (!s.decodeError && !s.terminate && s.pc != Failed ==> Fifo(d, s))
    && (s.decodeError || (s.pc == Failed && !s.terminate) ==> s.given <= s.accepted && GaveUp(d, s.given, s.dispatched))
    && (s.decodeError ==> Message(s.pc) == [] && Got(s.pc) == [] && (s.pc == Failed ==> s.terminate))
    && (s.terminate ==> s.heard <= s.accepted && Frames(d, [], s.heard).messages == s.dispatched)
    && (s.pc.EndOfFile? || s.pc == Done ==> s.terminate)
    && (s.terminate ==> s.pc.EndOfFile? || s.pc == Failed || s.pc == Ended || s.pc == Done)
  }

  /** No lost wake-up: a worker about to block with bytes to read has a flag pending, or a feeder about to set one. */
  predicate WillWake(s: Session) {
    s.pc.Waiting? && !s.decodeError && s.stream != [] ==> s.newData || s.disconnect || s.notifying > 0
  }

  lemma {:induction false} OpenedIsConsistent(d: Decoder)
    requires d([]).Need?
    ensures Consistent(d, OPENED) && WillWake(OPENED)
  {
    StandsAtStart(d);
  }

  lemma {:induction false} FeedingKeepsConsistent(d: Decoder, s: Session, step: Step)
    requires d([]).Need? && Consistent(d, s) && Enabled(s, step) && !step.Work?
    ensures Consistent(d, Next(d, s, step))
  {
    if step.Send? && !s.decodeError && !s.terminate && s.pc != Failed {
      assert s.given + Got(s.pc) + s.stream + step.bytes == s.given + Got(s.pc) + (s.stream + step.bytes);
    }
  }

  lemma {:induction false} DecideKeepsConsistent(d: Decoder, s: Session)
    requires d([]).Need? && Consistent(d, s) && s.pc.Deciding?
    ensures Consistent(d, Decide(d, s))
  {
    var message := s.pc.message;
    if d(message) == Complete {
      MessageEnds(d, s.given, s.dispatched, message);
    } else if d(message) == Invalid {
      InvalidGivesUp(d, s.given, s.dispatched, message);
      assert s.given + [] + s.stream == s.given + s.stream;
    }
  }

  lemma {:induction false} ReceiveKeepsConsistent(d: Decoder, s: Session)
    requires d([]).Need? && Consistent(d, s) && s.pc.Receiving?
    ensures Consistent(d, Receive(d, s))
  {
    if !s.decodeError {
      var message := s.pc.message;
      var missing: nat := d(message).count - |s.pc.got|;
      var n: nat := if missing <= |s.stream| then missing else |s.stream|;
      var got := s.pc.got + s.stream[..n];
      assert s.stream == s.stream[..n] + s.stream[n..];
      assert s.given + s.pc.got + s.stream == s.given + got + s.stream[n..];
      if |got| == d(message).count {
        ReadMovesOn(d, s.given, s.dispatched, message, got);
        assert s.given + got + [] + s.stream[n..] == s.given + got + s.stream[n..];
      }
    }
  }

  lemma {:induction false} CheckEndKeepsConsistent(d: Decoder, s: Session)
    requires d([]).Need? && Consistent(d, s) && s.pc.Woken?
    ensures Consistent(d, CheckEnd(s))
  {
    if s.stream == [] {
      if s.decodeError {
        GaveUpStays(d, s.given, s.dispatched, s.accepted);
      } else {
        StarvedStops(d, s.given, s.dispatched, s.pc.message, s.pc.got);
        assert s.accepted == s.given + s.pc.got;
      }
    }
  }

  lemma {:induction false} StepKeepsConsistent(d: Decoder, s: Session, step: Step)
    requires d([]).Need? && Consistent(d, s) && Enabled(s, step)
    ensures Consistent(d, Next(d, s, step))
  {
    if !step.Work? {
      FeedingKeepsConsistent(d, s, step);
    } else if s.pc.Deciding? {
      DecideKeepsConsistent(d, s);
    } else if s.pc.Receiving? {
      ReceiveKeepsConsistent(d, s);
    } else if s.pc.Woken? {
      CheckEndKeepsConsistent(d, s);
    }
  }

  lemma {:induction false} StepKeepsWakeup(d: Decoder, s: Session, step: Step)
    requires d([]).Need? && Consistent(d, s) && WillWake(s) && Enabled(s, step)
    ensures WillWake(Next(d, s, step))
  {
  }

  /**
   The worker goes to wait with bytes left in the stream exactly when it is in
   decode-error mode and found more than the read asked for: it throws away one
   read's worth and sleeps until the next flag.
   */
  lemma {:induction false} SleepsOnBytesExactlyWhen(d: Decoder, s: Session)
    requires d([]).Need? && Consistent(d, s) && s.pc.Receiving?
    ensures var t := Receive(d, s);
            (t.pc.Waiting? && t.stream != []) == (s.decodeError && |s.stream| > d(s.pc.message).count)
  {
    var missing: nat := d(s.pc.message).count - |s.pc.got|;
    assert s.decodeError ==> s.pc.got == [];
  }

  /**
   A message that cannot be decoded empties the stream, unless a feeder is
   blocked on it, and sets the error unless the session is ending; nothing else
   sets or clears the error, and it lasts.
   */
  lemma {:induction false} DecodeErrorEmpties(d: Decoder, s: Session, step: Step)
    requires d([]).Need? && Consistent(d, s) && Enabled(s, step)
    ensures var t := Next(d, s, step);
            && (t.decodeError <==> s.decodeError || (step.Work? && s.pc == Failed && !s.terminate))
            && (step.Work? && s.pc == Failed ==> t.pc == Ended && t.stream == if step.resets then [] else s.stream)
            && (step.Work? && s.pc == Failed ==> t.dispatched == s.dispatched && t.tail == s.tail)
  {
  }

  // ----- whole runs -----

  predicate Follows(d: Decoder, s: Session, step: Step, t: Session) {
    Enabled(s, step) && ReadsFit(d, s.pc) && t == Next(d, s, step)
  }

  /** Each session of `states` follows from the one before by the matching step, from an opened session. */
  ghost predicate IsRun(d: Decoder, states: seq<Session>, steps: seq<Step>) {
    && |states| == |steps| + 1 && states[0] == OPENED
    && forall i :: 0 <= i < |steps| ==> Follows(d, states[i], steps[i], states[i + 1])
  }

  lemma {:induction false} RunIsConsistent(d: Decoder, states: seq<Session>, steps: seq<Step>, i: nat)
    requires d([]).Need? && IsRun(d, states, steps) && i < |states|
    ensures Consistent(d, states[i]) && WillWake(states[i])
  {
    if i == 0 {
      OpenedIsConsistent(d);
    } else {
      RunIsConsistent(d, states, steps, i - 1);
      assert Follows(d, states[i - 1], steps[i - 1], states[i - 1 + 1]);
      StepKeepsConsistent(d, states[i - 1], steps[i - 1]);
      StepKeepsWakeup(d, states[i - 1], steps[i - 1]);
    }
  }

  /**
   For every interleaving: before a decode error the bytes given to the decoder
   are a prefix of the bytes accepted, the messages dispatched are the ones the
   stream as a whole frames so far, and no wake-up is lost.
   */
  lemma {:induction false} EveryRunIsFifo(d: Decoder, states: seq<Session>, steps: seq<Step>, i: nat)
    requires d([]).Need? && IsRun(d, states, steps) && i < |states|
    ensures WillWake(states[i])
    ensures var s := states[i];
            !s.decodeError && !s.terminate && s.pc != Failed ==>
              && s.accepted == s.given + Got(s.pc) + s.stream
              && s.dispatched <= Frames(d, [], s.accepted).messages
  {
    RunIsConsistent(d, states, steps, i);
    var s := states[i];
    if !s.decodeError && !s.terminate && s.pc != Failed {
      var rest := Got(s.pc) + s.stream;
      assert s.accepted == s.given + rest;
      DoneIsPrefix(d, s.given, s.dispatched, Message(s.pc), rest);
    }
  }

  // ----- a run that ends asleep with bytes in the stream -----

  /** A run from an opened session that has come to `s`. */
  ghost predicate Comes(d: Decoder, states: seq<Session>, steps: seq<Step>, s: Session) {
    IsRun(d, states, steps) && states[|steps|] == s
  }

  lemma {:induction false} ComesOn(d: Decoder, states: seq<Session>, steps: seq<Step>, s: Session, step: Step, t: Session)
    returns (more: seq<Session>, taken: seq<Step>)
    requires Comes(d, states, steps, s) && Follows(d, s, step, t)
    ensures Comes(d, more, taken, t)
  {
    more, taken := states + [t], steps + [step];
    forall i | 0 <= i < |taken|
      ensures Follows(d, more[i], taken[i], more[i + 1])
    {
      if i < |steps| {
        assert Follows(d, states[i], steps[i], states[i + 1]);
      }
    }
  }

  /** A decoder that has read only a length: a message of length zero is no message, any other needs more bytes. */
  function ReadsLength(message: Bytes): Verdict {
    if message != [] && message[0] == 0 then Invalid else Need(1)
  }

  /** A length of zero is fed and refused: the session is in decode-error mode and its worker about to read again. */
  lemma {:induction false} ByteIsRefused() returns (states: seq<Session>, steps: seq<Step>)
    ensures Comes(ReadsLength, states, steps,
                  Session([], false, false, true, false, 1, Receiving([], []), [], None, [0], [0], []))
  {
    var d := ReadsLength;
    states, steps := [OPENED], [];
    var s := OPENED.(pc := Deciding([]));
    states, steps := ComesOn(d, states, steps, OPENED, Work(true, true), s);
    var t := s.(pc := Receiving([], []));
    states, steps := ComesOn(d, states, steps, s, Work(true, true), t);
    s := t.(stream := [0], accepted := [0], notifying := 1);
    assert [] + [0] == [0];
    states, steps := ComesOn(d, states, steps, t, Send([0]), s);
    t := s.(stream := [], pc := Deciding([0]), given := [0]);
    assert [0][..1] == [0] && [0][1..] == [];
    states, steps := ComesOn(d, states, steps, s, Work(true, true), t);
    s := t.(pc := Failed);
    states, steps := ComesOn(d, states, steps, t, Work(true, true), s);
    t := s.(pc := Ended, decodeError := true);
    states, steps := ComesOn(d, states, steps, s, Work(true, true), t);
    s := t.(pc := Deciding([]));
    states, steps := ComesOn(d, states, steps, t, Work(true, true), s);
    t := s.(pc := Receiving([], []));
    states, steps := ComesOn(d, states, steps, s, Work(true, true), t);
  }

  /**
   The sleep is reachable: after a decode error three bytes are sent and every
   feeder has raised its flag, and the worker waits with a byte in the stream
   and nothing to wake it.
   */
  lemma {:induction false} SleepIsReachable() returns (states: seq<Session>, steps: seq<Step>, s: Session)
    ensures Comes(ReadsLength, states, steps, s)
    ensures s.pc.Waiting? && s.decodeError && s.stream == [4]
    ensures !s.newData && !s.disconnect && s.notifying == 0 && !Enabled(s, Work(true, true))
  {
    var d := ReadsLength;
    states, steps := ByteIsRefused();
    s := Session([], false, false, true, false, 1, Receiving([], []), [], None, [0], [0], []);
    var t := s.(stream := [2, 3, 4], accepted := [0, 2, 3, 4], notifying := 2);
    states, steps := ComesOn(d, states, steps, s, Send([2, 3, 4]), t);
    s := t.(newData := true, notifying := 1);
    states, steps := ComesOn(d, states, steps, t, Notify, s);
    t := s.(notifying := 0);
    states, steps := ComesOn(d, states, steps, s, Notify, t);
    s := t.(stream := [3, 4], pc := Waiting([], []));
    states, steps := ComesOn(d, states, steps, t, Work(true, true), s);
    t := s.(newData := false, pc := Receiving([], []));
    states, steps := ComesOn(d, states, steps, s, Work(true, true), t);
    s := t.(stream := [4], pc := Waiting([], []));
    states, steps := ComesOn(d, states, steps, t, Work(true, true), s);
  }

  /** `terminate` is set only with the stream empty, and then never cleared nor any further message dispatched. */
  lemma {:induction false} TerminateMeansDrained(d: Decoder, s: Session, step: Step)
    requires d([]).Need? && Consistent(d, s) && Enabled(s, step)
    ensures var t := Next(d, s, step);
            && (t.terminate && !s.terminate ==> s.stream == [] && t.heard == s.accepted && t.dispatched == s.dispatched)
            && (s.terminate ==> t.terminate && t.heard == s.heard && t.dispatched == s.dispatched)
  {
  }

  lemma {:induction false} StepAccepts(d: Decoder, s: Session, step: Step)
    requires Enabled(s, step) && ReadsFit(d, s.pc)
    ensures Next(d, s, step).accepted == s.accepted + if step.Send? then step.bytes else []
  {
  }

  /** With nothing sent any more, the accepted bytes stay what they are. */
  lemma {:induction false} NothingMoreAccepted(d: Decoder, states: seq<Session>, steps: seq<Step>, m: nat, i: nat)
    requires d([]).Need? && IsRun(d, states, steps) && m <= i < |states|
    requires forall k :: m <= k < |steps| ==> !steps[k].Send?
    requires !states[m].terminate
    ensures states[i].accepted == states[m].accepted
    ensures states[i].terminate ==> states[i].heard == states[m].accepted
  {
    if i > m {
      NothingMoreAccepted(d, states, steps, m, i - 1);
      RunIsConsistent(d, states, steps, i - 1);
      assert Follows(d, states[i - 1], steps[i - 1], states[i - 1 + 1]);
      StepAccepts(d, states[i - 1], steps[i - 1]);
      TerminateMeansDrained(d, states[i - 1], steps[i - 1]);
    }
  }

  /**
   Once nothing more is sent after step `m`, a worker that has ended has
   dispatched exactly the messages framed by all the accepted bytes, with or
   without a decode error.
   */
  lemma {:induction false} EveryFedMessageIsDispatched(d: Decoder, states: seq<Session>, steps: seq<Step>, m: nat)
    requires d([]).Need? && IsRun(d, states, steps) && m < |states|
    requires forall k :: m <= k < |steps| ==> !steps[k].Send?
    requires !states[m].terminate && states[|steps|].pc == Done
    ensures states[|steps|].dispatched == Frames(d, [], states[m].accepted).messages
  {
    NothingMoreAccepted(d, states, steps, m, |steps|);
    RunIsConsistent(d, states, steps, |steps|);
  }

  // ----- after close -----

  /** The disconnect flag is pending, or the worker has already seen it. */
  predicate Closed(s: Session) {
    s.disconnect || s.pc.Woken? || s.terminate
  }

  /** Failing outside the end of file goes round once more, in decode-error mode. */
  function Turns(s: Session): nat {
    if s.decodeError || s.terminate then 0 else 1
  }

  /** How far the worker is from consuming bytes or ending: a read of an empty stream is followed by a wait. */
  function Rank(s: Session): nat {
    match s.pc
    case Deciding(message) => if message == [] then 9 else 11
    case Receiving(_, _) => if s.stream == [] then 7 else 4
    case Waiting(_, _) => 6
    case Woken(_, _) => 5
    case EndOfFile(_) => 4
    case Failed => 3
    case Ended => if s.terminate then 2 else 10
    case Done => 0
  }

  predicate Closer(t: Session, s: Session) {
    || |t.stream| < |s.stream|
    || (|t.stream| == |s.stream| && Turns(t) < Turns(s))
    || (|t.stream| == |s.stream| && Turns(t) == Turns(s) && Rank(t) < Rank(s))
  }

  /** Once closed, the worker can always move, stays closed, and comes closer to its end, decode error or not. */
  lemma {:induction false} ClosedWorkerAdvances(d: Decoder, s: Session, decodes: bool, resets: bool)
    requires d([]).Need? && Consistent(d, s) && Closed(s) && s.pc != Done
    ensures Enabled(s, Work(decodes, resets))
    ensures var t := Worked(d, s, decodes, resets); Closed(t) && Closer(t, s) && t.accepted == s.accepted
  {
  }

  /** The worker running alone; `oracle` says what each end-of-file decode and each reset come to. */
  ghost function Alone(d: Decoder, s: Session, oracle: Session -> (bool, bool)): (t: Session)
    requires d([]).Need? && Consistent(d, s) && Closed(s)
    ensures t.pc == Done && Consistent(d, t) && t.accepted == s.accepted
    ensures t.heard == if s.terminate then s.heard else s.accepted
    ensures t.dispatched == Frames(d, [], t.heard).messages
    decreases |s.stream|, Turns(s), Rank(s)
  {
    if s.pc == Done then s else
      var (decodes, resets) := oracle(s);
      ClosedWorkerAdvances(d, s, decodes, resets);
      StepKeepsConsistent(d, s, Work(decodes, resets));
      TerminateMeansDrained(d, s, Work(decodes, resets));
      var next := Worked(d, s, decodes, resets);
      Alone(d, next, oracle)
  }
}
