/**
 The routing rule shared by the GUI (events to view ports) and the view
 dispatcher (events to views).  Both keep the set of held keys and a latched
 target: the first key down latches whatever is in front, presses reach the
 target only while it is in front, and releases follow the target.
 */
module InputLatch {
  import opened Options
  import opened Keys

  datatype Latch<T> = Latch(held: set<Key>, target: Option<T>)

  datatype Delivery<T> = Delivery(to: T, event: Event)

  /**
   What can happen to a latch: an event arrives while `front` is shown, a
   target is unregistered, or (view dispatcher only) an event is taken off the
   queue by the loop that waits for the keys to come up after a stop.
   */
  datatype Step<T> =
    | Arrive(front: Option<T>, event: Event)
    | Forget(gone: T)
    | Swallow(event: Event)

  function Idle<T>(): Latch<T> {
    Latch({}, None)
  }

  function TargetAfter<T>(l: Latch<T>, front: Option<T>, e: Event): Option<T> {
    if e.kind == Press && l.held <= {e.key} then front else l.target
  }

  /** Who gets the event, if anyone. */
  function Receiver<T(==)>(l: Latch<T>, front: Option<T>, e: Event): Option<T> {
    var target := TargetAfter(l, front, e);
    match e.kind
    case Release => target
    case Press => if target == front then target else None
    case _ => if e.key in l.held && target == front then target else None
  }

  function Next<T(==)>(l: Latch<T>, s: Step<T>): Latch<T> {
    match s
    case Arrive(front, e) => Latch(HeldAfter(l.held, e), TargetAfter(l, front, e))
    case Forget(gone) => if l.target == Some(gone) then l.(target := None) else l
    case Swallow(e) => l.(held := HeldAfter(l.held, e))
  }

  function Emits<T(==)>(l: Latch<T>, s: Step<T>): seq<Delivery<T>> {
    if s.Arrive? && Receiver(l, s.front, s.event).Some?
    then [Delivery(Receiver(l, s.front, s.event).value, s.event)]
    else []
  }

  function Run<T(==)>(l: Latch<T>, steps: seq<Step<T>>): Latch<T> {
    if steps == [] then l else Next(Run(l, steps[..|steps| - 1]), steps[|steps| - 1])
  }

  function Log<T(==)>(l: Latch<T>, steps: seq<Step<T>>): seq<Delivery<T>> {
    if steps == [] then [] else
      var before := steps[..|steps| - 1];
      Log(l, before) + Emits(Run(l, before), steps[|steps| - 1])
  }

  /** The events one target received, in order. */
  function Stream<T(==)>(log: seq<Delivery<T>>, t: T): seq<Event> {
    if log == [] then [] else
      var last := log[|log| - 1];
      Stream(log[..|log| - 1], t) + if last.to == t then [last.event] else []
  }

  /** The events fed to the latch. */
  function Inputs<T>(steps: seq<Step<T>>): seq<Event> {
    if steps == [] then [] else
      var last := steps[|steps| - 1];
      Inputs(steps[..|steps| - 1]) + if last.Forget? then [] else [last.event]
  }

  /** `t` stays registered and the run loop is not stopped. */
  predicate Keeps<T(==)>(steps: seq<Step<T>>, t: T) {
    forall s | s in steps :: s != Forget(t) && !s.Swallow?
  }

  lemma {:induction false} StreamPush<T>(log: seq<Delivery<T>>, d: Delivery<T>, t: T)
    ensures d.to == t ==> Stream(log + [d], t) == Stream(log, t) + [d.event]
    ensures d.to != t ==> Stream(log + [d], t) == Stream(log, t)
  {
    assert (log + [d])[..|log|] == log;
  }

  lemma {:induction false} RunPush<T>(l: Latch<T>, steps: seq<Step<T>>, s: Step<T>)
    ensures Run(l, steps + [s]) == Next(Run(l, steps), s)
    ensures Log(l, steps + [s]) == Log(l, steps) + Emits(Run(l, steps), s)
    ensures Emits(Run(l, steps), s) == [] ==> Log(l, steps + [s]) == Log(l, steps)
    ensures s.Forget? ==> Inputs(steps + [s]) == Inputs(steps)
    ensures !s.Forget? ==> Inputs(steps + [s]) == Inputs(steps) + [s.event]
  {
    assert (steps + [s])[..|steps|] == steps;
  }

  /** The mask is exactly the set of keys the incoming stream has down. */
  lemma {:induction false} HeldIsKeysDown<T>(steps: seq<Step<T>>)
    ensures Run(Idle<T>(), steps).held == KeysDown(Inputs(steps))
  {
    if steps != [] {
      var before, s := steps[..|steps| - 1], steps[|steps| - 1];
      assert steps == before + [s];
      HeldIsKeysDown(before);
      RunPush(Idle<T>(), before, s);
      if !s.Forget? {
        KeysDownPush(Inputs(before), s.event);
      }
    }
  }

  /** What the latch guarantees to a target `t` that has received `out`. */
  ghost predicate Guards<T>(l: Latch<T>, out: seq<Event>, t: T) {
    && Complementary(out)
    && KeysDown(out) <= l.held
    && (KeysDown(out) != {} ==> l.target == Some(t))
  }

  lemma {:induction false} ArriveKeepsGuard<T>(l: Latch<T>, front: Option<T>, e: Event, out: seq<Event>, t: T)
    requires Guards(l, out, t) && (e.kind == Press ==> e.key !in l.held)
    ensures Receiver(l, front, e) == Some(t) ==> Guards(Next(l, Arrive(front, e)), out + [e], t)
    ensures Receiver(l, front, e) != Some(t) ==> Guards(Next(l, Arrive(front, e)), out, t)
  {
    KeysDownPush(out, e);
    ComplementaryPush(out, e);
  }

  /**
   The latch invariant.  On a complementary input, whatever happens to the
   front, a target that stays registered never sees a key pressed twice without
   a release, has no key down that is not held, and has a key down only while
   it is the latched target.
   */
  lemma {:induction false} NothingDownButHeld<T>(steps: seq<Step<T>>, t: T)
    requires Complementary(Inputs(steps)) && Keeps(steps, t)
    ensures Guards(Run(Idle<T>(), steps), Stream(Log(Idle<T>(), steps), t), t)
  {
    if steps != [] {
      var before, s := steps[..|steps| - 1], steps[|steps| - 1];
      assert steps == before + [s];
      RunPush(Idle<T>(), before, s);
      assert s in steps;
      var l, log := Run(Idle<T>(), before), Log(Idle<T>(), before);
      if s.Arrive? {
        HeldIsKeysDown(before);
        ComplementaryPush(Inputs(before), s.event);
        NothingDownButHeld(before, t);
        ArriveKeepsGuard(l, s.front, s.event, Stream(log, t), t);
        if Receiver(l, s.front, s.event).Some? {
          StreamPush(log, Emits(l, s)[0], t);
        }
      } else {
        NothingDownButHeld(before, t);
      }
    }
  }

  predicate AllTo<T(==)>(log: seq<Delivery<T>>, front: Option<T>) {
    forall i :: 0 <= i < |log| ==> Some(log[i].to) == front
  }

  /** What was in front when `k` was last pressed. */
  function FrontAtPress<T>(steps: seq<Step<T>>, k: Key): Option<T> {
    if steps == [] then None else
      var last := steps[|steps| - 1];
      if last.Arrive? && last.event.kind == Press && last.event.key == k then last.front
      else FrontAtPress(steps[..|steps| - 1], k)
  }

  /** While `t` is latched, it has the held key `k` down exactly if `k` was pressed while `t` was in front. */
  ghost predicate DownIsOwn<T>(l: Latch<T>, steps: seq<Step<T>>, out: seq<Event>, t: T, k: Key) {
    l.target == Some(t) && k in l.held ==> (k in KeysDown(out) <==> FrontAtPress(steps, k) == Some(t))
  }

  lemma {:induction false} FrontAtPressPush<T>(steps: seq<Step<T>>, s: Step<T>, k: Key)
    ensures FrontAtPress(steps + [s], k)
            == if s.Arrive? && s.event.kind == Press && s.event.key == k then s.front else FrontAtPress(steps, k)
  {
    assert (steps + [s])[..|steps|] == steps;
  }

  lemma {:induction false} ArriveKeepsOwn<T>(l: Latch<T>, steps: seq<Step<T>>, out: seq<Event>, t: T, front: Option<T>,
                                             e: Event, k: Key)
    requires Guards(l, out, t) && DownIsOwn(l, steps, out, t, k) && (e.kind == Press ==> e.key !in l.held)
    ensures var s := Arrive(front, e);
            DownIsOwn(Next(l, s), steps + [s], if Receiver(l, front, e) == Some(t) then out + [e] else out, t, k)
  {
    KeysDownPush(out, e);
    FrontAtPressPush(steps, Arrive(front, e), k);
  }

  /** One more step gives a target its event or nothing. */
  lemma {:induction false} LogStreamPush<T>(steps: seq<Step<T>>, s: Step<T>, t: T)
    ensures Stream(Log(Idle<T>(), steps + [s]), t)
            == if s.Arrive? && Receiver(Run(Idle<T>(), steps), s.front, s.event) == Some(t)
               then Stream(Log(Idle<T>(), steps), t) + [s.event] else Stream(Log(Idle<T>(), steps), t)
  {
    RunPush(Idle<T>(), steps, s);
    var l := Run(Idle<T>(), steps);
    if s.Arrive? && Receiver(l, s.front, s.event).Some? {
      StreamPush(Log(Idle<T>(), steps), Emits(l, s)[0], t);
    }
  }

  /** What a run of the latch establishes of a target and a key, as far as one more step needs it. */
  lemma {:induction false} OwnStep<T>(before: seq<Step<T>>, s: Step<T>, t: T, k: Key)
    requires Complementary(Inputs(before + [s])) && Keeps(before + [s], t)
    requires DownIsOwn(Run(Idle<T>(), before), before, Stream(Log(Idle<T>(), before), t), t, k)
    ensures DownIsOwn(Run(Idle<T>(), before + [s]), before + [s], Stream(Log(Idle<T>(), before + [s]), t), t, k)
  {
    assert s in before + [s] && forall b | b in before :: b in before + [s];
    InputsPush(before, s);
    HeldIsKeysDown(before);
    NothingDownButHeld(before, t);
    RunPush(Idle<T>(), before, s);
    LogStreamPush(before, s, t);
    if s.Arrive? {
      ArriveKeepsOwn(Run(Idle<T>(), before), before, Stream(Log(Idle<T>(), before), t), t, s.front, s.event, k);
    } else {
      FrontAtPressPush(before, s, k);
    }
  }

  lemma {:induction false} RunKeepsOwn<T>(steps: seq<Step<T>>, t: T, k: Key)
    requires Complementary(Inputs(steps)) && Keeps(steps, t)
    ensures DownIsOwn(Run(Idle<T>(), steps), steps, Stream(Log(Idle<T>(), steps), t), t, k)
  {
    if steps != [] {
      var before, s := steps[..|steps| - 1], steps[|steps| - 1];
      assert steps == before + [s];
      InputsPush(before, s);
      RunKeepsOwn(before, t, k);
      OwnStep(before, s, t, k);
    }
  }

  /**
   A release that reaches a target clears a key the target has down exactly when
   the key is held and the target was in front at its last press.  Otherwise it
   is the release of a press the target never saw: one made while something else
   was in front, or one from before the latch kept count.
   */
  lemma {:induction false} ReleaseHasItsPressExactlyWhen<T>(steps: seq<Step<T>>, t: T, front: Option<T>, e: Event)
    requires Complementary(Inputs(steps)) && Keeps(steps, t)
    requires e.kind == Release && Receiver(Run(Idle<T>(), steps), front, e) == Some(t)
    ensures e.key in KeysDown(Stream(Log(Idle<T>(), steps), t))
       <==> e.key in Run(Idle<T>(), steps).held && FrontAtPress(steps, e.key) == Some(t)
  {
    RunKeepsOwn(steps, t, e.key);
    NothingDownButHeld(steps, t);
  }

  /** What was in front at the last press made with no other key down, unless it has been unregistered since. */
  ghost function SessionFront<T>(steps: seq<Step<T>>): Option<T> {
    if steps == [] then None else
      var before := steps[..|steps| - 1];
      match steps[|steps| - 1]
      case Arrive(front, e) =>
        if e.kind == Press && KeysDown(Inputs(before)) <= {e.key} then front else SessionFront(before)
      case Forget(gone) => if SessionFront(before) == Some(gone) then None else SessionFront(before)
      case Swallow(_) => SessionFront(before)
  }

  lemma {:induction false} TargetIsSessionFront<T>(steps: seq<Step<T>>)
    ensures Run(Idle<T>(), steps).target == SessionFront(steps)
  {
    if steps != [] {
      TargetIsSessionFront(steps[..|steps| - 1]);
      HeldIsKeysDown(steps[..|steps| - 1]);
    }
  }

  /**
   Who gets an event, told by the history alone: a press, what is in front, if
   no other key is down or it is the session's own front; a release, the
   session's front; anything else, the session's front while it is in front and
   the key is down.
   */
  lemma {:induction false} DeliveredExactlyWhen<T>(steps: seq<Step<T>>, front: Option<T>, e: Event, t: T)
    ensures Receiver(Run(Idle<T>(), steps), front, e) == Some(t)
       <==> match e.kind
            case Press => front == Some(t) && (KeysDown(Inputs(steps)) <= {e.key} || SessionFront(steps) == Some(t))
            case Release => SessionFront(steps) == Some(t)
            case Short => e.key in KeysDown(Inputs(steps)) && front == Some(t) == SessionFront(steps)
            case Long => e.key in KeysDown(Inputs(steps)) && front == Some(t) == SessionFront(steps)
            case Repeat => e.key in KeysDown(Inputs(steps)) && front == Some(t) == SessionFront(steps)
  {
    HeldIsKeysDown(steps);
    TargetIsSessionFront(steps);
  }

  /** A key is held after every step but perhaps the last. */
  predicate HeldThroughout<T(==)>(l: Latch<T>, steps: seq<Step<T>>) {
    |steps| <= 1 ||
    var before := steps[..|steps| - 1];
    Run(l, before).held != {} && HeldThroughout(l, before)
  }

  /** While a key is held, a press of another key does not move the latch. */
  lemma {:induction false} SessionStep<T>(l: Latch<T>, s: Step<T>, front: Option<T>)
    requires l.target == None || l.target == front
    requires l.held != {} && (s.Arrive? && s.event.kind == Press ==> s.event.key !in l.held)
    ensures Next(l, s).target == None || Next(l, s).target == front
    ensures AllTo(Emits(l, s), front)
  {
    if s.Arrive? {
      assert TargetAfter(l, s.front, s.event) == l.target;
    }
  }

  /** A run from rest that has stayed in one press session: one target, and the input's keys held. */
  ghost predicate InSession<T>(l: Latch<T>, steps: seq<Step<T>>, front: Option<T>) {
    && AllTo(Log(l, steps), front)
    && (Run(l, steps).target == None || Run(l, steps).target == front)
    && Run(l, steps).held == KeysDown(Inputs(steps))
  }

  lemma {:induction false} SessionOpens<T>(l: Latch<T>, s: Step<T>)
    requires l.held == {} && s.Arrive? && s.event.kind == Press && Complementary(Inputs([s]))
    ensures InSession(l, [s], s.front)
  {
    assert [] + [s] == [s];
    RunPush(l, [], s);
    InputsPush([], s);
  }

  lemma {:induction false} SessionPush<T>(l: Latch<T>, before: seq<Step<T>>, s: Step<T>, front: Option<T>)
    requires InSession(l, before, front) && Run(l, before).held != {} && Complementary(Inputs(before + [s]))
    ensures InSession(l, before + [s], front)
  {
    RunPush(l, before, s);
    InputsPush(before, s);
    SessionStep(Run(l, before), s, front);
  }

  /** Everything a press session delivers goes to the target its first press latched. */
  lemma {:induction false} OneTargetPerSession<T>(l: Latch<T>, steps: seq<Step<T>>)
    requires l.held == {} && steps != [] && steps[0].Arrive? && steps[0].event.kind == Press
    requires Complementary(Inputs(steps))
    requires HeldThroughout(l, steps)
    ensures InSession(l, steps, steps[0].front)
  {
    var before, s := steps[..|steps| - 1], steps[|steps| - 1];
    assert steps == before + [s];
    if before == [] {
      assert steps == [s];
      SessionOpens(l, s);
    } else {
      assert before[0] == steps[0];
      InputsPush(before, s);
      OneTargetPerSession(l, before);
      SessionPush(l, before, s, steps[0].front);
    }
  }

  /** What one more step does to the input stream and the keys it has down. */
  lemma {:induction false} InputsPush<T>(before: seq<Step<T>>, s: Step<T>)
    requires Complementary(Inputs(before + [s]))
    ensures Complementary(Inputs(before))
    ensures !s.Forget? ==> KeysDown(Inputs(before + [s])) == HeldAfter(KeysDown(Inputs(before)), s.event)
    ensures s.Forget? ==> KeysDown(Inputs(before + [s])) == KeysDown(Inputs(before))
    ensures !s.Forget? && s.event.kind == Press ==> s.event.key !in KeysDown(Inputs(before))
    ensures before == [] ==> KeysDown(Inputs(before)) == {}
  {
    RunPush(Idle<T>(), before, s);
    if !s.Forget? {
      KeysDownPush(Inputs(before), s.event);
      ComplementaryPush(Inputs(before), s.event);
    }
  }

  /** Events taken off the queue after a stop are logged nowhere. */
  lemma {:induction false} SwallowedLogsNothing<T>(steps: seq<Step<T>>, drained: seq<Step<T>>)
    requires forall i :: 0 <= i < |drained| ==> drained[i].Swallow?
    ensures Log(Idle<T>(), steps + drained) == Log(Idle<T>(), steps)
  {
    if drained == [] {
      assert steps + drained == steps;
    } else {
      var most, s := drained[..|drained| - 1], drained[|drained| - 1];
      SwallowedLogsNothing(steps, most);
      assert steps + drained == (steps + most) + [s];
      RunPush(Idle<T>(), steps + most, s);
    }
  }

  /**
   Events taken off the queue after a stop reach nobody: whatever is swallowed,
   each target is left with exactly the keys it had down when the loop stopped.
   */
  lemma {:induction false} StopStrandsKeys<T>(steps: seq<Step<T>>, drained: seq<Step<T>>, t: T)
    requires forall i :: 0 <= i < |drained| ==> drained[i].Swallow?
    ensures Stream(Log(Idle<T>(), steps + drained), t) == Stream(Log(Idle<T>(), steps), t)
  {
    SwallowedLogsNothing(steps, drained);
  }
}
