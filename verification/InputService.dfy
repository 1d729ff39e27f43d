/**
 The input service: debounced pin levels and a periodic press timer become
 Press, Short, Long, Repeat and Release events.
 */
module InputService {
  import opened Keys

  const LONG_PRESS_COUNTS: nat := 2

  /**
   One pin: its level, whether its timer runs, and the two counters kept with
   it.  Sequence numbers are counted without bound here; the firmware stores
   them in 32 bits, see InputDevice.
   */
  datatype Pin = Pin(down: bool, timer: bool, pressCounter: nat, sequence: nat)

  datatype Service = Service(counter: nat, pins: map<Key, Pin>)

  /** The loop sees a level on a pin, or the timer of a pin fires. */
  datatype Step = Level(key: Key, level: bool) | Fire(key: Key)

  predicate Total(s: Service) {
    forall k: Key :: k in s.pins
  }

  /** At start a pin takes the level it has; its timer is not running. */
  function Boot(held: set<Key>): (s: Service)
    ensures Total(s)
  {
    Service(0, map k: Key | true :: Pin(k in held, false, 0, 0))
  }

  function Changed(s: Service, k: Key, level: bool): Service
    requires Total(s)
  {
    if level then
      var n := s.counter + 1;
      Service(n, s.pins[k := Pin(true, true, s.pins[k].pressCounter, n)])
    else
      s.(pins := s.pins[k := s.pins[k].(down := false, timer := false, pressCounter := 0)])
  }

  function Next(s: Service, step: Step): (t: Service)
    requires Total(s)
    ensures Total(t)
  {
    var pin := s.pins[step.key];
    match step
    case Level(k, level) => if pin.down == level then s else Changed(s, k, level)
    case Fire(k) =>
      if pin.timer && pin.pressCounter < LONG_PRESS_COUNTS
      then s.(pins := s.pins[k := pin.(pressCounter := pin.pressCounter + 1)])
      else s
  }

  /** The events one step publishes. */
  function Publishes(s: Service, step: Step): seq<Event>
    requires Total(s)
  {
    var pin := s.pins[step.key];
    match step
    case Level(k, level) =>
      if pin.down == level then []
      else if level then [Event(s.counter + 1, k, Press)]
      else (if pin.pressCounter < LONG_PRESS_COUNTS then [Event(pin.sequence, k, Short)] else [])
           + [Event(pin.sequence, k, Release)]
    case Fire(k) =>
      if !pin.timer || pin.pressCounter + 1 < LONG_PRESS_COUNTS then []
      else if pin.pressCounter + 1 == LONG_PRESS_COUNTS then [Event(pin.sequence, k, Long)]
      else [Event(pin.sequence, k, Repeat)]
  }

  function ServiceRun(held: set<Key>, steps: seq<Step>): (s: Service)
    ensures Total(s)
  {
    if steps == [] then Boot(held) else Next(ServiceRun(held, steps[..|steps| - 1]), steps[|steps| - 1])
  }

  function Trace(held: set<Key>, steps: seq<Step>): seq<Event> {
    if steps == [] then [] else
      var before := steps[..|steps| - 1];
      Trace(held, before) + Publishes(ServiceRun(held, before), steps[|steps| - 1])
  }

  // ---------------------------------------------------------------- what the trace looks like

  /** One press of a key: how often its timer fired, and the how-manieth press of any key it was. */
  datatype Hold = Hold(fires: nat, ordinal: nat)

  function Repeats(k: Key, sequence: nat, n: nat): seq<Event> {
    if n == 0 then [] else Repeats(k, sequence, n - 1) + [Event(sequence, k, Repeat)]
  }

  /** Press, and Long with its Repeats once the timer has fired twice. */
  function Opened(k: Key, h: Hold): seq<Event> {
    var sequence := h.ordinal;
    [Event(sequence, k, Press)]
    + if h.fires < 2 then [] else [Event(sequence, k, Long)] + Repeats(k, sequence, h.fires - 2)
  }

  /** Short if there was no Long, then Release. */
  function Closed(k: Key, h: Hold): seq<Event> {
    var sequence := h.ordinal;
    (if h.fires < 2 then [Event(sequence, k, Short)] else []) + [Event(sequence, k, Release)]
  }

  /** The trace of one key: its presses in order, the last one still open while the key is down. */
  function Written(k: Key, bootHeld: bool, holds: seq<Hold>, down: bool): seq<Event> {
    if holds == [] then
      if bootHeld && !down then [Event(0, k, Short), Event(0, k, Release)] else []
    else
      var last := holds[|holds| - 1];
      Written(k, bootHeld, holds[..|holds| - 1], false) + Opened(k, last) + if down then [] else Closed(k, last)
  }

  function Only(es: seq<Event>, k: Key): seq<Event> {
    if es == [] then [] else
      var last := es[|es| - 1];
      Only(es[..|es| - 1], k) + if last.key == k then [last] else []
  }

  function PressCount(es: seq<Event>): nat {
    if es == [] then 0 else PressCount(es[..|es| - 1]) + if es[|es| - 1].kind == Press then 1 else 0
  }

  /** The presses of `k` after one more step; a new one is numbered `count + 1`. */
  function HoldsNext(holds: seq<Hold>, pin: Pin, count: nat, step: Step, k: Key): seq<Hold> {
    if step == Level(k, true) && !pin.down then holds + [Hold(0, count + 1)]
    else if step == Fire(k) && pin.timer && holds != [] then
      holds[|holds| - 1 := holds[|holds| - 1].(fires := holds[|holds| - 1].fires + 1)]
    else holds
  }

  /** The presses of `k` in a run. */
  function Holds(held: set<Key>, steps: seq<Step>, k: Key): seq<Hold> {
    if steps == [] then [] else
      var before := steps[..|steps| - 1];
      HoldsNext(Holds(held, before, k), ServiceRun(held, before).pins[k], PressCount(Trace(held, before)),
                steps[|steps| - 1], k)
  }

  lemma {:induction false} OnlyConcat(a: seq<Event>, b: seq<Event>, k: Key)
    ensures Only(a + b, k) == Only(a, k) + Only(b, k)
  {
    if b == [] {
      assert a + b == a;
    } else {
      OnlyConcat(a, b[..|b| - 1], k);
      assert (a + b)[..|a + b| - 1] == a + b[..|b| - 1];
    }
  }

  lemma {:induction false} PressCountConcat(a: seq<Event>, b: seq<Event>)
    ensures PressCount(a + b) == PressCount(a) + PressCount(b)
  {
    if b == [] {
      assert a + b == a;
    } else {
      PressCountConcat(a, b[..|b| - 1]);
      assert (a + b)[..|a + b| - 1] == a + b[..|b| - 1];
    }
  }

  /** What a run leaves in one pin, in terms of the presses of its key. */
  ghost predicate PinTells(pin: Pin, bootHeld: bool, holds: seq<Hold>) {
    && pin.pressCounter <= LONG_PRESS_COUNTS
    && (pin.timer ==> pin.down)
    && (!pin.down ==> pin.pressCounter == 0)
    && (holds == [] ==> !pin.timer && pin.pressCounter == 0 && pin.sequence == 0 && (pin.down ==> bootHeld))
    && (holds != [] ==>
          && pin.sequence == holds[|holds| - 1].ordinal
          && (pin.down ==> pin.timer)
          && (pin.down ==> pin.pressCounter == if holds[|holds| - 1].fires < 2 then holds[|holds| - 1].fires else 2))
  }

  /** Events all of one key are that key's, and nobody else's. */
  lemma {:induction false} OnlyOfOneKey(es: seq<Event>, j: Key, k: Key)
    requires forall i :: 0 <= i < |es| ==> es[i].key == j
    ensures Only(es, k) == if j == k then es else []
  {
    if es != [] {
      var most := es[..|es| - 1];
      OnlyOfOneKey(most, j, k);
      assert es == most + [es[|es| - 1]];
    }
  }

  lemma {:induction false} PressCountOfNone(es: seq<Event>)
    requires forall i :: 0 <= i < |es| ==> es[i].kind != Press
    ensures PressCount(es) == 0
  {
    if es != [] {
      PressCountOfNone(es[..|es| - 1]);
    }
  }

  lemma {:induction false} PublishedOnly(s: Service, step: Step, k: Key)
    requires Total(s)
    ensures step.key == k ==> Only(Publishes(s, step), k) == Publishes(s, step)
    ensures step.key != k ==> Only(Publishes(s, step), k) == []
    ensures PressCount(Publishes(s, step)) == if step.Level? && step.level && !s.pins[step.key].down then 1 else 0
  {
    OnlyOfOneKey(Publishes(s, step), step.key, k);
    if step.Level? && step.level && !s.pins[step.key].down {
      OneEvent(Publishes(s, step)[0], k);
    } else {
      PressCountOfNone(Publishes(s, step));
    }
  }

  lemma {:induction false} OneEvent(e: Event, k: Key)
    ensures Only([e], k) == if e.key == k then [e] else []
    ensures PressCount([e]) == if e.kind == Press then 1 else 0
  {
    assert [e][..0] == [];
  }

  lemma {:induction false} PressWrites(k: Key, bootHeld: bool, holds: seq<Hold>, pin: Pin, n: nat)
    requires PinTells(pin, bootHeld, holds) && !pin.down
    ensures Written(k, bootHeld, holds + [Hold(0, n)], true)
         == Written(k, bootHeld, holds, false) + [Event(n, k, Press)]
    ensures PinTells(Pin(true, true, pin.pressCounter, n), bootHeld, holds + [Hold(0, n)])
  {
    var grown := holds + [Hold(0, n)];
    assert grown[..|holds|] == holds && grown[|grown| - 1] == Hold(0, n);
    assert Opened(k, Hold(0, n)) == [Event(n, k, Press)];
  }

  lemma {:induction false} ReleaseWrites(s: Service, k: Key, bootHeld: bool, holds: seq<Hold>)
    requires Total(s) && PinTells(s.pins[k], bootHeld, holds) && s.pins[k].down
    ensures Written(k, bootHeld, holds, false)
         == Written(k, bootHeld, holds, true) + Publishes(s, Level(k, false))
    ensures PinTells(s.pins[k].(down := false, timer := false, pressCounter := 0), bootHeld, holds)
  {
    if holds != [] {
      var last := holds[|holds| - 1];
      var w := Written(k, bootHeld, holds[..|holds| - 1], false) + Opened(k, last);
      assert Publishes(s, Level(k, false)) == Closed(k, last);
      assert Written(k, bootHeld, holds, true) == w + [] == w;
    }
  }

  lemma {:induction false} FireWrites(s: Service, k: Key, bootHeld: bool, holds: seq<Hold>)
    requires Total(s) && PinTells(s.pins[k], bootHeld, holds) && s.pins[k].timer
    ensures holds != []
    ensures var grown := holds[|holds| - 1 := holds[|holds| - 1].(fires := holds[|holds| - 1].fires + 1)];
            && Written(k, bootHeld, grown, true) == Written(k, bootHeld, holds, true) + Publishes(s, Fire(k))
            && PinTells(Next(s, Fire(k)).pins[k], bootHeld, grown)
  {
    var last := holds[|holds| - 1];
    var more := last.(fires := last.fires + 1);
    var grown := holds[|holds| - 1 := more];
    assert grown[..|holds| - 1] == holds[..|holds| - 1];
    var w := Written(k, bootHeld, holds[..|holds| - 1], false);
    MoreFires(k, last);
    assert Publishes(s, Fire(k)) == Opened(k, more)[|Opened(k, last)|..];
    assert Written(k, bootHeld, holds, true) == w + Opened(k, last);
    assert Written(k, bootHeld, grown, true) == w + Opened(k, more);
  }

  lemma {:induction false} MoreFires(k: Key, h: Hold)
    ensures Opened(k, h.(fires := h.fires + 1)) == Opened(k, h) +
              if h.fires == 0 then []
              else if h.fires == 1 then [Event(h.ordinal, k, Long)]
              else [Event(h.ordinal, k, Repeat)]
  {
  }

  /** The service state, the presses of `k`, the press count and the trace of `k` agree. */
  ghost predicate Agrees(s: Service, holds: seq<Hold>, count: nat, only: seq<Event>, k: Key, bootHeld: bool)
    requires Total(s)
  {
    && PinTells(s.pins[k], bootHeld, holds)
    && s.counter == count
    && only == Written(k, bootHeld, holds, s.pins[k].down)
  }

  /** The key goes down: a press is written. */
  lemma {:induction false} PressAgrees(s: Service, holds: seq<Hold>, count: nat, only: seq<Event>, k: Key, bootHeld: bool)
    requires Total(s) && Agrees(s, holds, count, only, k, bootHeld) && !s.pins[k].down
    ensures var step := Level(k, true);
            Agrees(Next(s, step), HoldsNext(holds, s.pins[k], count, step, k), count + PressCount(Publishes(s, step)),
                   only + Only(Publishes(s, step), k), k, bootHeld)
  {
    PublishedOnly(s, Level(k, true), k);
    PressWrites(k, bootHeld, holds, s.pins[k], count + 1);
    assert HoldsNext(holds, s.pins[k], count, Level(k, true), k) == holds + [Hold(0, count + 1)];
  }

  /** The key goes up: the open press is closed. */
  lemma {:induction false} ReleaseAgrees(s: Service, holds: seq<Hold>, count: nat, only: seq<Event>, k: Key, bootHeld: bool)
    requires Total(s) && Agrees(s, holds, count, only, k, bootHeld) && s.pins[k].down
    ensures var step := Level(k, false);
            Agrees(Next(s, step), HoldsNext(holds, s.pins[k], count, step, k), count + PressCount(Publishes(s, step)),
                   only + Only(Publishes(s, step), k), k, bootHeld)
  {
    PublishedOnly(s, Level(k, false), k);
    ReleaseWrites(s, k, bootHeld, holds);
    assert HoldsNext(holds, s.pins[k], count, Level(k, false), k) == holds;
  }

  /** The timer fires: the open press goes on. */
  lemma {:induction false} FireAgrees(s: Service, holds: seq<Hold>, count: nat, only: seq<Event>, k: Key, bootHeld: bool)
    requires Total(s) && Agrees(s, holds, count, only, k, bootHeld) && s.pins[k].timer
    ensures var step := Fire(k);
            Agrees(Next(s, step), HoldsNext(holds, s.pins[k], count, step, k), count + PressCount(Publishes(s, step)),
                   only + Only(Publishes(s, step), k), k, bootHeld)
  {
    PublishedOnly(s, Fire(k), k);
    FireWrites(s, k, bootHeld, holds);
  }

  /** A step of another key, or a level read again, writes nothing. */
  lemma {:induction false} OtherAgrees(s: Service, step: Step, holds: seq<Hold>, count: nat, only: seq<Event>, k: Key,
                                       bootHeld: bool)
    requires Total(s) && Agrees(s, holds, count, only, k, bootHeld) && step != Fire(k) && step != Level(k, !s.pins[k].down)
    ensures Agrees(Next(s, step), HoldsNext(holds, s.pins[k], count, step, k), count + PressCount(Publishes(s, step)),
                   only + Only(Publishes(s, step), k), k, bootHeld)
  {
    PublishedOnly(s, step, k);
    assert HoldsNext(holds, s.pins[k], count, step, k) == holds && Next(s, step).pins[k] == s.pins[k];
    assert only + [] == only;
  }

  /** A timer that is not running writes nothing. */
  lemma {:induction false} IdleFireAgrees(s: Service, holds: seq<Hold>, count: nat, only: seq<Event>, k: Key, bootHeld: bool)
    requires Total(s) && Agrees(s, holds, count, only, k, bootHeld) && !s.pins[k].timer
    ensures var step := Fire(k);
            Agrees(Next(s, step), HoldsNext(holds, s.pins[k], count, step, k), count + PressCount(Publishes(s, step)),
                   only + Only(Publishes(s, step), k), k, bootHeld)
  {
    PublishedOnly(s, Fire(k), k);
    assert Next(s, Fire(k)).pins[k] == s.pins[k];
    assert only + [] == only;
  }

  lemma {:induction false} StepAgrees(s: Service, step: Step, holds: seq<Hold>, count: nat, only: seq<Event>, k: Key,
                                       bootHeld: bool)
    requires Total(s) && Agrees(s, holds, count, only, k, bootHeld)
    ensures Agrees(Next(s, step), HoldsNext(holds, s.pins[k], count, step, k), count + PressCount(Publishes(s, step)),
                   only + Only(Publishes(s, step), k), k, bootHeld)
  {
    if step == Fire(k) {
      if s.pins[k].timer {
        FireAgrees(s, holds, count, only, k, bootHeld);
      } else {
        IdleFireAgrees(s, holds, count, only, k, bootHeld);
      }
    } else if step != Level(k, !s.pins[k].down) {
      OtherAgrees(s, step, holds, count, only, k, bootHeld);
    } else if s.pins[k].down {
      ReleaseAgrees(s, holds, count, only, k, bootHeld);
    } else {
      PressAgrees(s, holds, count, only, k, bootHeld);
    }
  }

  /** What every run establishes of the key `k`. */
  ghost predicate TellsPresses(held: set<Key>, steps: seq<Step>, k: Key) {
    Agrees(ServiceRun(held, steps), Holds(held, steps, k), PressCount(Trace(held, steps)),
           Only(Trace(held, steps), k), k, k in held)
  }

  lemma {:induction false} RunExtends(held: set<Key>, before: seq<Step>, step: Step, k: Key)
    ensures var s, all := ServiceRun(held, before), before + [step];
            && ServiceRun(held, all) == Next(s, step)
            && Trace(held, all) == Trace(held, before) + Publishes(s, step)
            && Holds(held, all, k) == HoldsNext(Holds(held, before, k), s.pins[k], PressCount(Trace(held, before)), step, k)
  {
    assert (before + [step])[..|before|] == before;
  }

  lemma {:induction false} TraceExtends(trace: seq<Event>, more: seq<Event>, all: seq<Event>, k: Key)
    requires all == trace + more
    ensures PressCount(all) == PressCount(trace) + PressCount(more) && Only(all, k) == Only(trace, k) + Only(more, k)
  {
    OnlyConcat(trace, more, k);
    PressCountConcat(trace, more);
  }

  lemma {:induction false} StepTellsPresses(held: set<Key>, before: seq<Step>, step: Step, k: Key)
    requires TellsPresses(held, before, k)
    ensures TellsPresses(held, before + [step], k)
  {
    var s, trace := ServiceRun(held, before), Trace(held, before);
    StepAgrees(s, step, Holds(held, before, k), PressCount(trace), Only(trace, k), k, k in held);
    RunExtends(held, before, step, k);
    TraceExtends(trace, Publishes(s, step), Trace(held, before + [step]), k);
  }

  lemma {:induction false} StartTellsPresses(held: set<Key>, k: Key)
    ensures TellsPresses(held, [], k)
  {
  }

  /**
   In every run the trace of each key is a sequence of complete presses, each
   Press (Short | Long Repeat*) Release, with the last one open while the key is
   down; a key held at start adds only a leading Short Release.  The counters
   say how far the open press has got.
   */
  lemma {:induction false} TraceIsPresses(held: set<Key>, steps: seq<Step>, k: Key)
    ensures TellsPresses(held, steps, k)
  {
    if steps == [] {
      StartTellsPresses(held, k);
    } else {
      var before, step := steps[..|steps| - 1], steps[|steps| - 1];
      assert steps == before + [step];
      TraceIsPresses(held, before, k);
      StepTellsPresses(held, before, step, k);
    }
  }

  // ---------------------------------------------------------------- sequence numbers and held keys

  /** The presses are numbered upward, by how many presses of any key there had been. */
  ghost predicate Numbered(holds: seq<Hold>, count: nat) {
    && (forall h | h in holds :: 1 <= h.ordinal <= count)
    && (forall i, j :: 0 <= i < j < |holds| ==> holds[i].ordinal < holds[j].ordinal)
  }

  lemma {:induction false} StepKeepsNumbers(holds: seq<Hold>, pin: Pin, count: nat, step: Step, k: Key, more: nat)
    requires Numbered(holds, count) && (step == Level(k, true) && !pin.down ==> more >= 1)
    ensures Numbered(HoldsNext(holds, pin, count, step, k), count + more)
  {
    if step == Fire(k) && pin.timer && holds != [] {
      assert holds[|holds| - 1] in holds;
    }
  }

  /** In every run, a press has a number above all earlier presses of its key. */
  lemma {:induction false} NumbersGrow(held: set<Key>, steps: seq<Step>, k: Key)
    ensures Numbered(Holds(held, steps, k), PressCount(Trace(held, steps)))
  {
    if steps != [] {
      var before, step := steps[..|steps| - 1], steps[|steps| - 1];
      NumbersGrow(held, before, k);
      var s, trace := ServiceRun(held, before), Trace(held, before);
      PressCountConcat(trace, Publishes(s, step));
      PublishedOnly(s, step, k);
      StepKeepsNumbers(Holds(held, before, k), s.pins[k], PressCount(trace), step, k, PressCount(Publishes(s, step)));
    }
  }

  /** A new press has a number above every earlier press of any key. */
  lemma {:induction false} NewPressIsNewest(held: set<Key>, before: seq<Step>, k: Key, j: Key)
    requires !ServiceRun(held, before).pins[k].down
    ensures var after := Holds(held, before + [Level(k, true)], k);
            && after != []
            && forall h | h in Holds(held, before, j) :: h.ordinal < after[|after| - 1].ordinal
  {
    RunExtends(held, before, Level(k, true), k);
    NumbersGrow(held, before, j);
  }

  /** The keys down in the trace are those whose press timer runs, and no key is pressed twice. */
  lemma {:induction false} TraceIsComplementary(held: set<Key>, steps: seq<Step>)
    ensures Complementary(Trace(held, steps))
    ensures forall k: Key :: k in KeysDown(Trace(held, steps)) <==> ServiceRun(held, steps).pins[k].timer
    ensures forall k: Key :: ServiceRun(held, steps).pins[k].timer ==> ServiceRun(held, steps).pins[k].down
  {
    if steps != [] {
      var before, step := steps[..|steps| - 1], steps[|steps| - 1];
      TraceIsComplementary(held, before);
      StepStaysComplementary(ServiceRun(held, before), step, Trace(held, before));
    }
  }

  /** A trace is complementary and has down exactly the keys whose timers run. */
  ghost predicate TimersTell(s: Service, trace: seq<Event>)
    requires Total(s)
  {
    && Complementary(trace)
    && (forall k: Key :: k in KeysDown(trace) <==> s.pins[k].timer)
    && (forall k: Key :: s.pins[k].timer ==> s.pins[k].down)
  }

  lemma {:induction false} StepStaysComplementary(s: Service, step: Step, trace: seq<Event>)
    requires Total(s) && TimersTell(s, trace)
    ensures TimersTell(Next(s, step), trace + Publishes(s, step))
  {
    var es := Publishes(s, step);
    if |es| == 2 {
      KeysDownPush(trace, es[0]);
      ComplementaryPush(trace, es[0]);
      KeysDownPush(trace + [es[0]], es[1]);
      ComplementaryPush(trace + [es[0]], es[1]);
      assert trace + es == trace + [es[0]] + [es[1]];
    } else if |es| == 1 {
      KeysDownPush(trace, es[0]);
      ComplementaryPush(trace, es[0]);
      assert trace + es == trace + [es[0]];
    } else {
      assert trace + es == trace;
    }
  }
}
