/** The input service as it stands in memory, with 32-bit sequence counters. */
module InputDevice {
  import opened Keys
  import opened InputService

  /** Counters are 32 bits wide. */
  function Wrap(n: nat): nat {
    n % 0x1_0000_0000
  }

  function Wrapped(es: seq<Event>): seq<Event> {
    seq(|es|, i requires 0 <= i < |es| => es[i].(sequence := Wrap(es[i].sequence)))
  }

  lemma {:induction false} WrapNext(n: nat)
    ensures Wrap(Wrap(n) + 1) == Wrap(n + 1)
  {
  }

  class InputPinState {
    const key: Key
    var state: bool
    var timerActive: bool
    var pressCounter: nat
    var counter: nat

    constructor (key: Key, state: bool)
      ensures this.key == key && this.state == state && !timerActive && pressCounter == 0 && counter == 0
    {
      this.key, this.state, timerActive, pressCounter, counter := key, state, false, 0, 0;
    }

    /** The memory holds the pin of the model, its sequence number cut to 32 bits. */
    ghost predicate Holds(pin: Pin)
      reads this
    {
      && state == pin.down && timerActive == pin.timer
      && pressCounter == pin.pressCounter <= LONG_PRESS_COUNTS
      && counter == Wrap(pin.sequence)
    }
  }

  class Input {
    var counter: nat
    const pins: map<Key, InputPinState>
    ghost var model: Service
    ghost var published: seq<Event>

    ghost predicate Valid()
      reads this, pins.Values
    {
      && Total(model)
      && (forall k: Key :: k in pins && pins[k].key == k && pins[k].Holds(model.pins[k]))
      && counter == Wrap(model.counter)
    }

    /** At start each pin takes the level it reads. */
    constructor (held: set<Key>)
      ensures Valid() && fresh(pins.Values) && model == Boot(held) && published == []
    {
      var up := new InputPinState(Up, Up in held);
      var down := new InputPinState(Down, Down in held);
      var right := new InputPinState(Right, Right in held);
      var left := new InputPinState(Left, Left in held);
      var ok := new InputPinState(Ok, Ok in held);
      var back := new InputPinState(Back, Back in held);
      counter := 0;
      pins := map[Up := up, Down := down, Right := right, Left := left, Ok := ok, Back := back];
      model, published := Boot(held), [];
      new;
      forall k: Key
        ensures k in pins && pins[k].key == k && pins[k].Holds(model.pins[k])
      {
        match k case Up => case Down => case Right => case Left => case Ok => case Back =>
      }
    }

    /** What `event_pubsub` is given. */
    ghost method Publish(e: Event)
      modifies this`published
      ensures published == old(published) + [e]
    {
      published := published + [e];
    }

    /** The periodic timer of a pressed key: Long the second time, Repeat from then on. */
    method PressTimer(k: Key)
      requires Valid() && pins[k].timerActive
      modifies this`model, this`published, pins[k]
      ensures Valid() && model == Next(old(model), Fire(k))
      ensures published == old(published) + Wrapped(Publishes(old(model), Fire(k)))
    {
      ghost var before := model;
      var pin := pins[k];
      pin.pressCounter := pin.pressCounter + 1;
      if pin.pressCounter == LONG_PRESS_COUNTS {
        Publish(Event(pin.counter, k, Long));
      } else if pin.pressCounter > LONG_PRESS_COUNTS {
        pin.pressCounter := pin.pressCounter - 1;
        Publish(Event(pin.counter, k, Repeat));
      }
      model := Next(before, Fire(k));
    }

    /** The pin goes down: a new number, the timer starts. */
    method GoDown(k: Key)
      requires Valid() && !pins[k].state
      modifies this`counter, this`model, this`published, pins[k]
      ensures Valid() && model == Next(old(model), Level(k, true))
      ensures published == old(published) + Wrapped(Publishes(old(model), Level(k, true)))
    {
      ghost var before := model;
      var pin := pins[k];
      WrappedPress(before, k);
      WrapNext(before.counter);
      counter := Wrap(counter + 1);
      pin.state, pin.counter, pin.timerActive := true, counter, true;
      Publish(Event(pin.counter, k, Press));
      model := Next(before, Level(k, true));
    }

    /** The pin goes up: the timer stops, and an open Short comes before the Release. */
    method GoUp(k: Key)
      requires Valid() && pins[k].state
      modifies this`model, this`published, pins[k]
      ensures Valid() && model == Next(old(model), Level(k, false))
      ensures published == old(published) + Wrapped(Publishes(old(model), Level(k, false)))
    {
      ghost var before := model;
      var pin := pins[k];
      WrappedRelease(before, k);
      pin.state, pin.timerActive := false, false;
      if pin.pressCounter < LONG_PRESS_COUNTS {
        Publish(Event(pin.counter, k, Short));
      }
      pin.pressCounter := 0;
      Publish(Event(pin.counter, k, Release));
      model := Next(before, Level(k, false));
    }

    /** One pin of the service loop, once debounced: acts only on a change of level. */
    method PollPin(k: Key, state: bool)
      requires Valid()
      modifies this`counter, this`model, this`published, pins[k]
      ensures Valid() && model == Next(old(model), Level(k, state))
      ensures published == old(published) + Wrapped(Publishes(old(model), Level(k, state)))
    {
      if pins[k].state == state {
        assert Wrapped(Publishes(model, Level(k, state))) == [];
      } else if state {
        GoDown(k);
      } else {
        GoUp(k);
      }
    }
  }

  lemma {:induction false} WrappedPress(s: Service, k: Key)
    requires Total(s) && !s.pins[k].down
    ensures Wrapped(Publishes(s, Level(k, true))) == [Event(Wrap(s.counter + 1), k, Press)]
  {
  }

  lemma {:induction false} WrappedRelease(s: Service, k: Key)
    requires Total(s) && s.pins[k].down
    ensures var pin := s.pins[k];
            Wrapped(Publishes(s, Level(k, false)))
            == (if pin.pressCounter < LONG_PRESS_COUNTS then [Event(Wrap(pin.sequence), k, Short)] else [])
               + [Event(Wrap(pin.sequence), k, Release)]
  {
  }

  // ----- numbers in 32 bits -----

  /** The presses among the events are numbered one after the other, from 1. */
  ghost predicate CountedOff(es: seq<Event>, count: nat) {
    && (forall e | e in es && e.kind == Press :: 1 <= e.sequence <= count)
    && (forall n | 1 <= n <= count :: HasPress(es, n))
  }

  predicate HasPress(es: seq<Event>, n: nat) {
    exists e | e in es :: e.kind == Press && e.sequence == n
  }

  lemma {:induction false} StepCountsOff(s: Service, step: Step, es: seq<Event>)
    requires Total(s) && CountedOff(es, s.counter)
    ensures CountedOff(es + Publishes(s, step), Next(s, step).counter)
  {
    var more, t := Publishes(s, step), Next(s, step);
    forall n | 1 <= n <= t.counter
      ensures HasPress(es + more, n)
    {
      if n <= s.counter {
        assert HasPress(es, n);
        var e :| e in es && e.kind == Press && e.sequence == n;
        assert e in es + more;
      } else {
        assert more[0] in es + more && more[0].kind == Press && more[0].sequence == n;
      }
    }
  }

  lemma {:induction false} TraceIsCountedOff(held: set<Key>, steps: seq<Step>)
    ensures CountedOff(Trace(held, steps), ServiceRun(held, steps).counter)
  {
    if steps != [] {
      var before := steps[..|steps| - 1];
      TraceIsCountedOff(held, before);
      StepCountsOff(ServiceRun(held, before), steps[|steps| - 1], Trace(held, before));
    }
  }

  /** Every press among the events has a number below `n`. */
  predicate AllBelow(es: seq<Event>, n: nat) {
    forall e | e in es && e.kind == Press :: e.sequence < n
  }

  lemma {:induction false} InWrapped(es: seq<Event>)
    ensures forall e | e in es :: e.(sequence := Wrap(e.sequence)) in Wrapped(es)
    ensures forall w | w in Wrapped(es) :: exists e | e in es :: w == e.(sequence := Wrap(e.sequence))
  {
    forall e | e in es
      ensures e.(sequence := Wrap(e.sequence)) in Wrapped(es)
    {
      var i :| 0 <= i < |es| && es[i] == e;
      assert Wrapped(es)[i] == e.(sequence := Wrap(e.sequence));
    }
    forall w | w in Wrapped(es)
      ensures exists e | e in es :: w == e.(sequence := Wrap(e.sequence))
    {
      var i :| 0 <= i < |es| && Wrapped(es)[i] == w;
      assert es[i] in es;
    }
  }

  /**
   As published, in 32 bits: the number of a new press is above those of all
   presses before it exactly while there have been fewer than 2^32 - 1 of them.
   */
  lemma {:induction false} NewPressIsNewestExactlyWhen(held: set<Key>, before: seq<Step>, k: Key)
    requires !ServiceRun(held, before).pins[k].down
    ensures var s := ServiceRun(held, before);
            && Wrapped(Publishes(s, Level(k, true))) == [Event(Wrap(s.counter + 1), k, Press)]
            && (AllBelow(Wrapped(Trace(held, before)), Wrap(s.counter + 1)) <==> s.counter + 1 < 0x1_0000_0000)
  {
    var s, trace := ServiceRun(held, before), Trace(held, before);
    WrappedPress(s, k);
    TraceIsCountedOff(held, before);
    if s.counter + 1 < 0x1_0000_0000 {
      FewStayBelow(trace, s.counter);
    } else {
      ManyReachTop(trace, s.counter);
    }
  }

  lemma {:induction false} FewStayBelow(es: seq<Event>, count: nat)
    requires CountedOff(es, count) && count + 1 < 0x1_0000_0000
    ensures AllBelow(Wrapped(es), Wrap(count + 1))
  {
    InWrapped(es);
  }

  lemma {:induction false} ManyReachTop(es: seq<Event>, count: nat)
    requires CountedOff(es, count) && count + 1 >= 0x1_0000_0000
    ensures forall n | n < 0x1_0000_0000 :: !AllBelow(Wrapped(es), n)
  {
    assert HasPress(es, 0xffff_ffff);
    var e :| e in es && e.kind == Press && e.sequence == 0xffff_ffff;
    InWrapped(es);
    assert e.(sequence := Wrap(e.sequence)) == e && e in Wrapped(es);
  }

  /** The count of presses is not bounded: after any number of them another key can be pressed. */
  lemma {:induction false} AnyNumberOfPresses(n: nat) returns (steps: seq<Step>)
    ensures ServiceRun({}, steps).counter == n && !ServiceRun({}, steps).pins[Ok].down
  {
    steps := [];
    if n > 0 {
      var before := AnyNumberOfPresses(n - 1);
      RunExtends({}, before, Level(Ok, true), Ok);
      RunExtends({}, before + [Level(Ok, true)], Level(Ok, false), Ok);
      steps := before + [Level(Ok, true)] + [Level(Ok, false)];
    }
  }
}
