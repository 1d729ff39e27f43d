/**
 The three layers in series.  Each layer takes its input off a FIFO queue, so at
 any moment it has consumed a prefix of what the layer above it has sent.
 */
module InputPipeline {
  import opened Options
  import opened Keys
  import opened InputLatch
  import opened GuiRouting
  import opened GuiRuns
  import opened InputDevice
  import Service = InputService

  lemma {:induction false} WrappingKeepsKeys(es: seq<Event>)
    ensures KeysDown(Wrapped(es)) == KeysDown(es)
    ensures Complementary(Wrapped(es)) == Complementary(es)
  {
    if es != [] {
      var before := es[..|es| - 1];
      WrappingKeepsKeys(before);
      assert Wrapped(es)[..|es| - 1] == Wrapped(before);
    }
  }

  /**
   A moment in the life of the pipeline: button activity `pins`, a run `gui` of
   the GUI service from the state `start`, and a run `views` of the dispatcher
   behind view port `p`, each fed by the one before.
   */
  ghost predicate Pipeline<P, V>(
    bootHeld: set<Key>, pins: seq<Service.Step>,
    start: GuiState<P>, gui: seq<GuiStep<P>>, p: P,
    views: seq<Step<V>>)
  {
    && WellFormed(start) && start.latch == Idle()
    && GuiInputs(gui) <= Wrapped(Service.Trace(bootHeld, pins))
    && Inputs(views) <= PortStream(start, gui, p)
  }

  ghost function ViewStream<V>(views: seq<Step<V>>, v: V): seq<Event> {
    Stream(Log(Idle(), views), v)
  }

  /** Nothing is waiting in a queue and every button is up. */
  ghost predicate AtRest<P, V>(
    bootHeld: set<Key>, pins: seq<Service.Step>,
    start: GuiState<P>, gui: seq<GuiStep<P>>, p: P,
    views: seq<Step<V>>)
    requires WellFormed(start)
  {
    && (forall k: Key :: !Service.ServiceRun(bootHeld, pins).pins[k].down)
    && GuiInputs(gui) == Wrapped(Service.Trace(bootHeld, pins))
    && Inputs(views) == PortStream(start, gui, p)
  }

  lemma {:induction false} PrefixIsComplementary(taken: seq<Event>, sent: seq<Event>)
    requires taken <= sent && Complementary(sent)
    ensures Complementary(taken)
  {
    ComplementaryPrefix(sent, |taken|);
    assert taken == sent[..|taken|];
  }

  /** The service gives the GUI, and the GUI gives the dispatcher, what its latch needs. */
  lemma {:induction false} LayersCompose<P, V>(
    bootHeld: set<Key>, pins: seq<Service.Step>,
    start: GuiState<P>, gui: seq<GuiStep<P>>, p: P,
    views: seq<Step<V>>)
    requires Pipeline(bootHeld, pins, start, gui, p, views)
    requires Remove(p) !in gui && TurnsFreely(start, gui, p)
    ensures Complementary(GuiInputs(gui))
    ensures Complementary(PortStream(start, gui, p))
    ensures Complementary(Inputs(views))
  {
    var trace := Service.Trace(bootHeld, pins);
    Service.TraceIsComplementary(bootHeld, pins);
    WrappingKeepsKeys(trace);
    PrefixIsComplementary(GuiInputs(gui), Wrapped(trace));
    PortSeesComplementaryKeys(start, gui, p);
    PrefixIsComplementary(Inputs(views), PortStream(start, gui, p));
  }

  /**
   At every moment: a view that stays registered never sees a second Press of a
   key before its Release, and every Press it saw has been released to it unless
   the dispatcher still counts the key as held.
   */
  lemma {:induction false} PressesAreReleasedOrHeld<P, V>(
    bootHeld: set<Key>, pins: seq<Service.Step>,
    start: GuiState<P>, gui: seq<GuiStep<P>>, p: P,
    views: seq<Step<V>>, v: V)
    requires Pipeline(bootHeld, pins, start, gui, p, views)
    requires Remove(p) !in gui && TurnsFreely(start, gui, p) && Keeps(views, v)
    ensures Complementary(ViewStream(views, v))
    ensures forall i :: 0 <= i < |ViewStream(views, v)| && ViewStream(views, v)[i].kind == Press ==>
              ReleasedLater(ViewStream(views, v), i) || ViewStream(views, v)[i].key in Run(Idle<V>(), views).held
  {
    LayersCompose(bootHeld, pins, start, gui, p, views);
    NothingDownButHeld(views, v);
    var es := ViewStream(views, v);
    forall i | 0 <= i < |es| && es[i].kind == Press && es[i].key !in Run(Idle<V>(), views).held
      ensures ReleasedLater(es, i)
    {
      AbsentMeansReleased(es, i);
    }
  }

  /** No stuck key: once the pipeline is at rest, every Press a view saw was followed by the Release of that key. */
  lemma {:induction false} NoStuckKey<P, V>(
    bootHeld: set<Key>, pins: seq<Service.Step>,
    start: GuiState<P>, gui: seq<GuiStep<P>>, p: P,
    views: seq<Step<V>>, v: V)
    requires Pipeline(bootHeld, pins, start, gui, p, views) && AtRest(bootHeld, pins, start, gui, p, views)
    requires Remove(p) !in gui && TurnsFreely(start, gui, p) && Keeps(views, v)
    ensures KeysDown(ViewStream(views, v)) == {}
    ensures forall i :: 0 <= i < |ViewStream(views, v)| && ViewStream(views, v)[i].kind == Press ==>
              ReleasedLater(ViewStream(views, v), i)
  {
    Service.TraceIsComplementary(bootHeld, pins);
    WrappingKeepsKeys(Service.Trace(bootHeld, pins));
    LayersCompose(bootHeld, pins, start, gui, p, views);
    PortSeesComplementaryKeys(start, gui, p);
    HeldIsKeysDown(views);
    NothingDownButHeld(views, v);
    PressesAreReleasedOrHeld(bootHeld, pins, start, gui, p, views, v);
  }

  /**
   In every pipeline run, a release handed to a view clears a key the view has
   down exactly when the dispatcher holds the key and the view was in front at
   its last press.
   */
  lemma {:induction false} ViewReleaseHasItsPressExactlyWhen<P, V>(
    bootHeld: set<Key>, pins: seq<Service.Step>,
    start: GuiState<P>, gui: seq<GuiStep<P>>, p: P,
    views: seq<Step<V>>, v: V, front: Option<V>, e: Event)
    requires Pipeline(bootHeld, pins, start, gui, p, views)
    requires Remove(p) !in gui && TurnsFreely(start, gui, p) && Keeps(views, v)
    requires e.kind == Release && Receiver(Run(Idle<V>(), views), front, e) == Some(v)
    ensures e.key in KeysDown(ViewStream(views, v))
       <==> e.key in Run(Idle<V>(), views).held && FrontAtPress(views, e.key) == Some(v)
  {
    LayersCompose(bootHeld, pins, start, gui, p, views);
    ReleaseHasItsPressExactlyWhen(views, v, front, e);
  }

  // ---------------------------------------------------------------- where the claims stop

  function Pressed(k: Key): Event {
    Event(1, k, Press)
  }

  function Released(k: Key): Event {
    Event(1, k, Release)
  }

  /** One full-screen port, enabled and horizontal. */
  ghost function OnePort(port: nat, latch: Latch<nat>, vertical: bool): GuiState<nat> {
    GuiState(latch, false, [[], [], [], [], [port]], {port}, if vertical then {port} else {})
  }

  lemma {:induction false} OnePortIsFront(port: nat, latch: Latch<nat>, vertical: bool)
    requires latch.target in {None, Some(port)}
    ensures WellFormed(OnePort(port, latch, vertical)) && Front(OnePort(port, latch, vertical)) == Some(port)
  {
    var s := OnePort(port, latch, vertical);
    assert port in s.layers[FULLSCREEN];
    assert Registered(s, port);
  }

  /** A run so far leaves the GUI at `g` and has given the port `out`. */
  ghost predicate Leads<P>(start: GuiState<P>, steps: seq<GuiStep<P>>, p: P, g: GuiState<P>, out: seq<Event>) {
    WellFormed(start) && start.latch == Idle() && GuiRun(start, steps) == g && PortStream(start, steps, p) == out
  }

  lemma {:induction false} LeadsOn<P>(start: GuiState<P>, steps: seq<GuiStep<P>>, p: P, g: GuiState<P>, out: seq<Event>,
                                      step: GuiStep<P>, next: GuiState<P>)
    requires Leads(start, steps, p, g, out) && WellFormed(g) && GuiRun(start, steps + [step]) == next
    ensures Receives(g, step) == Some(p) ==>
              Leads(start, steps + [step], p, next, out + [Rotate(step.event, p in g.vertical)])
    ensures Receives(g, step) != Some(p) ==> Leads(start, steps + [step], p, next, out)
  {
    PortStreamPush(start, steps, step, p);
  }

  lemma {:induction false} PressOnPort(port: nat)
    ensures var start, held := OnePort(port, Idle(), false), Latch({Right}, Some(port));
            Leads(start, [Input(Pressed(Right))], port, OnePort(port, held, false), [Pressed(Right)])
  {
    var start, press := OnePort(port, Idle(), false), Input(Pressed(Right));
    var none: seq<GuiStep<nat>> := [];
    OnePortIsFront(port, Idle(), false);
    assert none + [press] == [press];
    LatchStepsPush(start, none, press);
    assert GuiRun(start, [press]) == OnePort(port, Latch({Right}, Some(port)), false);
    LeadsOn(start, none, port, start, [], press, OnePort(port, Latch({Right}, Some(port)), false));
    assert [] + [Pressed(Right)] == [Pressed(Right)];
  }

  lemma {:induction false} TurnWhileHeld(port: nat)
    ensures var start, held := OnePort(port, Idle(), false), Latch({Right}, Some(port));
            Leads(start, [Input(Pressed(Right))] + [SetOrientation(port, true)], port,
                  OnePort(port, held, true), [Pressed(Right)])
  {
    var start, held := OnePort(port, Idle(), false), Latch({Right}, Some(port));
    var press, turn := [Input(Pressed(Right))], SetOrientation(port, true);
    PressOnPort(port);
    OnePortIsFront(port, held, false);
    LatchStepsPush(start, press, turn);
    assert port in OnePort(port, held, false).layers[FULLSCREEN];
    assert Flag({}, port, true) == {port};
    assert GuiRun(start, press + [turn]) == OnePort(port, held, true);
    LeadsOn(start, press, port, OnePort(port, held, false), [Pressed(Right)], turn, OnePort(port, held, true));
  }

  /**
   Turning a port while an arrow is down strands the key: the port sees a press
   of Right, and the release of the same button as a release of Down.
   */
  lemma {:induction false} TurningStrandsKey(port: nat)
    ensures var start := OnePort(port, Idle(), false);
            var gui := [Input(Pressed(Right))] + [SetOrientation(port, true)] + [Input(Released(Right))];
            && WellFormed(start)
            && PortStream(start, gui, port) == [Pressed(Right), Released(Down)]
            && Right in KeysDown(PortStream(start, gui, port))
  {
    var start, held := OnePort(port, Idle(), false), Latch({Right}, Some(port));
    var before, release := [Input(Pressed(Right))] + [SetOrientation(port, true)], Input(Released(Right));
    TurnWhileHeld(port);
    OnePortIsFront(port, held, true);
    LeadsOn(start, before, port, OnePort(port, held, true), [Pressed(Right)], release, GuiRun(start, before + [release]));
    assert Receives(OnePort(port, held, true), release) == Some(port);
    RightStaysDown();
  }

  lemma {:induction false} RightStaysDown()
    ensures Right in KeysDown([Pressed(Right), Released(Down)])
  {
    KeysDownPush([], Pressed(Right));
    assert [] + [Pressed(Right)] == [Pressed(Right)];
    KeysDownPush([Pressed(Right)], Released(Down));
    assert [Pressed(Right)] + [Released(Down)] == [Pressed(Right), Released(Down)];
  }

  /** A latch run so far leaves the latch at `l` and has given the target `out`. */
  predicate Gives<T(==)>(steps: seq<Step<T>>, t: T, l: Latch<T>, out: seq<Event>) {
    Run(Idle(), steps) == l && Stream(Log(Idle(), steps), t) == out
  }

  lemma {:induction false} GivesOn<T>(steps: seq<Step<T>>, t: T, l: Latch<T>, out: seq<Event>, front: Option<T>, e: Event)
    requires Gives(steps, t, l, out)
    ensures Gives(steps + [Arrive(front, e)], t, Next(l, Arrive(front, e)),
                  if Receiver(l, front, e) == Some(t) then out + [e] else out)
  {
    RunPush(Idle<T>(), steps, Arrive(front, e));
    if Receiver(l, front, e).Some? {
      StreamPush(Log(Idle<T>(), steps), Delivery(Receiver(l, front, e).value, e), t);
    }
  }

  function Arrives(front: nat, e: Event): Step<nat> {
    Arrive(Some(front), e)
  }

  lemma {:induction false} OnePress()
    ensures Gives([Arrives(1, Pressed(Ok))], 1, Latch({Ok}, Some(1)), [Pressed(Ok)])
  {
    var none: seq<Step<nat>> := [];
    assert none + [Arrives(1, Pressed(Ok))] == [Arrives(1, Pressed(Ok))];
    GivesOn(none, 1, Idle(), [], Some(1), Pressed(Ok));
    assert [] + [Pressed(Ok)] == [Pressed(Ok)];
  }

  /** The second press, while another target is in front, reaches nobody; the latch stays where it was. */
  lemma {:induction false} TwoPresses()
    ensures Gives([Arrives(1, Pressed(Ok))] + [Arrives(2, Pressed(Up))], 1, Latch({Ok, Up}, Some(1)), [Pressed(Ok)])
  {
    OnePress();
    GivesOn([Arrives(1, Pressed(Ok))], 1, Latch({Ok}, Some(1)), [Pressed(Ok)], Some(2), Pressed(Up));
  }

  /** The converse of the claim fails: a target can get the release of a key whose press it never saw. */
  lemma {:induction false} ReleaseWithoutPress() returns (steps: seq<Step<nat>>)
    ensures steps == [Arrives(1, Pressed(Ok))] + [Arrives(2, Pressed(Up))] + [Arrives(2, Released(Up))]
    ensures Stream(Log(Idle(), steps), 1) == [Pressed(Ok), Released(Up)]
    ensures Complementary([Pressed(Ok), Pressed(Up), Released(Up)])
  {
    var before := [Arrives(1, Pressed(Ok))] + [Arrives(2, Pressed(Up))];
    TwoPresses();
    GivesOn(before, 1, Latch({Ok, Up}, Some(1)), [Pressed(Ok)], Some(2), Released(Up));
    steps := before + [Arrives(2, Released(Up))];
    TwoPressesOneRelease();
  }

  lemma {:induction false} TwoPressesOneRelease()
    ensures Complementary([Pressed(Ok), Pressed(Up), Released(Up)])
  {
    KeysDownPush([], Pressed(Ok));
    ComplementaryPush([], Pressed(Ok));
    assert [] + [Pressed(Ok)] == [Pressed(Ok)];
    KeysDownPush([Pressed(Ok)], Pressed(Up));
    ComplementaryPush([Pressed(Ok)], Pressed(Up));
    assert [Pressed(Ok)] + [Pressed(Up)] == [Pressed(Ok), Pressed(Up)];
    ComplementaryPush([Pressed(Ok), Pressed(Up)], Released(Up));
    assert [Pressed(Ok), Pressed(Up)] + [Released(Up)] == [Pressed(Ok), Pressed(Up), Released(Up)];
  }

  /**
   The same with nothing switched: the service's events for a key held at boot
   and another pressed meanwhile.  The latch keeps its target when the last key
   comes up, so the boot key's release goes to it.
   */
  lemma {:induction false} BootHeldRelease() returns (trace: seq<Event>, steps: seq<Step<nat>>)
    ensures trace == Service.Trace({Up}, [Service.Level(Ok, true)] + [Service.Level(Ok, false)] + [Service.Level(Up, false)])
    ensures Inputs(steps) == trace && forall i :: 0 <= i < |steps| ==> steps[i].Arrive? && steps[i].front == Some(1)
    ensures Stream(Log(Idle(), steps), 1)
            == [Event(1, Ok, Press), Event(1, Ok, Short), Event(1, Ok, Release), Event(0, Up, Release)]
  {
    trace := BootHeldTrace();
    steps := BootHeldLatch();
  }

  lemma {:induction false} BootHeldPress()
    ensures var run := [Service.Level(Ok, true)];
            && Service.ServiceRun({Up}, run).pins[Ok] == Service.Pin(true, true, 0, 1)
            && Service.ServiceRun({Up}, run).pins[Up] == Service.Pin(true, false, 0, 0)
            && Service.Trace({Up}, run) == [Event(1, Ok, Press)]
  {
    var none: seq<Service.Step> := [];
    assert none + [Service.Level(Ok, true)] == [Service.Level(Ok, true)];
    Service.RunExtends({Up}, none, Service.Level(Ok, true), Ok);
  }

  lemma {:induction false} BootHeldUp()
    ensures var run := [Service.Level(Ok, true)] + [Service.Level(Ok, false)];
            && Service.ServiceRun({Up}, run).pins[Up] == Service.Pin(true, false, 0, 0)
            && Service.Trace({Up}, run) == [Event(1, Ok, Press), Event(1, Ok, Short), Event(1, Ok, Release)]
  {
    BootHeldPress();
    Service.RunExtends({Up}, [Service.Level(Ok, true)], Service.Level(Ok, false), Ok);
  }

  lemma {:induction false} BootHeldTrace() returns (trace: seq<Event>)
    ensures trace == Service.Trace({Up}, [Service.Level(Ok, true)] + [Service.Level(Ok, false)] + [Service.Level(Up, false)])
    ensures trace
            == [Event(1, Ok, Press), Event(1, Ok, Short), Event(1, Ok, Release), Event(0, Up, Short), Event(0, Up, Release)]
  {
    var before := [Service.Level(Ok, true)] + [Service.Level(Ok, false)];
    BootHeldUp();
    Service.RunExtends({Up}, before, Service.Level(Up, false), Ok);
    trace := Service.Trace({Up}, before + [Service.Level(Up, false)]);
  }

  /** Fed `ins` with target 1 in front throughout, the latch stands at `l` and has given it `out`. */
  ghost predicate Fed(steps: seq<Step<nat>>, ins: seq<Event>, l: Latch<nat>, out: seq<Event>) {
    && Inputs(steps) == ins && Gives(steps, 1, l, out)
    && forall i :: 0 <= i < |steps| ==> steps[i].Arrive? && steps[i].front == Some(1)
  }

  lemma {:induction false} FedNext(steps: seq<Step<nat>>, ins: seq<Event>, l: Latch<nat>, out: seq<Event>, e: Event,
                                   next: Latch<nat>, got: seq<Event>) returns (more: seq<Step<nat>>)
    requires Fed(steps, ins, l, out) && next == Next(l, Arrive(Some(1), e))
    requires got == if Receiver(l, Some(1), e) == Some(1) then [e] else []
    ensures Fed(more, ins + [e], next, out + got)
  {
    more := steps + [Arrive(Some(1), e)];
    GivesOn(steps, 1, l, out, Some(1), e);
    RunPush(Idle<nat>(), steps, Arrive(Some(1), e));
    assert out + [] == out;
  }

  lemma {:induction false} OkGoesDown() returns (steps: seq<Step<nat>>)
    ensures Fed(steps, [] + [Event(1, Ok, Press)], Latch({Ok}, Some(1)), [] + [Event(1, Ok, Press)])
  {
    steps := FedNext([], [], Idle(), [], Event(1, Ok, Press), Latch({Ok}, Some(1)), [Event(1, Ok, Press)]);
  }

  lemma {:induction false} OkGoesUp(down: seq<Step<nat>>, es: seq<Event>) returns (steps: seq<Step<nat>>)
    requires Fed(down, es, Latch({Ok}, Some(1)), es)
    ensures var all := es + [Event(1, Ok, Short)] + [Event(1, Ok, Release)]; Fed(steps, all, Latch({}, Some(1)), all)
  {
    steps := FedNext(down, es, Latch({Ok}, Some(1)), es, Event(1, Ok, Short), Latch({Ok}, Some(1)), [Event(1, Ok, Short)]);
    var more := es + [Event(1, Ok, Short)];
    steps := FedNext(steps, more, Latch({Ok}, Some(1)), more, Event(1, Ok, Release), Latch({}, Some(1)),
                     [Event(1, Ok, Release)]);
  }

  /** The boot key's Short is refused, as the key is not counted as held; its Release is not. */
  lemma {:induction false} BootKeyGoesUp(idle: seq<Step<nat>>, es: seq<Event>) returns (steps: seq<Step<nat>>)
    requires Fed(idle, es, Latch({}, Some(1)), es)
    ensures Fed(steps, es + [Event(0, Up, Short)] + [Event(0, Up, Release)], Latch({}, Some(1)),
                es + [] + [Event(0, Up, Release)])
  {
    steps := FedNext(idle, es, Latch({}, Some(1)), es, Event(0, Up, Short), Latch({}, Some(1)), []);
    steps := FedNext(steps, es + [Event(0, Up, Short)], Latch({}, Some(1)), es + [], Event(0, Up, Release),
                     Latch({}, Some(1)), [Event(0, Up, Release)]);
  }

  lemma {:induction false} BootHeldLatch() returns (steps: seq<Step<nat>>)
    ensures Inputs(steps)
            == [Event(1, Ok, Press), Event(1, Ok, Short), Event(1, Ok, Release), Event(0, Up, Short), Event(0, Up, Release)]
    ensures forall i :: 0 <= i < |steps| ==> steps[i].Arrive? && steps[i].front == Some(1)
    ensures Stream(Log(Idle(), steps), 1)
            == [Event(1, Ok, Press), Event(1, Ok, Short), Event(1, Ok, Release), Event(0, Up, Release)]
  {
    steps := OkGoesDown();
    steps := OkGoesUp(steps, [] + [Event(1, Ok, Press)]);
    var es := [] + [Event(1, Ok, Press)] + [Event(1, Ok, Short)] + [Event(1, Ok, Release)];
    steps := BootKeyGoesUp(steps, es);
    assert es + [] + [Event(0, Up, Release)]
        == [Event(1, Ok, Press), Event(1, Ok, Short), Event(1, Ok, Release), Event(0, Up, Release)];
  }
}
