/**
 The dispatcher and its own view port in one run: switching views turns and
 enables the port, so that whether a turn strands a key depends on which views
 are switched while an arrow is down.
 */
module ViewSwitching {
  import opened Options
  import opened Keys
  import opened InputLatch
  import opened GuiRouting
  import opened GuiRuns
  import opened InputDevice
  import opened InputPipeline
  import Service = InputService

  /** What can happen to the GUI and to the dispatcher behind the port `p`. */
  datatype Act<!P, V> =
    | Elsewhere(step: GuiStep<P>)     // an event the GUI routes, or what anybody else asks of it
    | Show(view: Option<V>)           // the dispatcher makes a view current, or none
    | Take(event: Event)              // the dispatcher handles an event its port was given
    | Unregister(gone: V)             // a view is removed, and is shown no longer

  /** The view shown after the acts. */
  function Shown<P, V(==)>(acts: seq<Act<P, V>>): Option<V> {
    if acts == [] then None else
      var before := Shown(acts[..|acts| - 1]);
      match acts[|acts| - 1]
      case Show(view) => view
      case Unregister(gone) => if before == Some(gone) then None else before
      case _ => before
  }

  /** What an act asks of the GUI while `shown` is the current view. */
  function Asks<P, V(==)>(act: Act<P, V>, shown: Option<V>, p: P, vertical: V -> bool): seq<GuiStep<P>> {
    match act
    case Elsewhere(step) => [step]
    case Show(None) => [SetEnabled(p, false)]
    case Show(Some(view)) => [SetOrientation(p, vertical(view))] + [SetEnabled(p, true)]
    case Unregister(gone) => if shown == Some(gone) then [SetEnabled(p, false)] else []
    case Take(_) => []
  }

  /** The run of the GUI that the acts amount to. */
  function GuiOf<P, V(==)>(acts: seq<Act<P, V>>, p: P, vertical: V -> bool): seq<GuiStep<P>> {
    if acts == [] then [] else
      var before := acts[..|acts| - 1];
      GuiOf(before, p, vertical) + Asks(acts[|acts| - 1], Shown(before), p, vertical)
  }

  /** The run of the dispatcher's latch: what is in front is the view shown. */
  function ViewsOf<P, V(==)>(acts: seq<Act<P, V>>): seq<Step<V>> {
    if acts == [] then [] else
      var before := acts[..|acts| - 1];
      ViewsOf(before) + match acts[|acts| - 1]
                        case Take(e) => [Arrive(Shown(before), e)]
                        case Unregister(gone) => [Forget(gone)]
                        case _ => []
  }

  /** The step neither turns the port nor adds or removes it. */
  predicate SparesPort<P(==)>(step: GuiStep<P>, p: P) {
    match step
    case Add(q, _, _, _) => q != p
    case Remove(q) => q != p
    case SetOrientation(q, _) => q != p
    case _ => true
  }

  /** Nobody but the dispatcher turns the port, adds or removes it. */
  predicate LeavesPort<P(==), V>(act: Act<P, V>, p: P) {
    act.Elsewhere? ==> SparesPort(act.step, p)
  }

  /** How the port stands: as the view last shown wants it, or as it stood at first. */
  function Stands<P, V>(acts: seq<Act<P, V>>, vertical: V -> bool, first: bool): bool {
    if acts == [] then first else
      var last := acts[|acts| - 1];
      if last.Show? && last.view.Some? then vertical(last.view.value) else Stands(acts[..|acts| - 1], vertical, first)
  }

  /** No view is shown that wants the port turned while some of the port's arrows, but not all four, are down. */
  ghost predicate SwitchesFreely<P, V>(s: GuiState<P>, acts: seq<Act<P, V>>, p: P, vertical: V -> bool)
    requires WellFormed(s)
  {
    acts == [] ||
    var before, last := acts[..|acts| - 1], acts[|acts| - 1];
    && SwitchesFreely(s, before, p, vertical)
    && (last.Show? && last.view.Some? && vertical(last.view.value) != Stands(before, vertical, p in s.vertical) ==>
          !SomeArrows(KeysDown(RawStream(s, GuiOf(before, p, vertical), p))))
  }

  // ----- how the port stands -----

  /** The port `p` is registered and stands as told. */
  ghost predicate PortStands<P>(s: GuiState<P>, p: P, vertical: bool) {
    Registered(s, p) && (p in s.vertical) == vertical
  }

  lemma {:induction false} MoveKeepsRegistered<P>(s: GuiState<P>, q: P, layer: seq<P>, p: P)
    requires WellFormed(s) && Registered(s, p) && Registered(s, q)
    requires layer == Without(s.layers[LayerOf(s.layers, q)], q) + [q] || layer == [q] + Without(s.layers[LayerOf(s.layers, q)], q)
    ensures InSomeLayer(s.layers[LayerOf(s.layers, q) := layer], p)
  {
    var l :| 0 <= l < LAYERS && p in s.layers[l];
    WithoutRemoves(s.layers[LayerOf(s.layers, q)], q);
    assert p in s.layers[LayerOf(s.layers, q) := layer][l];
  }

  lemma {:induction false} StaysRegistered<P>(s: GuiState<P>, step: GuiStep<P>, p: P)
    requires WellFormed(s) && Registered(s, p) && SparesPort(step, p) && Legal(s, step)
    ensures Registered(Apply(s, step), p)
  {
    var l :| 0 <= l < LAYERS && p in s.layers[l];
    var layers := Apply(s, step).layers;
    match step
    case SendToFront(q) => MoveKeepsRegistered(s, q, layers[LayerOf(s.layers, q)], p);
    case SendToBack(q) => MoveKeepsRegistered(s, q, layers[LayerOf(s.layers, q)], p);
    case Remove(q) =>
      WithoutRemoves(s.layers[l], q);
      assert p in layers[l];
    case _ => assert p in layers[l];
  }

  lemma {:induction false} ElsewhereKeepsPort<P>(s: GuiState<P>, step: GuiStep<P>, p: P, vertical: bool)
    requires WellFormed(s) && PortStands(s, p, vertical) && SparesPort(step, p)
    ensures PortStands(Apply(s, step), p, vertical)
  {
    if Legal(s, step) {
      StaysRegistered(s, step, p);
    }
  }

  lemma {:induction false} SwitchTurnsPort<P>(s: GuiState<P>, p: P, vertical: bool, on: bool)
    requires WellFormed(s) && Registered(s, p)
    ensures PortStands(Apply(s, SetOrientation(p, vertical)), p, vertical)
    ensures PortStands(Apply(s, SetEnabled(p, on)), p, p in s.vertical)
  {
    var l :| 0 <= l < LAYERS && p in s.layers[l];
    assert p in Apply(s, SetOrientation(p, vertical)).layers[l];
    assert p in Apply(s, SetEnabled(p, on)).layers[l];
  }

  /** The run of the GUI one step on: where the port stands and whether it was turned freely. */
  lemma {:induction false} TurnsFreelyPush<P>(s: GuiState<P>, before: seq<GuiStep<P>>, last: GuiStep<P>, p: P)
    requires WellFormed(s)
    ensures GuiRun(s, before + [last]) == Apply(GuiRun(s, before), last)
    ensures TurnsFreely(s, before + [last], p)
       <==> TurnsFreely(s, before, p)
            && ((p in GuiRun(s, before).vertical) != (p in GuiRun(s, before + [last]).vertical)
                ==> !SomeArrows(KeysDown(RawStream(s, before, p))))
  {
    assert (before + [last])[..|before|] == before;
  }

  /** What the acts establish of the port: it stands as told, and is turned freely if the switches are free. */
  ghost predicate Follows<P, V>(s: GuiState<P>, steps: seq<GuiStep<P>>, p: P, vertical: bool, free: bool)
    requires WellFormed(s)
  {
    PortStands(GuiRun(s, steps), p, vertical) && (TurnsFreely(s, steps, p) <==> free)
  }

  lemma {:induction false} ElsewhereFollows<P, V>(s: GuiState<P>, steps: seq<GuiStep<P>>, step: GuiStep<P>, p: P,
                                                  vertical: bool, free: bool)
    requires WellFormed(s) && Follows<P, V>(s, steps, p, vertical, free)
    requires SparesPort(step, p)
    ensures Follows<P, V>(s, steps + [step], p, vertical, free)
  {
    ElsewhereKeepsPort(GuiRun(s, steps), step, p, vertical);
    TurnsFreelyPush(s, steps, step, p);
  }

  lemma {:induction false} EnablingFollows<P, V>(s: GuiState<P>, steps: seq<GuiStep<P>>, p: P, on: bool, vertical: bool,
                                                 free: bool)
    requires WellFormed(s) && Follows<P, V>(s, steps, p, vertical, free)
    ensures Follows<P, V>(s, steps + [SetEnabled(p, on)], p, vertical, free)
  {
    SwitchTurnsPort(GuiRun(s, steps), p, vertical, on);
    TurnsFreelyPush(s, steps, SetEnabled(p, on), p);
  }

  lemma {:induction false} TurningFollows<P, V>(s: GuiState<P>, steps: seq<GuiStep<P>>, p: P, stood: bool, vertical: bool,
                                                free: bool)
    requires WellFormed(s) && Follows<P, V>(s, steps, p, stood, free)
    ensures Follows<P, V>(s, steps + [SetOrientation(p, vertical)], p, vertical,
                          free && (vertical != stood ==> !SomeArrows(KeysDown(RawStream(s, steps, p)))))
  {
    SwitchTurnsPort(GuiRun(s, steps), p, vertical, true);
    TurnsFreelyPush(s, steps, SetOrientation(p, vertical), p);
  }

  lemma {:induction false} ShowFollows<P, V>(s: GuiState<P>, steps: seq<GuiStep<P>>, p: P, stood: bool, vertical: bool,
                                             free: bool)
    requires WellFormed(s) && Follows<P, V>(s, steps, p, stood, free)
    ensures Follows<P, V>(s, steps + [SetOrientation(p, vertical)] + [SetEnabled(p, true)], p, vertical,
                          free && (vertical != stood ==> !SomeArrows(KeysDown(RawStream(s, steps, p)))))
  {
    TurningFollows<P, V>(s, steps, p, stood, vertical, free);
    EnablingFollows<P, V>(s, steps + [SetOrientation(p, vertical)], p, true, vertical,
                          free && (vertical != stood ==> !SomeArrows(KeysDown(RawStream(s, steps, p)))));
  }

  /** One act more. */
  lemma {:induction false} ActFollows<P, V>(s: GuiState<P>, steps: seq<GuiStep<P>>, act: Act<P, V>, shown: Option<V>, p: P,
                                            vertical: V -> bool, stood: bool, free: bool)
    requires WellFormed(s) && Follows<P, V>(s, steps, p, stood, free) && LeavesPort(act, p)
    ensures Follows<P, V>(s, steps + Asks(act, shown, p, vertical), p,
                          if act.Show? && act.view.Some? then vertical(act.view.value) else stood,
                          free && (act.Show? && act.view.Some? && vertical(act.view.value) != stood ==>
                                     !SomeArrows(KeysDown(RawStream(s, steps, p)))))
  {
    var asks := Asks(act, shown, p, vertical);
    if act.Elsewhere? {
      ElsewhereFollows<P, V>(s, steps, act.step, p, stood, free);
    } else if act.Show? && act.view.Some? {
      ShowFollows<P, V>(s, steps, p, stood, vertical(act.view.value), free);
      assert steps + asks == steps + [SetOrientation(p, vertical(act.view.value))] + [SetEnabled(p, true)];
    } else if asks == [] {
      assert steps + asks == steps;
    } else {
      EnablingFollows<P, V>(s, steps, p, false, stood, free);
    }
  }

  /**
   Over every run of GUI and dispatcher together: the port stands as the view
   last shown wants it, and it is turned freely exactly when no view that wants
   it turned is shown while some of its arrows, but not all four, are down.
   */
  lemma {:induction false} TurnsFreelyExactlyWhen<P, V>(s: GuiState<P>, acts: seq<Act<P, V>>, p: P, vertical: V -> bool)
    requires WellFormed(s) && Registered(s, p) && forall a | a in acts :: LeavesPort(a, p)
    ensures (p in GuiRun(s, GuiOf(acts, p, vertical)).vertical) == Stands(acts, vertical, p in s.vertical)
    ensures TurnsFreely(s, GuiOf(acts, p, vertical), p) <==> SwitchesFreely(s, acts, p, vertical)
  {
    ActsFollow(s, acts, p, vertical);
  }

  lemma {:induction false} ActsFollow<P, V>(s: GuiState<P>, acts: seq<Act<P, V>>, p: P, vertical: V -> bool)
    requires WellFormed(s) && Registered(s, p) && forall a | a in acts :: LeavesPort(a, p)
    ensures Follows<P, V>(s, GuiOf(acts, p, vertical), p, Stands(acts, vertical, p in s.vertical),
                          SwitchesFreely(s, acts, p, vertical))
  {
    if acts != [] {
      var before, last := acts[..|acts| - 1], acts[|acts| - 1];
      assert last in acts;
      ActsFollow(s, before, p, vertical);
      ActFollows(s, GuiOf(before, p, vertical), last, Shown(before), p, vertical, Stands(before, vertical, p in s.vertical),
                 SwitchesFreely(s, before, p, vertical));
    }
  }

  // ----- whether the port is enabled -----

  /** The port is enabled exactly as told, and registered. */
  ghost predicate Enables<P>(s: GuiState<P>, p: P, on: bool) {
    Registered(s, p) && (p in s.enabled <==> on)
  }

  lemma {:induction false} ElsewhereEnables<P>(s: GuiState<P>, step: GuiStep<P>, p: P, on: bool)
    requires WellFormed(s) && Enables(s, p, on) && SparesPort(step, p) && (step.SetEnabled? ==> step.port != p)
    ensures Enables(Apply(s, step), p, on)
  {
    if Legal(s, step) {
      StaysRegistered(s, step, p);
    }
  }

  lemma {:induction false} SwitchEnables<P>(s: GuiState<P>, p: P, vertical: bool, was: bool, on: bool)
    requires WellFormed(s) && Enables(s, p, was)
    ensures Enables(Apply(s, SetOrientation(p, vertical)), p, was)
    ensures Enables(Apply(s, SetEnabled(p, on)), p, on)
  {
    SwitchTurnsPort(s, p, vertical, on);
  }

  lemma {:induction false} ActEnables<P, V>(s: GuiState<P>, steps: seq<GuiStep<P>>, act: Act<P, V>, shown: Option<V>, p: P,
                                            vertical: V -> bool)
    requires WellFormed(s) && Enables(GuiRun(s, steps), p, shown.Some?) && LeavesPort(act, p)
    requires act.Elsewhere? && act.step.SetEnabled? ==> act.step.port != p
    ensures Enables(GuiRun(s, steps + Asks(act, shown, p, vertical)), p,
                    match act
                    case Show(view) => view.Some?
                    case Unregister(gone) => shown.Some? && shown != Some(gone)
                    case _ => shown.Some?)
  {
    var asks, g := Asks(act, shown, p, vertical), GuiRun(s, steps);
    if |asks| == 2 {
      TurnsFreelyPush(s, steps, asks[0], p);
      TurnsFreelyPush(s, steps + [asks[0]], asks[1], p);
      assert steps + asks == steps + [asks[0]] + [asks[1]];
      SwitchEnables(g, p, vertical(act.view.value), shown.Some?, true);
      SwitchEnables(Apply(g, asks[0]), p, true, shown.Some?, true);
    } else if asks == [] {
      assert steps + asks == steps;
    } else {
      TurnsFreelyPush(s, steps, asks[0], p);
      assert asks == [asks[0]];
      if act.Elsewhere? {
        ElsewhereEnables(g, act.step, p, shown.Some?);
      } else {
        SwitchEnables(g, p, true, shown.Some?, false);
      }
    }
  }

  /** Over every run, the dispatcher's port is enabled exactly while a view is shown. */
  lemma {:induction false} EnabledWhileShown<P, V>(s: GuiState<P>, acts: seq<Act<P, V>>, p: P, vertical: V -> bool)
    requires WellFormed(s) && Enables(s, p, false) && forall a | a in acts :: LeavesPort(a, p)
    requires forall a | a in acts :: a.Elsewhere? && a.step.SetEnabled? ==> a.step.port != p
    ensures Enables(GuiRun(s, GuiOf(acts, p, vertical)), p, Shown(acts).Some?)
  {
    if acts != [] {
      var before, last := acts[..|acts| - 1], acts[|acts| - 1];
      assert last in acts;
      EnabledWhileShown(s, before, p, vertical);
      ActEnables(s, GuiOf(before, p, vertical), last, Shown(before), p, vertical);
    }
  }

  // ----- the whole pipeline in one run -----

  /** Each event routed is the service's next, and each event handled is the next one the port was given. */
  ghost predicate Fed<P, V>(trace: seq<Event>, s: GuiState<P>, acts: seq<Act<P, V>>, p: P, vertical: V -> bool)
    requires WellFormed(s)
  {
    acts == [] ||
    var before, last := acts[..|acts| - 1], acts[|acts| - 1];
    && Fed(trace, s, before, p, vertical)
    && (last.Elsewhere? && last.step.Input? ==> GuiInputs(GuiOf(before, p, vertical)) + [last.step.event] <= trace)
    && (last.Take? ==> Inputs(ViewsOf(before)) + [last.event] <= PortStream(s, GuiOf(before, p, vertical), p))
  }

  lemma {:induction false} QuietStep<P>(s: GuiState<P>, before: seq<GuiStep<P>>, step: GuiStep<P>, p: P)
    requires WellFormed(s)
    ensures PortStream(s, before, p) <= PortStream(s, before + [step], p)
    ensures GuiInputs(before + [step]) == GuiInputs(before) + if step.Input? then [step.event] else []
  {
    PortStreamPush(s, before, step, p);
    LatchStepsPush(s, before, step);
  }

  /** An act lets the port's stream grow, and takes an event off the service's queue only to route it. */
  lemma {:induction false} AskGrows<P, V>(s: GuiState<P>, before: seq<GuiStep<P>>, act: Act<P, V>, shown: Option<V>, p: P,
                                          vertical: V -> bool)
    requires WellFormed(s)
    ensures var after := before + Asks(act, shown, p, vertical);
            && PortStream(s, before, p) <= PortStream(s, after, p)
            && GuiInputs(after)
               == GuiInputs(before) + if act.Elsewhere? && act.step.Input? then [act.step.event] else []
  {
    var asks := Asks(act, shown, p, vertical);
    if |asks| == 2 {
      QuietStep(s, before, asks[0], p);
      QuietStep(s, before + [asks[0]], asks[1], p);
      assert before + asks == before + [asks[0]] + [asks[1]];
    } else if |asks| == 1 {
      QuietStep(s, before, asks[0], p);
      assert before + asks == before + [asks[0]];
    } else {
      assert before + asks == before;
    }
  }

  lemma {:induction false} TakesOn<P, V>(acts: seq<Act<P, V>>)
    requires acts != []
    ensures var before, last := acts[..|acts| - 1], acts[|acts| - 1];
            Inputs(ViewsOf(acts)) == Inputs(ViewsOf(before)) + if last.Take? then [last.event] else []
  {
    var before, last := acts[..|acts| - 1], acts[|acts| - 1];
    var views := ViewsOf(before);
    match last
    case Take(e) => RunPush(Idle<V>(), views, Arrive(Shown(before), e));
    case Unregister(gone) => RunPush(Idle<V>(), views, Forget(gone));
    case _ => assert ViewsOf(acts) == views;
  }

  lemma {:induction false} FedKeepsOrder<P, V>(trace: seq<Event>, s: GuiState<P>, acts: seq<Act<P, V>>, p: P,
                                               vertical: V -> bool)
    requires WellFormed(s) && Fed(trace, s, acts, p, vertical)
    ensures GuiInputs(GuiOf(acts, p, vertical)) <= trace
    ensures Inputs(ViewsOf(acts)) <= PortStream(s, GuiOf(acts, p, vertical), p)
  {
    if acts != [] {
      var before, last := acts[..|acts| - 1], acts[|acts| - 1];
      FedKeepsOrder(trace, s, before, p, vertical);
      AskGrows(s, GuiOf(before, p, vertical), last, Shown(before), p, vertical);
      TakesOn(acts);
    }
  }

  lemma {:induction false} AsksNoRemoval<P, V>(act: Act<P, V>, shown: Option<V>, p: P, vertical: V -> bool)
    requires LeavesPort(act, p)
    ensures Remove(p) !in Asks(act, shown, p, vertical)
  {
  }

  lemma {:induction false} ActsKeep<P, V>(acts: seq<Act<P, V>>, p: P, vertical: V -> bool, v: V)
    requires (forall a | a in acts :: LeavesPort(a, p)) && Unregister(v) !in acts
    ensures Remove(p) !in GuiOf(acts, p, vertical) && Keeps(ViewsOf(acts), v)
  {
    if acts != [] {
      var last := acts[|acts| - 1];
      assert last in acts;
      ActsKeep(acts[..|acts| - 1], p, vertical, v);
      AsksNoRemoval(last, Shown(acts[..|acts| - 1]), p, vertical);
    }
  }

  /**
   No stuck key, in terms of the views: if no view that wants the port turned is
   shown while some of its arrows are down, then once all is at rest every press
   a view saw was followed by that key's release to it.
   */
  lemma {:induction false} NoKeyStuckByViews<P, V>(
    bootHeld: set<Key>, pins: seq<Service.Step>,
    s: GuiState<P>, acts: seq<Act<P, V>>, p: P, vertical: V -> bool, v: V)
    requires WellFormed(s) && s.latch == Idle() && Registered(s, p)
    requires (forall a | a in acts :: LeavesPort(a, p)) && Unregister(v) !in acts
    requires Fed(Wrapped(Service.Trace(bootHeld, pins)), s, acts, p, vertical) && SwitchesFreely(s, acts, p, vertical)
    requires AtRest(bootHeld, pins, s, GuiOf(acts, p, vertical), p, ViewsOf(acts))
    ensures var es := ViewStream(ViewsOf(acts), v);
            KeysDown(es) == {} && forall i :: 0 <= i < |es| && es[i].kind == Press ==> ReleasedLater(es, i)
  {
    var gui, views := GuiOf(acts, p, vertical), ViewsOf(acts);
    FedKeepsOrder(Wrapped(Service.Trace(bootHeld, pins)), s, acts, p, vertical);
    TurnsFreelyExactlyWhen(s, acts, p, vertical);
    ActsKeep(acts, p, vertical, v);
    NoStuckKey(bootHeld, pins, s, gui, p, views, v);
  }

  /** In particular it is enough that all views shown want the port as it stands. */
  lemma {:induction false} AlikeViewsSwitchFreely<P, V>(s: GuiState<P>, acts: seq<Act<P, V>>, p: P, vertical: V -> bool)
    requires WellFormed(s)
    requires forall a | a in acts :: a.Show? && a.view.Some? ==> vertical(a.view.value) == (p in s.vertical)
    ensures SwitchesFreely(s, acts, p, vertical) && Stands(acts, vertical, p in s.vertical) == (p in s.vertical)
  {
    if acts != [] {
      assert acts[|acts| - 1] in acts;
      AlikeViewsSwitchFreely(s, acts[..|acts| - 1], p, vertical);
    }
  }
}
