/**
 The view dispatcher: routes the events of one view port among its views, with
 the same latch as the GUI.  A ghost history of latch steps ties every method to
 InputLatch, whose theorems then hold of every dispatcher.
 */
module ViewDispatching {
  import opened Options
  import opened Keys
  import opened InputLatch
  import opened GuiService

  const VIEW_NONE: nat := 0xFFFF_FFFF
  const VIEW_IGNORE: nat := 0xFFFF_FFFE

  class View {
    var vertical: bool

    constructor (vertical: bool)
      ensures this.vertical == vertical
    {
      this.vertical := vertical;
    }
  }

  datatype Message = InputMessage(event: Event) | CustomMessage(custom: nat) | StopMessage

  /** What the callbacks answer to an event: the view, its previous callback, the navigation callback. */
  datatype Reply = Reply(consumed: bool, previous: nat, navigated: Option<bool>)

  datatype Transition = Exit(view: View) | Enter(view: View)

  /** Where `view_dispatcher_run` stands. */
  datatype Mode = Running | Draining | Returned

  function AsTarget(v: View?): Option<View> {
    if v == null then None else Some(v)
  }

  /** The event leaves the view unconsumed and asks to go back. */
  predicate AsksBack(e: Event, reply: Reply) {
    !reply.consumed && e.key == Back && (e.kind == Short || e.kind == Long)
  }

  ghost function Swallowed(messages: seq<Message>): (steps: seq<Step<View>>)
    ensures forall s | s in steps :: s.Swallow?
  {
    if messages == [] then [] else
      var last := messages[|messages| - 1];
      Swallowed(messages[..|messages| - 1]) + if last.InputMessage? then [Swallow(last.event)] else []
  }

  /** The input events among the messages. */
  function EventsOf(messages: seq<Message>): seq<Event> {
    if messages == [] then []
    else if messages[0].InputMessage? then [messages[0].event] + EventsOf(messages[1..])
    else EventsOf(messages[1..])
  }

  lemma {:induction false} EventsOfPush(messages: seq<Message>, m: Message)
    ensures m.InputMessage? ==> EventsOf(messages + [m]) == EventsOf(messages) + [m.event]
    ensures !m.InputMessage? ==> EventsOf(messages + [m]) == EventsOf(messages)
  {
    if messages == [] {
      assert [] + [m] == [m] && EventsOf([m][1..]) == [];
    } else {
      EventsOfPush(messages[1..], m);
      assert (messages + [m])[1..] == messages[1..] + [m];
    }
  }

  lemma {:induction false} SwallowOne(steps: seq<Step<View>>, swallowed: seq<Step<View>>, events: seq<Event>, e: Event)
    requires Inputs(steps + swallowed) == Inputs(steps) + events
    ensures Inputs(steps + (swallowed + [Swallow(e)])) == Inputs(steps) + (events + [e])
  {
    RunPush(Idle<View>(), steps + swallowed, Swallow(e));
    assert steps + (swallowed + [Swallow(e)]) == steps + swallowed + [Swallow(e)];
    assert Inputs(steps) + (events + [e]) == Inputs(steps) + events + [e];
  }

  /** Swallowing takes note of every input event among the messages. */
  lemma {:induction false} SwallowsEveryInput(steps: seq<Step<View>>, messages: seq<Message>)
    ensures Inputs(steps + Swallowed(messages)) == Inputs(steps) + EventsOf(messages)
  {
    if messages == [] {
      assert steps + [] == steps && Inputs(steps) + [] == Inputs(steps);
    } else {
      var most, last := messages[..|messages| - 1], messages[|messages| - 1];
      SwallowsEveryInput(steps, most);
      EventsOfPush(most, last);
      assert most + [last] == messages;
      if last.InputMessage? {
        SwallowOne(steps, Swallowed(most), EventsOf(most), last.event);
        assert Swallowed(messages) == Swallowed(most) + [Swallow(last.event)];
      } else {
        assert Swallowed(messages) == Swallowed(most);
      }
    }
  }

  /** After messages have been swallowed the keys held are those that all events so far have down. */
  lemma {:induction false} SwallowedKeysAreDown(steps: seq<Step<View>>, messages: seq<Message>)
    ensures Run(Idle(), steps + Swallowed(messages)).held == KeysDown(Inputs(steps) + EventsOf(messages))
  {
    SwallowsEveryInput(steps, messages);
    HeldIsKeysDown(steps + Swallowed(messages));
  }

  /** A key is held after the first `m` messages have been swallowed. */
  ghost predicate StillHeld(steps: seq<Step<View>>, messages: seq<Message>, m: nat)
    requires m <= |messages|
  {
    Run(Idle(), steps + Swallowed(messages[..m])).held != {}
  }

  class ViewDispatcher {
    var hasQueue: bool
    var queue: seq<Message>
    var viewPort: ViewPort
    var views: map<nat, View>
    var currentView: View?
    var ongoingInputView: View?
    var ongoingInput: bv8
    var mode: Mode
    ghost var steps: seq<Step<View>>
    ghost var log: seq<Delivery<View>>
    ghost var transitions: seq<Transition>

    ghost function LatchState(): Latch<View>
      reads this`ongoingInput, this`ongoingInputView
    {
      Latch(KeysOf(ongoingInput), AsTarget(ongoingInputView))
    }

    /** The fields and the deliveries are those of the latch run on the recorded history. */
    ghost predicate FollowsLatch()
      reads this`ongoingInput, this`ongoingInputView, this`steps, this`log
    {
      && IsKeyMask(ongoingInput)
      && LatchState() == Run(Idle(), steps)
      && log == Log(Idle(), steps)
    }

    /** Only registered views are shown or latched; the shown view is the one last entered. */
    ghost predicate ShowsRegistered()
      reads this`currentView, this`ongoingInputView, this`views, this`transitions
    {
      && (currentView != null ==> currentView in views.Values)
      && (ongoingInputView != null ==> ongoingInputView in views.Values)
      && (currentView == null ==> transitions == [] || transitions[|transitions| - 1].Exit?)
      && (currentView != null ==> transitions != [] && transitions[|transitions| - 1] == Enter(currentView))
    }

    ghost predicate Valid()
      reads this
    {
      FollowsLatch() && ShowsRegistered()
    }

    constructor (queued: bool)
      ensures Valid() && fresh(viewPort) && hasQueue == queued && queue == [] && mode == Running
      ensures currentView == null && steps == [] && !viewPort.isEnabled && views == map[]
    {
      viewPort := new ViewPort();
      hasQueue, queue, views := queued, [], map[];
      currentView, ongoingInputView, ongoingInput, mode := null, null, 0, Running;
      steps, log, transitions := [], [], [];
      new;
      viewPort.SetEnabled(false);
      EmptyMask(0);
    }

    /** Posts the stop message. */
    method Stop()
      requires hasQueue
      modifies this`queue
      ensures queue == old(queue) + [StopMessage]
    {
      queue := queue + [StopMessage];
    }

    /** Turns the port for the view, enters it, and shows the port. */
    method Show(view: View)
      modifies this`transitions, viewPort`vertical, viewPort`isEnabled, viewPort.Owner()`redrawRequested
      ensures transitions == old(transitions) + [Enter(view)]
      ensures viewPort.isEnabled && viewPort.vertical == view.vertical
      ensures viewPort.gui != null ==> viewPort.gui.redrawRequested
    {
      viewPort.SetOrientation(view.vertical);
      transitions := transitions + [Enter(view)];
      viewPort.SetEnabled(true);
      viewPort.Update();
    }

    /** Leaves the current view and enters another; showing none disables the port and stops the loop. */
    method SetCurrentView(view: View?)
      requires Valid() && (view != null ==> view in views.Values)
      modifies this`currentView, this`transitions, this`queue
      modifies viewPort`vertical, viewPort`isEnabled, viewPort.Owner()`redrawRequested
      ensures Valid() && currentView == view
      ensures transitions == old(transitions)
                             + (if old(currentView) != null then [Exit(old(currentView))] else [])
                             + (if view != null then [Enter(view)] else [])
      ensures viewPort.isEnabled == (view != null)
      ensures viewPort.vertical == if view != null then view.vertical else old(viewPort.vertical)
      ensures view != null && viewPort.gui != null ==> viewPort.gui.redrawRequested
      ensures queue == old(queue) + if view == null && hasQueue then [StopMessage] else []
    {
      if currentView != null {
        transitions := transitions + [Exit(currentView)];
      }
      currentView := view;
      if view != null {
        Show(view);
      } else {
        viewPort.SetEnabled(false);
        if hasQueue {
          Stop();
        }
      }
    }

    method SwitchToView(id: nat)
      requires Valid() && (id in views || id == VIEW_NONE || id == VIEW_IGNORE)
      modifies this`currentView, this`transitions, this`queue
      modifies viewPort`vertical, viewPort`isEnabled, viewPort.Owner()`redrawRequested
      ensures Valid()
      ensures currentView == if id == VIEW_NONE then null else if id == VIEW_IGNORE then old(currentView) else views[id]
      ensures queue == old(queue) + if id == VIEW_NONE && hasQueue then [StopMessage] else []
      ensures id == VIEW_IGNORE ==> transitions == old(transitions)
    {
      if id == VIEW_NONE {
        SetCurrentView(null);
      } else if id != VIEW_IGNORE {
        SetCurrentView(views[id]);
      }
    }

    method AddView(id: nat, view: View)
      requires Valid() && id !in views
      modifies this`views
      ensures Valid() && views == old(views)[id := view]
    {
      ghost var before := views;
      views := views[id := view];
      assert forall v | v in before.Values :: v in views.Values by {
        forall v | v in before.Values
          ensures v in views.Values
        {
          var k :| k in before && before[k] == v;
          assert views[k] == v;
        }
      }
    }

    /** A view that goes away is no longer latched. */
    method ForgetView(view: View)
      requires FollowsLatch()
      modifies this`ongoingInputView, this`steps
      ensures FollowsLatch() && steps == old(steps) + [Forget(view)]
      ensures ongoingInputView == if old(ongoingInputView) == view then null else old(ongoingInputView)
    {
      RunPush(Idle(), steps, Forget(view));
      if ongoingInputView == view {
        ongoingInputView := null;
      }
      steps := steps + [Forget(view)];
    }

    /** A removed view is neither shown nor sent anything any more. */
    method RemoveView(id: nat)
      requires Valid() && id in views
      modifies this`views, this`currentView, this`ongoingInputView, this`transitions, this`queue, this`steps,
               viewPort`vertical, viewPort`isEnabled, viewPort.Owner()`redrawRequested
      ensures Valid() && views == old(views) - {id}
      ensures steps == old(steps) + [Forget(old(views[id]))]
      ensures currentView == if old(currentView) == old(views[id]) then null else old(currentView)
      ensures queue == old(queue) + if old(currentView) == old(views[id]) && hasQueue then [StopMessage] else []
    {
      var view := views[id];
      if currentView == view {
        SetCurrentView(null);
      }
      ForgetView(view);
      ghost var before := views;
      views := views - {id};
      OthersStay(before, id);
    }

    static lemma {:induction false} OthersStay(views: map<nat, View>, id: nat)
      requires id in views
      ensures forall v :: v in views.Values && v != views[id] ==> v in (views - {id}).Values
    {
      forall v | v in views.Values && v != views[id]
        ensures v in (views - {id}).Values
      {
        var k :| k in views && views[k] == v;
        assert (views - {id})[k] == v;
      }
    }

    /** Tracks the held keys and latches the current view on the first press. */
    method TrackKeys(e: Event) returns (accepted: bool)
      requires IsKeyMask(ongoingInput)
      modifies this`ongoingInput, this`ongoingInputView
      ensures IsKeyMask(ongoingInput)
      ensures LatchState() == Next(old(LatchState()), Arrive(AsTarget(currentView), e))
      ensures ongoingInputView in {old(ongoingInputView), currentView}
      ensures accepted <==> e.kind == Press || e.kind == Release || e.key in old(LatchState()).held
    {
      ongoingInput, accepted := TrackHeld(ongoingInput, e);
      if accepted && OnlyKey(ongoingInput, e.key) && e.kind == Press {
        ongoingInputView := currentView;
      }
    }

    /** Hands an event to the current view, or a release to the latched one. */
    method Route(e: Event) returns (shown: bool)
      requires FollowsLatch()
      modifies this`ongoingInput, this`ongoingInputView, this`steps, this`log
      ensures FollowsLatch()
      ensures steps == old(steps) + [Arrive(AsTarget(currentView), e)]
      ensures ongoingInputView in {old(ongoingInputView), currentView}
      ensures shown <==> currentView != null && old(Receiver(LatchState(), AsTarget(currentView), e)) == AsTarget(currentView)
    {
      ghost var step, before := Arrive(AsTarget(currentView), e), LatchState();
      RunPush(Idle(), steps, step);
      var accepted := TrackKeys(e);
      shown := accepted && currentView != null && ongoingInputView == currentView;
      if shown {
        log := log + [Delivery(currentView, e)];
      } else if accepted && ongoingInputView != null && e.kind == Release {
        log := log + [Delivery(ongoingInputView, e)];
      } else {
        assert Emits(before, step) == [];
      }
      steps := steps + [step];
    }

    /** Routes one event of the port, then navigates back if the view asks for it. */
    method HandleInput(e: Event, reply: Reply)
      requires Valid() && (reply.navigated == Some(false) ==> hasQueue)
      requires reply.previous in views || reply.previous == VIEW_NONE || reply.previous == VIEW_IGNORE
      modifies this`ongoingInput, this`ongoingInputView, this`currentView, this`transitions, this`queue,
               this`steps, this`log, viewPort`vertical, viewPort`isEnabled, viewPort.Owner()`redrawRequested
      ensures Valid()
      ensures steps == old(steps) + [Arrive(AsTarget(old(currentView)), e)]
      ensures var back := && AsksBack(e, reply) && old(currentView) != null
                          && old(Receiver(LatchState(), AsTarget(currentView), e)) == AsTarget(old(currentView));
              if back && reply.previous != VIEW_IGNORE then
                && currentView == (if reply.previous == VIEW_NONE then null else views[reply.previous])
                && queue == old(queue) + (if reply.previous == VIEW_NONE && hasQueue then [StopMessage] else [])
              else
                && currentView == old(currentView) && transitions == old(transitions)
                && queue == old(queue) + (if back && reply.navigated == Some(false) then [StopMessage] else [])
      // consumed, or no Short or Long of Back: no navigation
      ensures reply.consumed || e.key != Back || (e.kind != Short && e.kind != Long) ==>
                currentView == old(currentView) && transitions == old(transitions) && queue == old(queue)
      // not reaching the view in front: none either
      ensures old(currentView) == null || old(ongoingInputView) != old(currentView) || Back !in old(KeysOf(ongoingInput)) ==>
                currentView == old(currentView) && transitions == old(transitions) && queue == old(queue)
      // an unconsumed Short or Long of Back that reaches it: to the view named, to none, or a stop if the callback says so
      ensures !reply.consumed && e.key == Back && (e.kind == Short || e.kind == Long)
              && old(currentView) != null && old(ongoingInputView) == old(currentView) && Back in old(KeysOf(ongoingInput)) ==>
                && (reply.previous !in {VIEW_NONE, VIEW_IGNORE} ==>
                      currentView == views[reply.previous] && queue == old(queue))
                && (reply.previous == VIEW_NONE ==>
                      currentView == null && queue == old(queue) + if hasQueue then [StopMessage] else [])
                && (reply.previous == VIEW_IGNORE ==>
                      currentView == old(currentView) && transitions == old(transitions)
                      && queue == old(queue) + if reply.navigated == Some(false) then [StopMessage] else [])
    {
      var shown := Route(e);
      if shown && AsksBack(e, reply) {
        if reply.previous != VIEW_IGNORE {
          SwitchToView(reply.previous);
        } else if reply.navigated == Some(false) {
          Stop();
        }
      }
    }

    /** One turn of the message loop, when a message is waiting. */
    method TakeMessage(reply: Reply)
      requires Valid() && hasQueue && mode == Running && queue != []
      requires reply.previous in views || reply.previous == VIEW_NONE || reply.previous == VIEW_IGNORE
      modifies this`ongoingInput, this`ongoingInputView, this`currentView, this`transitions, this`queue,
               this`steps, this`log, this`mode, viewPort`vertical, viewPort`isEnabled, viewPort.Owner()`redrawRequested
      ensures Valid()
      ensures var message := old(queue)[0];
              && (mode == Draining <==> message == StopMessage) && mode != Returned
              && steps == old(steps) + (if message.InputMessage?
                                        then [Arrive(AsTarget(old(currentView)), message.event)] else [])
              && old(queue)[1..] <= queue
              && (!message.InputMessage? ==>
                    queue == old(queue)[1..] && currentView == old(currentView) && transitions == old(transitions)
                    && log == old(log))
    {
      var message := queue[0];
      queue := queue[1..];
      match message {
        case StopMessage => mode := Draining;
        case InputMessage(e) => HandleInput(e, reply);
        case CustomMessage(_) =>
      }
    }

    /** Takes a message off the queue without delivering it; only the held keys are tracked. */
    method SwallowMessage()
      requires FollowsLatch() && queue != []
      modifies this`ongoingInput, this`queue, this`steps
      ensures FollowsLatch() && queue == old(queue)[1..]
      ensures steps == old(steps) + Swallowed([old(queue)[0]])
    {
      var message := queue[0];
      queue := queue[1..];
      if message.InputMessage? {
        RunPush(Idle(), steps, Swallow(message.event));
        var updated, _ := TrackHeld(ongoingInput, message.event);
        ongoingInput := updated;
        steps := steps + [Swallow(message.event)];
      }
      assert Swallowed([]) == [];
    }

    /** `n` of the messages found at the stop have been swallowed, each while a key was held. */
    ghost predicate Drained(was: seq<Step<View>>, messages: seq<Message>, n: nat)
      reads this`queue, this`steps
    {
      && n <= |messages| && queue == messages[n..]
      && steps == was + Swallowed(messages[..n])
      && forall m :: 0 <= m < n ==> StillHeld(was, messages, m)
    }

    lemma NothingDrained()
      ensures Drained(steps, queue, 0)
    {
      assert steps + Swallowed(queue[..0]) == steps;
    }

    method DrainOne(ghost was: seq<Step<View>>, ghost messages: seq<Message>, ghost n: nat)
      requires FollowsLatch() && Drained(was, messages, n) && queue != [] && KeysOf(ongoingInput) != {}
      modifies this`ongoingInput, this`queue, this`steps
      ensures FollowsLatch() && Drained(was, messages, n + 1) && |queue| < |old(queue)|
      ensures ongoingInput == 0 <==> KeysOf(ongoingInput) == {}
    {
      assert StillHeld(was, messages, n);
      SwallowedNext(was, messages, n);
      SwallowMessage();
      EmptyMask(ongoingInput);
    }

    /** After the stop: swallows messages until no key is held, as far as the queue goes. */
    method Drain()
      requires Valid() && mode == Draining
      modifies this`ongoingInput, this`queue, this`steps, this`mode
      ensures Valid() && log == old(log) && |queue| <= |old(queue)|
      ensures Drained(old(steps), old(queue), |old(queue)| - |queue|)
      ensures mode == Returned <==> KeysOf(ongoingInput) == {}
      ensures mode != Returned ==> mode == Draining && queue == []
    {
      ghost var messages, was, n := queue, steps, 0;
      EmptyMask(ongoingInput);
      NothingDrained();
      while ongoingInput != 0 && queue != []
        invariant FollowsLatch() && log == old(log) && mode == Draining
        invariant Drained(was, messages, n)
        invariant ongoingInput == 0 <==> KeysOf(ongoingInput) == {}
        decreases |queue|
      {
        DrainOne(was, messages, n);
        n := n + 1;
      }
      if ongoingInput == 0 {
        mode := Returned;
      }
    }
  }

  lemma {:induction false} SwallowedNext(was: seq<Step<View>>, messages: seq<Message>, n: nat)
    requires n < |messages|
    ensures was + Swallowed(messages[..n + 1]) == was + Swallowed(messages[..n]) + Swallowed([messages[n]])
    ensures messages[n..][0] == messages[n] && messages[n..][1..] == messages[n + 1..]
  {
    SwallowedPush(messages[..n], messages[n]);
    assert messages[..n + 1] == messages[..n] + [messages[n]];
  }

  lemma {:induction false} SwallowedPush(messages: seq<Message>, m: Message)
    ensures Swallowed(messages + [m]) == Swallowed(messages) + Swallowed([m])
  {
    assert (messages + [m])[..|messages|] == messages;
    assert [m][..0] == [];
  }
}
