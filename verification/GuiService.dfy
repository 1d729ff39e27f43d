/**
 The GUI service and its view ports as the objects the firmware mutates.  Each
 method is tied to the value-level step of the same name in GuiRouting.
 */
module GuiService {
  import opened Options
  import opened Keys
  import opened InputLatch
  import opened GuiRouting

  class InputEvent {
    var sequence: nat
    var key: Key
    var kind: EventType

    constructor (e: Event)
      ensures Value() == e
    {
      sequence, key, kind := e.sequence, e.key, e.kind;
    }

    function Value(): Event
      reads this
    {
      Event(sequence, key, kind)
    }
  }

  class ViewPort {
    var gui: Gui?
    var isEnabled: bool
    var vertical: bool
    var hasInputCallback: bool
    ghost var received: seq<Event>  // the events the input callback was given

    constructor ()
      ensures gui == null && isEnabled && !vertical && !hasInputCallback && received == []
    {
      gui, isEnabled, vertical, hasInputCallback, received := null, true, false, false, [];
    }

    /** Rewrites the key of the event for a port that is held upright. */
    static method RotateButtons(event: InputEvent)
      modifies event
      ensures event.Value() == Rotate(old(event.Value()), true)
    {
      match event.key {
        case Up => event.key := Right;
        case Down => event.key := Left;
        case Right => event.key := Down;
        case Left => event.key := Up;
        case _ =>
      }
    }

    /** The GUI the port is in, if it is in one. */
    ghost function Owner(): set<Gui>
      reads this`gui
    {
      if gui == null then {} else {gui}
    }

    /** Asks for a redraw while the port is shown. */
    method Update()
      modifies Owner()`redrawRequested
      ensures gui != null ==> gui.redrawRequested == (old(gui.redrawRequested) || isEnabled)
    {
      if gui != null && isEnabled {
        gui.Update();
      }
    }

    /** Sets the flag, in the GUI's model too if the port is registered there. */
    method SetFlag(enabled: bool)
      modifies this`isEnabled
      ensures isEnabled == enabled
      ensures gui != null && old(gui.Valid()) && this in old(gui.Members()) ==>
                gui.Valid() && gui.Model() == GuiNext(old(gui.Model()), GuiStep.SetEnabled(this, enabled))
    {
      ghost var linked := gui != null && gui.Valid() && this in gui.Members();
      ghost var before := if linked then Some(gui.Model()) else None;
      isEnabled := enabled;
      if linked {
        gui.MembersAreRegistered();
        StepKeepsWellFormed(before.value, GuiStep.SetEnabled(this, enabled));
        assert gui.Model().enabled == Flag(before.value.enabled, this, enabled);
        assert gui.Model().vertical == before.value.vertical;
      }
    }

    /** A change of the flag asks for a redraw. */
    method SetEnabled(enabled: bool)
      modifies this`isEnabled, Owner()`redrawRequested
      ensures isEnabled == enabled
      ensures gui != null ==> gui.redrawRequested == (old(gui.redrawRequested) || old(isEnabled) != enabled)
      ensures gui != null && old(gui.Valid()) && this in old(gui.Members()) ==>
                gui.Valid() && gui.Model() == GuiNext(old(gui.Model()), GuiStep.SetEnabled(this, enabled))
    {
      var changes := isEnabled != enabled;
      SetFlag(enabled);
      if changes && gui != null {
        gui.Update();
      }
    }

    method SetOrientation(vertical: bool)
      modifies this`vertical
      ensures this.vertical == vertical
      ensures gui != null && old(gui.Valid()) && this in gui.Members() ==>
                gui.Valid() && gui.Model() == GuiNext(old(gui.Model()), GuiStep.SetOrientation(this, vertical))
    {
      ghost var linked := gui != null && gui.Valid() && this in gui.Members();
      ghost var before := if linked then Some(gui.Model()) else None;
      this.vertical := vertical;
      if linked {
        gui.MembersAreRegistered();
        StepKeepsWellFormed(before.value, GuiStep.SetOrientation(this, vertical));
        assert gui.Model().vertical == Flag(before.value.vertical, this, vertical);
        assert gui.Model().enabled == before.value.enabled;
      }
    }

    method Input(event: InputEvent)
      requires gui != null
      modifies this`received, event
      ensures hasInputCallback ==>
                && event.Value() == Rotate(old(event.Value()), vertical)
                && received == old(received) + [event.Value()]
      ensures !hasInputCallback ==> event.Value() == old(event.Value()) && received == old(received)
    {
      if hasInputCallback {
        if vertical {
          RotateButtons(event);
        }
        received := received + [event.Value()];
      }
    }
  }

  function AsOption(p: ViewPort?): Option<ViewPort> {
    if p == null then None else Some(p)
  }

  ghost function EnabledIn(layer: seq<ViewPort>): set<ViewPort>
    reads layer
  {
    set p | p in layer && p.isEnabled
  }

  lemma {:induction false} LastEnabledAgrees(layer: seq<ViewPort>, a: set<ViewPort>, b: set<ViewPort>)
    requires forall p | p in layer :: p in a <==> p in b
    ensures LastEnabled(layer, a) == LastEnabled(layer, b)
  {
    if layer != [] {
      LastEnabledAgrees(layer[..|layer| - 1], a, b);
    }
  }

  class Gui {
    var lockdown: bool
    var layers: seq<seq<ViewPort>>
    var ongoingInput: bv8
    var ongoingInputViewPort: ViewPort?
    var redrawRequested: bool  // the draw flag of the GUI thread

    ghost function Members(): set<ViewPort>
      reads this
    {
      set l, i | 0 <= l < |layers| && 0 <= i < |layers[l]| :: layers[l][i]
    }

    ghost function Model(): GuiState<ViewPort>
      reads this, Members()
    {
      GuiState(
        Latch(KeysOf(ongoingInput), AsOption(ongoingInputViewPort)),
        lockdown,
        layers,
        set p | p in Members() && p.isEnabled,
        set p | p in Members() && p.vertical)
    }

    ghost predicate Valid()
      reads this, Members()
    {
      && IsKeyMask(ongoingInput)
      && WellFormed(Model())
      && forall p | p in Members() :: p.gui == this
    }

    lemma MembersAreRegistered()
      ensures forall p: ViewPort :: p in Members() <==> InSomeLayer(layers, p)
    {
    }

    constructor ()
      ensures Valid() && Model() == GuiState(Idle(), false, [[], [], [], [], []], {}, {})
    {
      lockdown := false;
      layers := [[], [], [], [], []];
      ongoingInput := 0;
      ongoingInputViewPort := null;
      redrawRequested := false;
      new;
      EmptyMask(0);
      assert Model().enabled == {} && Model().vertical == {};
    }

    /** Asks for a redraw, which changes nothing else. */
    method Update()
      modifies this`redrawRequested
      ensures redrawRequested
      ensures Model() == old(Model()) && Members() == old(Members()) && (old(Valid()) ==> Valid())
    {
      redrawRequested := true;
      assert Members() == old(Members());
      assert Model().enabled == old(Model()).enabled && Model().vertical == old(Model()).vertical;
    }

    /** Runs an iterator backward over a layer. */
    method FindEnabled(layer: seq<ViewPort>) returns (r: ViewPort?)
      ensures AsOption(r) == LastEnabled(layer, EnabledIn(layer))
    {
      ghost var on := EnabledIn(layer);
      var it := |layer|;
      assert layer[..it] == layer;
      while it > 0
        invariant 0 <= it <= |layer|
        invariant LastEnabled(layer, on) == LastEnabled(layer[..it], on)
      {
        var p := layer[it - 1];
        assert p in layer;
        assert layer[..it][..it - 1] == layer[..it - 1];
        if p.isEnabled {
          return p;
        }
        it := it - 1;
      }
      return null;
    }

    lemma EnabledAgrees(l: nat)
      requires l < |layers|
      ensures LastEnabled(layers[l], EnabledIn(layers[l])) == LastEnabled(layers[l], Model().enabled)
    {
      LastEnabledAgrees(layers[l], EnabledIn(layers[l]), Model().enabled);
    }

    /** No port of the layer is enabled. */
    ghost predicate Dark(l: nat)
      requires l < |layers|
      reads this`layers, layers[l]
    {
      forall p | p in layers[l] :: !p.isEnabled
    }

    /** The port is the enabled one nearest the end of the layer. */
    ghost predicate Top(p: ViewPort, l: nat)
      requires l < |layers|
      reads this`layers, layers[l], p
    {
      p.isEnabled && exists i :: 0 <= i < |layers[l]| && layers[l][i] == p && ClearAbove(l, i)
    }

    ghost predicate ClearAbove(l: nat, i: nat)
      requires l < |layers|
      reads this`layers, layers[l]
    {
      forall j :: i < j < |layers[l]| ==> !layers[l][j].isEnabled
    }

    /** The port that input goes to first: of the full-screen, window and desktop layers the first that is not dark. */
    ghost predicate InFront(p: ViewPort)
      requires |layers| == LAYERS
      reads this`layers, this`lockdown, layers[DESKTOP], layers[WINDOW], layers[FULLSCREEN], p
    {
      if lockdown then Top(p, DESKTOP)
      else
        || Top(p, FULLSCREEN)
        || (Dark(FULLSCREEN) && Top(p, WINDOW))
        || (Dark(FULLSCREEN) && Dark(WINDOW) && Top(p, DESKTOP))
    }

    /** What is on top by the fields is what is on top in the model. */
    lemma TopsAgree(l: nat)
      requires l < |layers|
      ensures forall p: ViewPort :: Top(p, l) <==> IsTop(layers[l], Model().enabled, p)
      ensures Dark(l) <==> IsDark(layers[l], Model().enabled)
    {
      forall i | 0 <= i < |layers[l]|
        ensures ClearAbove(l, i) <==> NoneAbove(layers[l], Model().enabled, i)
      {
      }
      forall p: ViewPort
        ensures Top(p, l) <==> IsTop(layers[l], Model().enabled, p)
      {
      }
    }

    method FindFront() returns (front: ViewPort?)
      requires |layers| == LAYERS
      ensures AsOption(front) == Front(Model())
      ensures forall p: ViewPort :: front == p <==> InFront(p)
      ensures front == null <==> Dark(DESKTOP) && (lockdown || (Dark(FULLSCREEN) && Dark(WINDOW)))
    {
      front := SearchFront();
      FrontTells(front);
    }

    /** The front of the model, told by the fields. */
    lemma FrontTells(front: ViewPort?)
      requires |layers| == LAYERS
      ensures forall p: ViewPort :: Front(Model()) == Some(p) <==> InFront(p)
      ensures AsOption(front) == Front(Model()) ==> forall p: ViewPort :: front == p <==> InFront(p)
      ensures AsOption(front) == Front(Model()) ==>
                (front == null <==> Dark(DESKTOP) && (lockdown || (Dark(FULLSCREEN) && Dark(WINDOW))))
    {
      FrontExactlyWhen(Model());
      TopsAgree(DESKTOP);
      TopsAgree(WINDOW);
      TopsAgree(FULLSCREEN);
    }

    /** Searches layer by layer. */
    method SearchFront() returns (front: ViewPort?)
      requires |layers| == LAYERS
      ensures AsOption(front) == Front(Model())
    {
      EnabledAgrees(DESKTOP);
      EnabledAgrees(WINDOW);
      EnabledAgrees(FULLSCREEN);
      if lockdown {
        front := FindEnabled(layers[DESKTOP]);
      } else {
        front := FindEnabled(layers[FULLSCREEN]);
        if front == null {
          front := FindEnabled(layers[WINDOW]);
        }
        if front == null {
          front := FindEnabled(layers[DESKTOP]);
        }
      }
    }

    /** Tracks the held keys and latches the front on the first press; false when the event is discarded. */
    method TrackKeys(event: InputEvent) returns (accepted: bool, front: ViewPort?)
      requires |layers| == LAYERS && IsKeyMask(ongoingInput)
      modifies this`ongoingInput, this`ongoingInputViewPort
      ensures IsKeyMask(ongoingInput)
      ensures Model() == old(Model()).(latch := Next(old(Model().latch), Arrive(old(Front(Model())), event.Value())))
      ensures accepted <==> event.kind in {Press, Release} || event.key in old(Model()).latch.held
      ensures accepted ==> AsOption(front) == old(Front(Model()))
    {
      ghost var before := Model();
      ongoingInput, accepted := TrackHeld(ongoingInput, event.Value());
      front := null;
      if accepted {
        front := FindFront();
        assert Model().enabled == before.enabled;
        if OnlyKey(ongoingInput, event.key) && event.kind == Press {
          ongoingInputViewPort := front;
        }
      }
      assert Model().enabled == before.enabled && Model().vertical == before.vertical;
    }

    /** Hands the event over, after the latch has been brought up to date. */
    method Deliver(event: InputEvent, front: ViewPort?)
      requires forall p | p in Members() :: p.gui == this
      requires front != null ==> front in Members()
      requires ongoingInputViewPort != null ==> ongoingInputViewPort in Members()
      modifies event, Members()`received
      ensures Model() == old(Model())
      ensures var to := if old(event.kind) == Release || front == ongoingInputViewPort then ongoingInputViewPort else null;
              forall p | p in Members() :: p.received ==
                old(p.received) + if to == p && p.hasInputCallback then [Rotate(old(event.Value()), p.vertical)] else []
    {
      if front != null && front == ongoingInputViewPort {
        front.Input(event);
      } else if ongoingInputViewPort != null && event.kind == Release {
        ongoingInputViewPort.Input(event);
      }
      assert Model().enabled == old(Model()).enabled && Model().vertical == old(Model()).vertical;
    }

    /** Routes one input event; a vertical port gets it with its key turned.  A first press goes to the port in front. */
    method Input(event: InputEvent)
      requires Valid()
      modifies this`ongoingInput, this`ongoingInputViewPort, event, Members()`received
      ensures Valid()
      ensures Model() == GuiNext(old(Model()), GuiStep.Input(old(event.Value())))
      ensures var to := old(Receives(Model(), GuiStep.Input(event.Value())));
              forall p | p in Members() :: p.received ==
                old(p.received)
                + if to == Some(p) && p.hasInputCallback then [Rotate(old(event.Value()), p.vertical)] else []
      ensures old(event.kind) == Press && old(KeysOf(ongoingInput)) <= {old(event.key)} ==>
                forall p | p in Members() :: p.received ==
                  old(p.received)
                  + if old(InFront(p)) && p.hasInputCallback then [Rotate(old(event.Value()), p.vertical)] else []
    {
      FrontTells(null);
      HandleInput(event);
    }

    method HandleInput(event: InputEvent)
      requires Valid()
      modifies this`ongoingInput, this`ongoingInputViewPort, event, Members()`received
      ensures Valid()
      ensures Model() == GuiNext(old(Model()), GuiStep.Input(old(event.Value())))
      ensures var to := old(Receives(Model(), GuiStep.Input(event.Value())));
              forall p | p in Members() :: p.received ==
                old(p.received)
                + if to == Some(p) && p.hasInputCallback then [Rotate(old(event.Value()), p.vertical)] else []
    {
      ghost var before, e := Model(), event.Value();
      StepKeepsWellFormed(before, GuiStep.Input(e));
      FrontIsRegistered(before);
      ghost var after, to := GuiNext(before, GuiStep.Input(e)), Receives(before, GuiStep.Input(e));
      var accepted, front := TrackKeys(event);
      assert Model() == after;
      MembersAreRegistered();
      if accepted {
        assert to == AsOption(if e.kind == Release || front == ongoingInputViewPort then ongoingInputViewPort else null);
        Deliver(event, front);
      } else {
        assert to == None;
      }
    }

    /** Iterates over one layer, removing at the iterator every entry equal to `p`. */
    method RemoveFromLayer(l: nat, p: ViewPort) returns (found: bool)
      requires l < |layers|
      modifies this`layers
      ensures layers == old(layers)[l := Without(old(layers[l]), p)]
      ensures found <==> p in old(layers[l])
    {
      ghost var before := layers[l];
      ghost var k := 0;
      var it := 0;
      found := false;
      while it < |layers[l]|
        invariant |layers| == |old(layers)| && layers == old(layers)[l := layers[l]]
        invariant 0 <= it <= |layers[l]| && 0 <= k <= |before|
        invariant layers[l][..it] == Without(before[..k], p) && layers[l][it..] == before[k..]
        invariant found <==> p in before[..k]
        decreases |layers[l]| - it
      {
        ghost var layer := layers[l];
        StepsOver(layer, before, it, k, p);
        if layers[l][it] == p {
          layers := layers[l := layers[l][..it] + layers[l][it + 1..]];
          found := true;
        } else {
          it := it + 1;
        }
        k := k + 1;
      }
      assert before[..k] == before;
      assert layers[l][..it] == layers[l];
    }

    /** One turn of the removing loop: the entry under the iterator is cut out or stepped over. */
    static lemma {:induction false} StepsOver(layer: seq<ViewPort>, before: seq<ViewPort>, it: nat, k: nat, p: ViewPort)
      requires it < |layer| && k <= |before|
      requires layer[..it] == Without(before[..k], p) && layer[it..] == before[k..]
      ensures k < |before| && layer[it] == before[k]
      ensures p in before[..k + 1] <==> p in before[..k] || layer[it] == p
      ensures layer[it] != p ==> layer[..it + 1] == Without(before[..k + 1], p) && layer[it + 1..] == before[k + 1..]
      ensures layer[it] == p ==>
                var cut := layer[..it] + layer[it + 1..];
                cut[..it] == Without(before[..k + 1], p) && cut[it..] == before[k + 1..] && |cut| == |layer| - 1
    {
      assert layer[it] == layer[it..][0] == before[k..][0];
      assert before[..k + 1][..k] == before[..k] && before[..k + 1] == before[..k] + [before[k]];
      assert layer[it + 1..] == layer[it..][1..] && before[k + 1..] == before[k..][1..];
    }

    /** Takes `p` out of every layer and reports the one it was in; LAYERS if it was in none. */
    method TakeOut(p: ViewPort) returns (layer: nat)
      requires |layers| == LAYERS
      requires forall l, m :: 0 <= l < m < LAYERS ==> Apart(layers[l], layers[m])
      modifies this`layers
      ensures layers == EachWithout(old(layers), p)
      ensures layer == if old(InSomeLayer(layers, p)) then old(LayerOf(layers, p)) else LAYERS
    {
      layer := LAYERS;
      ghost var before := layers;
      for i := 0 to LAYERS
        invariant |layers| == LAYERS
        invariant forall l :: 0 <= l < i ==> layers[l] == Without(before[l], p)
        invariant forall l :: i <= l < LAYERS ==> layers[l] == before[l]
        invariant layer == LAYERS ==> forall l :: 0 <= l < i ==> p !in before[l]
        invariant layer != LAYERS ==> layer < i && p in before[layer]
      {
        var found := RemoveFromLayer(i, p);
        if found {
          assert layer == LAYERS;
          layer := i;
        }
      }
    }

    /** Puts a port on top of a layer and links it to the GUI. */
    method Attach(p: ViewPort, layer: nat)
      requires Valid() && Legal(Model(), Add(p, layer, p.isEnabled, p.vertical))
      modifies this`layers, p`gui
      ensures Valid() && p.gui == this
      ensures Model() == GuiNext(old(Model()), Add(p, layer, p.isEnabled, p.vertical))
    {
      ghost var before := Model();
      StepKeepsWellFormed(before, Add(p, layer, p.isEnabled, p.vertical));
      MembersAreRegistered();
      layers := layers[layer := layers[layer] + [p]];
      p.gui := this;
      assert Members() == old(Members()) + {p} by {
        MembersAreRegistered();
        AddedMembers(before.layers, layer, p);
      }
      assert Model().enabled == GuiNext(before, Add(p, layer, p.isEnabled, p.vertical)).enabled;
      assert Model().vertical == GuiNext(before, Add(p, layer, p.isEnabled, p.vertical)).vertical;
    }

    method AddViewPort(p: ViewPort, layer: nat)
      requires Valid() && Legal(Model(), Add(p, layer, p.isEnabled, p.vertical))
      modifies this`layers, this`redrawRequested, p`gui
      ensures Valid() && p.gui == this && redrawRequested
      ensures Model() == GuiNext(old(Model()), Add(p, layer, p.isEnabled, p.vertical))
    {
      Attach(p, layer);
      Update();
    }

    static lemma AddedMembers(layers: seq<seq<ViewPort>>, layer: nat, p: ViewPort)
      requires layer < |layers|
      ensures forall q :: InSomeLayer(layers[layer := layers[layer] + [p]], q) <==> q == p || InSomeLayer(layers, q)
    {
      var added := layers[layer := layers[layer] + [p]];
      assert p in added[layer];
      forall q
        ensures InSomeLayer(layers, q) ==> InSomeLayer(added, q)
        ensures InSomeLayer(added, q) && q != p ==> InSomeLayer(layers, q)
      {
        if l :| 0 <= l < |layers| && q in layers[l] {
          assert q in added[l];
        }
        if l :| 0 <= l < |layers| && q in added[l] {
          assert q != p ==> q in layers[l];
        }
      }
    }

    method Unlink(p: ViewPort)
      requires |layers| == LAYERS
      requires forall l, m :: 0 <= l < m < LAYERS ==> Apart(layers[l], layers[m])
      modifies this`layers, this`ongoingInputViewPort, p`gui
      ensures p.gui == null && Members() == old(Members()) - {p}
      ensures Model() == old(Model()).(layers := EachWithout(old(layers), p),
                                       enabled := old(Model()).enabled - {p},
                                       vertical := old(Model()).vertical - {p},
                                       latch := Next(old(Model()).latch, Forget(p)))
    {
      ghost var before, members := Model(), Members();
      MembersAreRegistered();
      p.gui := null;
      var _ := TakeOut(p);
      assert Members() == members - {p} by {
        MembersAreRegistered();
        RemovedMembers(before.layers, p);
      }
      if ongoingInputViewPort == p {
        ongoingInputViewPort := null;
      }
      ghost var after := Model();
      assert after.enabled == before.enabled - {p} && after.vertical == before.vertical - {p};
      assert after.latch == Next(before.latch, Forget(p));
    }

    method RemoveViewPort(p: ViewPort)
      requires Valid()
      modifies this`layers, this`ongoingInputViewPort, p`gui
      ensures Valid() && p.gui == null
      ensures Model() == GuiNext(old(Model()), Remove(p))
    {
      RemovalKeepsWellFormed(Model(), p);
      Unlink(p);
    }

    static lemma RemovedMembers(layers: seq<seq<ViewPort>>, p: ViewPort)
      ensures forall q :: InSomeLayer(EachWithout(layers, p), q) <==> q != p && InSomeLayer(layers, q)
    {
      forall q
        ensures InSomeLayer(EachWithout(layers, p), q) <==> q != p && InSomeLayer(layers, q)
      {
        if l :| 0 <= l < |layers| && q in layers[l] {
          WithoutRemoves(layers[l], p);
          assert q != p ==> q in EachWithout(layers, p)[l];
        }
        if l :| 0 <= l < |layers| && q in EachWithout(layers, p)[l] {
          WithoutRemoves(layers[l], p);
          assert q in layers[l];
        }
      }
    }

    /** In the layers where `p` is not, taking it out changes nothing. */
    static lemma TakingOutElsewhere(layers: seq<seq<ViewPort>>, p: ViewPort, layer: seq<ViewPort>)
      requires |layers| == LAYERS && InSomeLayer(layers, p)
      requires forall l, m :: 0 <= l < m < LAYERS ==> Apart(layers[l], layers[m])
      ensures var l := LayerOf(layers, p); EachWithout(layers, p)[l := layer] == layers[l := layer]
    {
      var l := LayerOf(layers, p);
      forall m | 0 <= m < LAYERS && m != l
        ensures Without(layers[m], p) == layers[m]
      {
        assert Apart(layers[if l < m then l else m], layers[if l < m then m else l]);
        WithoutRemoves(layers[m], p);
      }
    }

    /** The layers after `p` has been moved to the front or the back of its own. */
    static ghost function Moved(layers: seq<seq<ViewPort>>, p: ViewPort, front: bool): seq<seq<ViewPort>>
      requires InSomeLayer(layers, p)
    {
      var l := LayerOf(layers, p);
      var rest := Without(layers[l], p);
      layers[l := if front then rest + [p] else [p] + rest]
    }

    static lemma MovedMembers(layers: seq<seq<ViewPort>>, p: ViewPort, front: bool)
      requires InSomeLayer(layers, p)
      ensures forall q :: InSomeLayer(Moved(layers, p, front), q) <==> InSomeLayer(layers, q)
    {
      var l := LayerOf(layers, p);
      var moved := Moved(layers, p, front);
      WithoutRemoves(layers[l], p);
      forall q
        ensures InSomeLayer(moved, q) <==> InSomeLayer(layers, q)
      {
        if i :| 0 <= i < |layers| && q in layers[i] {
          assert q in moved[i];
        }
        if i :| 0 <= i < |layers| && q in moved[i] {
          assert q in layers[i];
        }
      }
    }

    method Reinsert(p: ViewPort, front: bool)
      requires |layers| == LAYERS && InSomeLayer(layers, p)
      requires forall l, m :: 0 <= l < m < LAYERS ==> Apart(layers[l], layers[m])
      modifies this`layers
      ensures layers == Moved(old(layers), p, front)
    {
      var layer := TakeOut(p);
      TakingOutElsewhere(old(layers), p, if front then layers[layer] + [p] else [p] + layers[layer]);
      if front {
        layers := layers[layer := layers[layer] + [p]];
      } else {
        layers := layers[layer := [p] + layers[layer]];
      }
    }

    method SendToFront(p: ViewPort)
      requires Valid() && p in Members()
      modifies this`layers
      ensures Valid() && Model() == GuiNext(old(Model()), GuiStep.SendToFront(p))
    {
      ghost var before := Model();
      MembersAreRegistered();
      StepKeepsWellFormed(before, GuiStep.SendToFront(p));
      Reinsert(p, true);
      assert Members() == old(Members()) by {
        MembersAreRegistered();
        MovedMembers(before.layers, p, true);
      }
      assert Model().enabled == before.enabled && Model().vertical == before.vertical;
    }

    method SendToBack(p: ViewPort)
      requires Valid() && p in Members()
      modifies this`layers
      ensures Valid() && Model() == GuiNext(old(Model()), GuiStep.SendToBack(p))
    {
      ghost var before := Model();
      MembersAreRegistered();
      StepKeepsWellFormed(before, GuiStep.SendToBack(p));
      Reinsert(p, false);
      assert Members() == old(Members()) by {
        MembersAreRegistered();
        MovedMembers(before.layers, p, false);
      }
      assert Model().enabled == before.enabled && Model().vertical == before.vertical;
    }

    method Lockdown(lockdown: bool)
      requires Valid()
      modifies this`lockdown
      ensures Valid() && Model() == GuiNext(old(Model()), GuiStep.SetLockdown(lockdown))
    {
      this.lockdown := lockdown;
      assert Model().enabled == old(Model()).enabled && Model().vertical == old(Model()).vertical;
    }

    /** Changes the lockdown flag and asks for a redraw. */
    method SetLockdown(lockdown: bool)
      requires Valid()
      modifies this`lockdown, this`redrawRequested
      ensures Valid() && Model() == GuiNext(old(Model()), GuiStep.SetLockdown(lockdown)) && redrawRequested
    {
      Lockdown(lockdown);
      Update();
    }
  }
}
