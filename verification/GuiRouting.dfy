/**
 What the GUI service does to its layers of view ports, and which view port an
 input event reaches, stated on values.  `P` is the identity of a view port.
 */
module GuiRouting {
  import opened Options
  import opened Keys
  import opened InputLatch

  const LAYERS := 5
  const DESKTOP := 0
  const WINDOW := 1
  const FULLSCREEN := 4

  /** `enabled` and `vertical` hold the registered view ports with that flag set. */
  datatype GuiState<!P> = GuiState(
    latch: Latch<P>,
    lockdown: bool,
    layers: seq<seq<P>>,
    enabled: set<P>,
    vertical: set<P>)

  datatype GuiStep<!P> =
    | Input(event: Event)
    | Add(port: P, layer: nat, enabled: bool, vertical: bool)
    | Remove(port: P)
    | SendToFront(port: P)
    | SendToBack(port: P)
    | SetLockdown(lockdown: bool)
    | SetEnabled(port: P, enabled: bool)
    | SetOrientation(port: P, vertical: bool)

  // ---------------------------------------------------------------- layers

  predicate NoRepeats<P(==)>(layer: seq<P>) {
    forall i, j :: 0 <= i < j < |layer| ==> layer[i] != layer[j]
  }

  ghost predicate Apart<P>(a: seq<P>, b: seq<P>) {
    forall p | p in a :: p !in b
  }

  predicate InSomeLayer<P(==)>(layers: seq<seq<P>>, p: P) {
    exists l :: 0 <= l < |layers| && p in layers[l]
  }

  function Without<P(==)>(layer: seq<P>, p: P): seq<P> {
    if layer == [] then [] else
      var last := layer[|layer| - 1];
      Without(layer[..|layer| - 1], p) + if last == p then [] else [last]
  }

  function EachWithout<P(==)>(layers: seq<seq<P>>, p: P): seq<seq<P>> {
    seq(|layers|, i requires 0 <= i < |layers| => Without(layers[i], p))
  }

  /** The layer holding `p`; the last one if there were several. */
  function LayerOf<P(==)>(layers: seq<seq<P>>, p: P): (l: nat)
    requires InSomeLayer(layers, p)
    ensures l < |layers| && p in layers[l]
  {
    if p in layers[|layers| - 1] then |layers| - 1 else LayerOf(layers[..|layers| - 1], p)
  }

  lemma {:induction false} WithoutRemoves<P>(layer: seq<P>, p: P)
    ensures forall q :: q in Without(layer, p) <==> q in layer && q != p
    ensures NoRepeats(layer) ==> NoRepeats(Without(layer, p))
    ensures p !in layer ==> Without(layer, p) == layer
  {
    if layer != [] {
      var init, last := layer[..|layer| - 1], layer[|layer| - 1];
      WithoutRemoves(init, p);
      assert layer == init + [last];
      assert last == p ==> Without(layer, p) == Without(init, p);
      if NoRepeats(layer) {
        assert NoRepeats(init);
        assert last !in init;
      }
    }
  }

  /** The port an iterator running backward from the end stops at. */
  function LastEnabled<P(==)>(layer: seq<P>, enabled: set<P>): Option<P> {
    if layer == [] then None
    else if layer[|layer| - 1] in enabled then Some(layer[|layer| - 1])
    else LastEnabled(layer[..|layer| - 1], enabled)
  }

  /** It is the enabled port nearest the top of the layer; there is none only if no port is enabled. */
  lemma {:induction false} LastEnabledIsTopmost<P>(layer: seq<P>, enabled: set<P>)
    ensures LastEnabled(layer, enabled) == None ==> forall p | p in layer :: p !in enabled
    ensures LastEnabled(layer, enabled).Some? ==>
              exists i :: 0 <= i < |layer| && Some(layer[i]) == LastEnabled(layer, enabled) && layer[i] in enabled
                          && forall j :: i < j < |layer| ==> layer[j] !in enabled
  {
    if layer != [] && layer[|layer| - 1] !in enabled {
      LastEnabledIsTopmost(layer[..|layer| - 1], enabled);
    }
  }

  /** The view port that is on top and would receive input. */
  function Front<P(==)>(s: GuiState<P>): Option<P>
    requires |s.layers| == LAYERS
  {
    var desktop := LastEnabled(s.layers[DESKTOP], s.enabled);
    var window := LastEnabled(s.layers[WINDOW], s.enabled);
    var fullscreen := LastEnabled(s.layers[FULLSCREEN], s.enabled);
    if s.lockdown then desktop
    else if fullscreen.Some? then fullscreen
    else if window.Some? then window
    else desktop
  }

  /** `p` is in the layer, enabled, and no port above it in the layer is. */
  ghost predicate IsTop<P>(layer: seq<P>, enabled: set<P>, p: P) {
    p in enabled && exists i :: 0 <= i < |layer| && layer[i] == p && NoneAbove(layer, enabled, i)
  }

  predicate NoneAbove<P(==)>(layer: seq<P>, enabled: set<P>, i: nat) {
    forall j :: i < j < |layer| ==> layer[j] !in enabled
  }

  /** No port of the layer is enabled. */
  ghost predicate IsDark<P>(layer: seq<P>, enabled: set<P>) {
    forall p | p in layer :: p !in enabled
  }

  /**
   Who is in front, layer by layer: the top of the full-screen layer, or if that
   is dark of the window layer, or if that is dark too of the desktop layer.
   Under lockdown only the desktop layer counts.
   */
  ghost predicate IsFront<P>(s: GuiState<P>, p: P)
    requires |s.layers| == LAYERS
  {
    if s.lockdown then IsTop(s.layers[DESKTOP], s.enabled, p)
    else
      || IsTop(s.layers[FULLSCREEN], s.enabled, p)
      || (IsDark(s.layers[FULLSCREEN], s.enabled) && IsTop(s.layers[WINDOW], s.enabled, p))
      || (IsDark(s.layers[FULLSCREEN], s.enabled) && IsDark(s.layers[WINDOW], s.enabled)
          && IsTop(s.layers[DESKTOP], s.enabled, p))
  }

  ghost predicate NothingInFront<P>(s: GuiState<P>)
    requires |s.layers| == LAYERS
  {
    && IsDark(s.layers[DESKTOP], s.enabled)
    && (!s.lockdown ==> IsDark(s.layers[FULLSCREEN], s.enabled) && IsDark(s.layers[WINDOW], s.enabled))
  }

  lemma {:induction false} LastEnabledExactlyWhen<P>(layer: seq<P>, enabled: set<P>)
    ensures LastEnabled(layer, enabled) == None <==> IsDark(layer, enabled)
    ensures forall p :: LastEnabled(layer, enabled) == Some(p) <==> IsTop(layer, enabled, p)
  {
    if layer != [] {
      var n := |layer| - 1;
      var init := layer[..n];
      assert layer == init + [layer[n]];
      if layer[n] in enabled {
        assert NoneAbove(layer, enabled, n) && IsTop(layer, enabled, layer[n]);
        assert forall i :: 0 <= i < n ==> !NoneAbove(layer, enabled, i);
      } else {
        LastEnabledExactlyWhen(init, enabled);
        forall i | 0 <= i < n
          ensures NoneAbove(layer, enabled, i) <==> NoneAbove(init, enabled, i)
        {
          assert forall j :: i < j < n ==> layer[j] == init[j];
        }
        forall p
          ensures IsTop(layer, enabled, p) <==> IsTop(init, enabled, p)
        {
          TopOfFront(layer, enabled, p);
        }
      }
    }
  }

  /** A disabled port on top of a layer does not count. */
  lemma {:induction false} TopOfFront<P>(layer: seq<P>, enabled: set<P>, p: P)
    requires layer != [] && layer[|layer| - 1] !in enabled
    ensures IsTop(layer, enabled, p) <==> IsTop(layer[..|layer| - 1], enabled, p)
  {
    var n := |layer| - 1;
    var init := layer[..n];
    if IsTop(layer, enabled, p) {
      var i :| 0 <= i < |layer| && layer[i] == p && NoneAbove(layer, enabled, i);
      assert i < n && init[i] == p && NoneAbove(init, enabled, i);
    }
    if IsTop(init, enabled, p) {
      var i :| 0 <= i < |init| && init[i] == p && NoneAbove(init, enabled, i);
      assert layer[i] == p && NoneAbove(layer, enabled, i);
    }
  }

  /** The port the GUI finds is the one in front, and it finds none only if there is none. */
  lemma {:induction false} FrontExactlyWhen<P>(s: GuiState<P>)
    requires |s.layers| == LAYERS
    ensures forall p :: Front(s) == Some(p) <==> IsFront(s, p)
    ensures Front(s) == None <==> NothingInFront(s)
  {
    LastEnabledExactlyWhen(s.layers[DESKTOP], s.enabled);
    LastEnabledExactlyWhen(s.layers[WINDOW], s.enabled);
    LastEnabledExactlyWhen(s.layers[FULLSCREEN], s.enabled);
  }

  // ---------------------------------------------------------------- rotation

  function RotateKey(k: Key, vertical: bool): Key {
    if !vertical then k else
      match k
      case Up => Right
      case Down => Left
      case Right => Down
      case Left => Up
      case _ => k
  }

  function Rotate(e: Event, vertical: bool): Event {
    e.(key := RotateKey(e.key, vertical))
  }

  /** Where an arrow points, x to the right and y down; the other keys point nowhere. */
  function Pointing(k: Key): (int, int) {
    match k
    case Up => (0, -1)
    case Down => (0, 1)
    case Right => (1, 0)
    case Left => (-1, 0)
    case _ => (0, 0)
  }

  /** Turning a key turns where it points by a quarter, clockwise; the other keys are kept. */
  lemma {:induction false} TurningIsQuarter(k: Key)
    ensures var (x, y) := Pointing(k); Pointing(RotateKey(k, true)) == (-y, x)
    ensures !IsArrow(k) ==> RotateKey(k, true) == k
    ensures RotateKey(k, false) == k
  {
  }

  predicate IsArrow(k: Key) {
    k in {Up, Down, Right, Left}
  }

  ghost function RotateKeys(ks: set<Key>, vertical: bool): set<Key> {
    set k | k in ks :: RotateKey(k, vertical)
  }

  lemma {:induction false} RotateKeyInjective(k: Key, j: Key, vertical: bool)
    ensures RotateKey(k, vertical) == RotateKey(j, vertical) <==> k == j
  {
  }

  lemma {:induction false} RotateKeysUpdate(ks: set<Key>, k: Key, vertical: bool)
    ensures RotateKeys(ks + {k}, vertical) == RotateKeys(ks, vertical) + {RotateKey(k, vertical)}
    ensures RotateKeys(ks - {k}, vertical) == RotateKeys(ks, vertical) - {RotateKey(k, vertical)}
    ensures RotateKey(k, vertical) in RotateKeys(ks, vertical) <==> k in ks
  {
    forall j: Key
      ensures RotateKey(j, vertical) == RotateKey(k, vertical) <==> j == k
    {
      RotateKeyInjective(j, k, vertical);
    }
  }

  /** Some arrow is among the keys, but not all four. */
  predicate SomeArrows(ks: set<Key>) {
    && (Up in ks || Right in ks || Down in ks || Left in ks)
    && !(Up in ks && Right in ks && Down in ks && Left in ks)
  }

  /** Turning moves the arrows round in one cycle, so it shows exactly when some of them, but not all, are there. */
  lemma {:induction false} TurningShowsExactlyWhen(ks: set<Key>)
    ensures RotateKeys(ks, true) == ks <==> !SomeArrows(ks)
  {
    forall k: Key
      ensures k in RotateKeys(ks, true) <==> exists j :: j in ks && RotateKey(j, true) == k
    {
    }
    if SomeArrows(ks) {
      assert Up in ks ==> Right in RotateKeys(ks, true);
      assert Right in ks ==> Down in RotateKeys(ks, true);
      assert Down in ks ==> Left in RotateKeys(ks, true);
      assert Left in ks ==> Up in RotateKeys(ks, true);
    } else {
      forall k: Key
        ensures k in RotateKeys(ks, true) <==> k in ks
      {
        assert RotateKey(Up, true) == Right && RotateKey(Right, true) == Down;
        assert RotateKey(Down, true) == Left && RotateKey(Left, true) == Up;
        assert RotateKey(Ok, true) == Ok && RotateKey(Back, true) == Back;
      }
    }
  }

  lemma {:induction false} UnturnedKeys(ks: set<Key>, before: bool, after: bool)
    ensures RotateKeys(ks, before) == RotateKeys(ks, after) <==> before == after || !SomeArrows(ks)
  {
    assert RotateKeys(ks, false) == ks;
    TurningShowsExactlyWhen(ks);
  }

  // ---------------------------------------------------------------- steps

  predicate Registered<P(==)>(s: GuiState<P>, p: P) {
    InSomeLayer(s.layers, p)
  }

  /** Each registered port sits in exactly one layer, once; the latched port is registered. */
  ghost predicate WellFormed<P>(s: GuiState<P>) {
    && |s.layers| == LAYERS
    && (forall l :: 0 <= l < LAYERS ==> NoRepeats(s.layers[l]))
    && (forall l, m :: 0 <= l < m < LAYERS ==> Apart(s.layers[l], s.layers[m]))
    && (forall p | p in s.enabled :: Registered(s, p))
    && (forall p | p in s.vertical :: Registered(s, p))
    && (s.latch.target.Some? ==> Registered(s, s.latch.target.value))
  }

  /** The demands the GUI asserts of its callers. */
  ghost predicate Legal<P>(s: GuiState<P>, step: GuiStep<P>) {
    match step
    case Add(p, layer, _, vertical) => layer < LAYERS && !Registered(s, p) && (layer == FULLSCREEN || !vertical)
    case SendToFront(p) => Registered(s, p)
    case SendToBack(p) => Registered(s, p)
    case SetEnabled(p, _) => Registered(s, p)
    case SetOrientation(p, _) => Registered(s, p)
    case _ => true
  }

  function Flag<P>(ports: set<P>, p: P, on: bool): set<P> {
    if on then ports + {p} else ports - {p}
  }

  ghost function GuiNext<P>(s: GuiState<P>, step: GuiStep<P>): GuiState<P>
    requires WellFormed(s) && Legal(s, step)
  {
    match step
    case Input(e) => s.(latch := Next(s.latch, Arrive(Front(s), e)))
    case Add(p, layer, enabled, vertical) =>
      s.(layers := s.layers[layer := s.layers[layer] + [p]],
         enabled := Flag(s.enabled, p, enabled),
         vertical := Flag(s.vertical, p, vertical))
    case Remove(p) =>
      s.(layers := EachWithout(s.layers, p),
         enabled := s.enabled - {p},
         vertical := s.vertical - {p},
         latch := Next(s.latch, Forget(p)))
    case SendToFront(p) =>
      var l := LayerOf(s.layers, p);
      s.(layers := s.layers[l := Without(s.layers[l], p) + [p]])
    case SendToBack(p) =>
      var l := LayerOf(s.layers, p);
      s.(layers := s.layers[l := [p] + Without(s.layers[l], p)])
    case SetLockdown(b) => s.(lockdown := b)
    case SetEnabled(p, b) => s.(enabled := Flag(s.enabled, p, b))
    case SetOrientation(p, b) => s.(vertical := Flag(s.vertical, p, b))
  }

  /** The port an input event is handed to. */
  ghost function Receives<P>(s: GuiState<P>, step: GuiStep<P>): Option<P>
    requires WellFormed(s)
  {
    if step.Input? then Receiver(s.latch, Front(s), step.event) else None
  }

  lemma {:induction false} FrontIsRegistered<P>(s: GuiState<P>)
    requires |s.layers| == LAYERS
    ensures Front(s).Some? ==> Front(s).value in s.enabled && Registered(s, Front(s).value)
    ensures s.lockdown && Front(s).Some? ==> Front(s).value in s.layers[DESKTOP]
  {
    LastEnabledIsTopmost(s.layers[DESKTOP], s.enabled);
    LastEnabledIsTopmost(s.layers[WINDOW], s.enabled);
    LastEnabledIsTopmost(s.layers[FULLSCREEN], s.enabled);
  }

  lemma {:induction false} RemovalKeepsWellFormed<P>(s: GuiState<P>, p: P)
    requires WellFormed(s)
    ensures WellFormed(GuiNext(s, Remove(p)))
  {
    var t := GuiNext(s, Remove(p));
    forall l | 0 <= l < LAYERS
      ensures NoRepeats(t.layers[l])
      ensures forall q | q in s.layers[l] && q != p :: q in t.layers[l]
    {
      WithoutRemoves(s.layers[l], p);
    }
    forall l, m | 0 <= l < m < LAYERS
      ensures Apart(t.layers[l], t.layers[m])
    {
      assert Apart(s.layers[l], s.layers[m]);
      WithoutRemoves(s.layers[l], p);
      WithoutRemoves(s.layers[m], p);
    }
    StillRegistered(s, t, p);
  }

  /** Replacing one layer by a rearrangement of it. */
  lemma {:induction false} MoveKeepsWellFormed<P>(s: GuiState<P>, l: nat, layer: seq<P>)
    requires WellFormed(s) && l < LAYERS && NoRepeats(layer)
    requires forall q :: q in layer <==> q in s.layers[l]
    ensures WellFormed(s.(layers := s.layers[l := layer]))
  {
    var t := s.(layers := s.layers[l := layer]);
    forall i, j | 0 <= i < j < LAYERS
      ensures Apart(t.layers[i], t.layers[j])
    {
      assert Apart(s.layers[i], s.layers[j]);
    }
    forall q | Registered(s, q)
      ensures Registered(t, q)
    {
      var i :| 0 <= i < LAYERS && q in s.layers[i];
      assert q in t.layers[i];
    }
  }

  lemma {:induction false} AdditionKeepsWellFormed<P>(s: GuiState<P>, p: P, layer: nat, enabled: bool, vertical: bool)
    requires WellFormed(s) && Legal(s, Add(p, layer, enabled, vertical))
    ensures WellFormed(GuiNext(s, Add(p, layer, enabled, vertical)))
  {
    var t := GuiNext(s, Add(p, layer, enabled, vertical));
    forall i, j | 0 <= i < j < LAYERS
      ensures Apart(t.layers[i], t.layers[j])
    {
      assert Apart(s.layers[i], s.layers[j]);
    }
    StillRegistered(s, t, p);
    assert p in t.layers[layer];
  }

  lemma {:induction false} WithoutOne<P>(a: seq<P>, p: P, b: seq<P>)
    requires p !in a && p !in b
    ensures Without(a + [p] + b, p) == a + b
  {
    if b == [] {
      assert a + [p] + b == a + [p] && (a + [p])[..|a|] == a;
      WithoutRemoves(a, p);
      assert a + b == a;
    } else {
      var n := |b| - 1;
      var all := a + [p] + b;
      assert all[..|all| - 1] == a + [p] + b[..n] && all[|all| - 1] == b[n];
      WithoutOne(a, p, b[..n]);
      assert b == b[..n] + [b[n]] && a + b == a + b[..n] + [b[n]];
    }
  }

  lemma {:induction false} LayerIsFound<P>(layers: seq<seq<P>>, p: P, l: nat)
    requires l < |layers| && p in layers[l] && forall m :: 0 <= m < |layers| && m != l ==> p !in layers[m]
    ensures InSomeLayer(layers, p) && LayerOf(layers, p) == l
  {
    if l < |layers| - 1 {
      LayerIsFound(layers[..|layers| - 1], p, l);
    }
  }

  /**
   Moving a port between `a` below and `b` above it in its layer: to the end, to
   the beginning, or out; the order of the others and the other layers stay.
   */
  lemma {:induction false} MovesExactly<P>(s: GuiState<P>, p: P, l: nat, a: seq<P>, b: seq<P>)
    requires WellFormed(s) && l < LAYERS && s.layers[l] == a + [p] + b
    ensures GuiNext(s, SendToFront(p)) == s.(layers := s.layers[l := a + b + [p]])
    ensures GuiNext(s, SendToBack(p)) == s.(layers := s.layers[l := [p] + a + b])
    ensures GuiNext(s, Remove(p)).layers == s.layers[l := a + b]
    ensures GuiNext(s, Remove(p)).latch == if s.latch.target == Some(p) then s.latch.(target := None) else s.latch
    ensures IsTop(a + b + [p], s.enabled + {p}, p)
  {
    var layer := s.layers[l];
    assert layer[|a|] == p && p in layer;
    assert forall i :: 0 <= i < |a| ==> a[i] == layer[i];
    assert forall i :: 0 <= i < |b| ==> b[i] == layer[|a| + 1 + i];
    assert p !in a && p !in b;
    forall m | 0 <= m < LAYERS && m != l
      ensures p !in s.layers[m]
    {
      assert Apart(s.layers[if l < m then l else m], s.layers[if l < m then m else l]);
    }
    LayerIsFound(s.layers, p, l);
    WithoutOne(a, p, b);
    assert [p] + (a + b) == [p] + a + b;
    ElsewhereKept(s.layers, p, l);
    TopIsLast(a + b, s.enabled + {p}, p);
  }

  lemma {:induction false} TopIsLast<P>(below: seq<P>, enabled: set<P>, p: P)
    requires p in enabled
    ensures IsTop(below + [p], enabled, p)
  {
    var layer := below + [p];
    assert layer[|below|] == p && NoneAbove(layer, enabled, |below|);
  }

  lemma {:induction false} ElsewhereKept<P>(layers: seq<seq<P>>, p: P, l: nat)
    requires l < |layers| && forall m :: 0 <= m < |layers| && m != l ==> p !in layers[m]
    ensures EachWithout(layers, p) == layers[l := Without(layers[l], p)]
  {
    forall m | 0 <= m < |layers| && m != l
      ensures Without(layers[m], p) == layers[m]
    {
      WithoutRemoves(layers[m], p);
    }
  }

  /** What the other operations change: one flag of one port, the lockdown, or one layer by one port on top. */
  lemma {:induction false} FlagsExactly<P>(s: GuiState<P>, step: GuiStep<P>, q: P)
    requires WellFormed(s) && Legal(s, step) && !step.Input?
    ensures var t := GuiNext(s, step);
            && (q in t.enabled <==> match step
                                    case SetEnabled(p, on) => if q == p then on else q in s.enabled
                                    case Add(p, _, on, _) => if q == p then on else q in s.enabled
                                    case Remove(p) => q != p && q in s.enabled
                                    case _ => q in s.enabled)
            && (q in t.vertical <==> match step
                                     case SetOrientation(p, on) => if q == p then on else q in s.vertical
                                     case Add(p, _, _, on) => if q == p then on else q in s.vertical
                                     case Remove(p) => q != p && q in s.vertical
                                     case _ => q in s.vertical)
            && t.lockdown == (if step.SetLockdown? then step.lockdown else s.lockdown)
            && t.latch.held == s.latch.held
    ensures step.Add? ==> GuiNext(s, step).layers == s.layers[step.layer := s.layers[step.layer] + [step.port]]
    ensures step.SetEnabled? || step.SetOrientation? || step.SetLockdown? ==> GuiNext(s, step).layers == s.layers
    ensures !step.Remove? ==> GuiNext(s, step).latch == s.latch
  {
  }

  /** Every legal step keeps each port in exactly one layer, and the latched port among them. */
  lemma {:induction false} StepKeepsWellFormed<P>(s: GuiState<P>, step: GuiStep<P>)
    requires WellFormed(s) && Legal(s, step)
    ensures WellFormed(GuiNext(s, step))
  {
    match step
    case Input(_) => FrontIsRegistered(s);
    case Add(p, layer, enabled, vertical) => AdditionKeepsWellFormed(s, p, layer, enabled, vertical);
    case Remove(p) => RemovalKeepsWellFormed(s, p);
    case SendToFront(p) =>
      var l := LayerOf(s.layers, p);
      WithoutRemoves(s.layers[l], p);
      MoveKeepsWellFormed(s, l, Without(s.layers[l], p) + [p]);
    case SendToBack(p) =>
      var l := LayerOf(s.layers, p);
      WithoutRemoves(s.layers[l], p);
      MoveKeepsWellFormed(s, l, [p] + Without(s.layers[l], p));
    case _ =>
  }

  lemma {:induction false} StillRegistered<P>(s: GuiState<P>, t: GuiState<P>, moved: P)
    requires |s.layers| == |t.layers|
    requires forall l :: 0 <= l < |s.layers| ==> forall q | q in s.layers[l] && q != moved :: q in t.layers[l]
    ensures forall q | Registered(s, q) && q != moved :: Registered(t, q)
  {
  }

  /** Under lockdown a port outside the Desktop layer can only receive releases. */
  lemma {:induction false} LockdownOnlyReleases<P>(s: GuiState<P>, e: Event, p: P)
    requires WellFormed(s) && s.lockdown
    requires Receives(s, Input(e)) == Some(p)
    ensures e.kind == Release || p in s.layers[DESKTOP]
  {
    FrontIsRegistered(s);
  }
}
