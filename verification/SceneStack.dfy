/** Scene navigation as functions on the stack of scene ids and the history of handler calls. */
module SceneStack {
  import opened Options

  type Scene = nat

  datatype Handled = Entered(scene: Scene) | Exited(scene: Scene)

  datatype Stack = Stack(ids: seq<Scene>, calls: seq<Handled>)

  const EMPTY: Stack := Stack([], [])

  datatype Op =
    | Next(scene: Scene)
    | Previous
    | SearchPrevious(scene: Scene)
    | SwitchAnother(scene: Scene)
    | Back(consumed: bool)

  function Top(s: Stack): Option<Scene> {
    if s.ids == [] then None else Some(s.ids[|s.ids| - 1])
  }

  /** The highest place of a scene below place `from`. */
  function TopmostBelow(ids: seq<Scene>, scene: Scene, from: nat): (place: Option<nat>)
    requires from <= |ids|
    ensures place.Some? ==> place.value < from && ids[place.value] == scene
                            && forall k :: place.value < k < from ==> ids[k] != scene
    ensures place == None ==> forall k :: 0 <= k < from ==> ids[k] != scene
  {
    if from == 0 then None
    else if ids[from - 1] == scene then Some(from - 1)
    else TopmostBelow(ids, scene, from - 1)
  }

  /** Leaves the top scene, if there is one, and shows the top of `ids`, if there is one. */
  function Switched(s: Stack, ids: seq<Scene>): Stack {
    Stack(ids, s.calls
               + (if s.ids == [] then [] else [Exited(s.ids[|s.ids| - 1])])
               + (if ids == [] then [] else [Entered(ids[|ids| - 1])]))
  }

  function GoBack(s: Stack): (Stack, bool) {
    if s.ids == [] then (s, false) else (Switched(s, s.ids[..|s.ids| - 1]), |s.ids| > 1)
  }

  function Apply(s: Stack, op: Op): (Stack, bool) {
    match op
    case Next(scene) => (Switched(s, s.ids + [scene]), true)
    case Previous => GoBack(s)
    case SearchPrevious(scene) =>
      if s.ids == [] then (s, false) else
        (match TopmostBelow(s.ids, scene, |s.ids| - 1)
         case None => (s, false)
         case Some(k) => (Switched(s, s.ids[..k + 1]), true))
    case SwitchAnother(scene) =>
      if s.ids == [] then (s, false) else (Switched(s, [s.ids[0], scene]), true)
    case Back(consumed) =>
      if s.ids != [] && consumed then (s, true) else GoBack(s)
  }

  function Run(ops: seq<Op>): Stack {
    if ops == [] then EMPTY else Apply(Run(ops[..|ops| - 1]), ops[|ops| - 1]).0
  }

  /** The scene entered and not yet left. */
  function Shown(calls: seq<Handled>): Option<Scene> {
    if calls != [] && calls[|calls| - 1].Entered? then Some(calls[|calls| - 1].scene) else None
  }

  /** Enters and exits alternate: a scene is left only while shown, and entered only when none is. */
  predicate Alternate(calls: seq<Handled>) {
    calls == [] ||
    var before := calls[..|calls| - 1];
    && Alternate(before)
    && match calls[|calls| - 1]
       case Entered(_) => Shown(before) == None
       case Exited(scene) => Shown(before) == Some(scene)
  }

  /** Handler calls alternate and the scene shown is the top of the stack. */
  predicate Coherent(s: Stack) {
    Alternate(s.calls) && Shown(s.calls) == Top(s)
  }

  lemma {:induction false} AlternatePush(calls: seq<Handled>, call: Handled)
    requires Alternate(calls)
    requires match call case Entered(_) => Shown(calls) == None case Exited(scene) => Shown(calls) == Some(scene)
    ensures Alternate(calls + [call])
    ensures Shown(calls + [call]) == if call.Entered? then Some(call.scene) else None
  {
    assert (calls + [call])[..|calls|] == calls;
  }

  lemma {:induction false} SwitchIsCoherent(s: Stack, ids: seq<Scene>)
    requires Coherent(s)
    ensures Coherent(Switched(s, ids))
  {
    var left := s.calls + if s.ids == [] then [] else [Exited(s.ids[|s.ids| - 1])];
    if s.ids == [] {
      assert left == s.calls;
    } else {
      AlternatePush(s.calls, Exited(s.ids[|s.ids| - 1]));
    }
    if ids == [] {
      assert left + [] == left;
    } else {
      AlternatePush(left, Entered(ids[|ids| - 1]));
    }
  }

  /** Over every sequence of operations. */
  lemma {:induction false} EveryRunIsCoherent(ops: seq<Op>)
    ensures Coherent(Run(ops))
  {
    if ops != [] {
      var before := Run(ops[..|ops| - 1]);
      EveryRunIsCoherent(ops[..|ops| - 1]);
      OneOpIsCoherent(before, ops[|ops| - 1]);
    }
  }

  /** Going to a scene and back calls four handlers and restores the stack. */
  lemma {:induction false} PreviousUndoesNext(s: Stack, scene: Scene)
    requires s.ids != []
    ensures var (there, _) := Apply(s, Next(scene));
            var (back, ok) := Apply(there, Previous);
            && ok && back.ids == s.ids
            && back.calls == s.calls + [Exited(Top(s).value), Entered(scene), Exited(scene), Entered(Top(s).value)]
  {
    assert (s.ids + [scene])[..|s.ids|] == s.ids;
  }

  /** What the operations answer: whether a scene is left to show, was found, or consumed the event. */
  lemma {:induction false} Answers(s: Stack, scene: Scene)
    ensures Apply(s, Next(scene)).1
    ensures Apply(s, Previous).1 <==> |s.ids| > 1
    ensures Apply(s, SearchPrevious(scene)).1 <==> exists k :: 0 <= k < |s.ids| - 1 && s.ids[k] == scene
    ensures Apply(s, SwitchAnother(scene)).1 <==> s.ids != []
    ensures s.ids != [] ==> Apply(s, Back(true)) == (s, true)
    ensures Apply(s, Back(false)) == Apply(s, Previous)
  {
  }

  /** A scene change leaves the old top, if any, and then enters the new one, if any, and calls nothing else. */
  lemma {:induction false} CallsExactly(s: Stack, op: Op)
    ensures var t := Apply(s, op).0;
            CallsHandlers(s.ids, op) ==>
              t.calls == s.calls + (if s.ids == [] then [] else [Exited(s.ids[|s.ids| - 1])])
                         + (if t.ids == [] then [] else [Entered(t.ids[|t.ids| - 1])])
    ensures !CallsHandlers(s.ids, op) ==> Apply(s, op).0 == s
  {
  }

  // ----- after a stop -----

  /** Stopping leaves the top scene and keeps the stack. */
  function Stopped(s: Stack): Stack {
    s.(calls := s.calls + if s.ids == [] then [] else [Exited(Top(s).value)])
  }

  /** The operation finds something to leave or to enter. */
  predicate CallsHandlers(ids: seq<Scene>, op: Op) {
    match op
    case Next(_) => true
    case Previous => ids != []
    case SearchPrevious(scene) => ids != [] && TopmostBelow(ids, scene, |ids| - 1).Some?
    case SwitchAnother(_) => ids != []
    case Back(consumed) => ids != [] && !consumed
  }

  function RunFrom(s: Stack, ops: seq<Op>): Stack {
    if ops == [] then s else Apply(RunFrom(s, ops[..|ops| - 1]), ops[|ops| - 1]).0
  }

  /** An operation that calls no handler changes nothing; any other calls some, after what was called before. */
  lemma {:induction false} QuietExactlyWhen(s: Stack, op: Op)
    ensures Apply(s, op).0 == s <==> !CallsHandlers(s.ids, op)
    ensures s.calls <= Apply(s, op).0.calls
  {
  }

  lemma {:induction false} OneOpIsCoherent(s: Stack, op: Op)
    requires Coherent(s)
    ensures Coherent(Apply(s, op).0)
  {
    if Apply(s, op).0 != s {
      var ids := Apply(s, op).0.ids;
      SwitchIsCoherent(s, ids);
      assert Apply(s, op).0 == Switched(s, ids);
    }
  }

  lemma {:induction false} AlternatePrefix(calls: seq<Handled>, n: nat)
    requires n <= |calls| && Alternate(calls)
    ensures Alternate(calls[..n])
  {
    if n < |calls| {
      AlternatePrefix(calls[..|calls| - 1], n);
      assert calls[..|calls| - 1][..n] == calls[..n];
    } else {
      assert calls[..n] == calls;
    }
  }

  /** The first handler called after the stop of a shown scene is the exit of that scene, once more. */
  lemma {:induction false} LeavesTwice(s: Stack, op: Op)
    requires Coherent(s) && s.ids != [] && CallsHandlers(s.ids, op)
    ensures !Alternate(Apply(Stopped(s), op).0.calls)
  {
    var once := Stopped(s).calls;
    var twice := once + [Exited(Top(s).value)];
    var after := Apply(Stopped(s), op).0.calls;
    assert twice[..|once|] == once && !Alternate(twice);
    assert after[..|twice|] == twice;
    if Alternate(after) {
      AlternatePrefix(after, |twice|);
    }
  }

  /**
   Whatever is done after a stop, the handlers keep alternating exactly when the
   stack was empty or no operation calls a handler.
   */
  lemma {:induction false} GoingOnAfterStop(s: Stack, ops: seq<Op>)
    requires Coherent(s)
    ensures Alternate(RunFrom(Stopped(s), ops).calls) <==> s.ids == [] || forall op | op in ops :: !CallsHandlers(s.ids, op)
    ensures s.ids == [] ==> Coherent(RunFrom(Stopped(s), ops))
    ensures (forall op | op in ops :: !CallsHandlers(s.ids, op)) ==> RunFrom(Stopped(s), ops) == Stopped(s)
  {
    if ops == [] {
      assert s.calls + [] == s.calls;
      if s.ids != [] {
        AlternatePush(s.calls, Exited(Top(s).value));
      }
    } else {
      var before, op := ops[..|ops| - 1], ops[|ops| - 1];
      assert ops == before + [op];
      var t := RunFrom(Stopped(s), before);
      GoingOnAfterStop(s, before);
      QuietExactlyWhen(t, op);
      if s.ids == [] {
        OneOpIsCoherent(t, op);
      } else if forall o | o in before :: !CallsHandlers(s.ids, o) {
        if CallsHandlers(s.ids, op) {
          LeavesTwice(s, op);
        }
      } else {
        var after := Apply(t, op).0.calls;
        assert after[..|t.calls|] == t.calls;
        if Alternate(after) {
          AlternatePrefix(after, |t.calls|);
        }
      }
    }
  }
}
