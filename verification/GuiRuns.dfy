/** Whole runs of the GUI service: what a view port sees of the keys. */
module GuiRuns {
  import opened Options
  import opened Keys
  import opened InputLatch
  import opened GuiRouting

  /** A request that breaks an assertion halts the firmware; here it has no effect. */
  ghost function Apply<P>(s: GuiState<P>, step: GuiStep<P>): (t: GuiState<P>)
    requires WellFormed(s)
    ensures WellFormed(t)
  {
    if Legal(s, step) then
      StepKeepsWellFormed(s, step);
      GuiNext(s, step)
    else s
  }

  ghost function GuiRun<P>(s: GuiState<P>, steps: seq<GuiStep<P>>): (t: GuiState<P>)
    requires WellFormed(s)
    ensures WellFormed(t)
  {
    if steps == [] then s else Apply(GuiRun(s, steps[..|steps| - 1]), steps[|steps| - 1])
  }

  /** The input events the GUI took off its queue. */
  function GuiInputs<P>(steps: seq<GuiStep<P>>): seq<Event> {
    if steps == [] then [] else
      var last := steps[|steps| - 1];
      GuiInputs(steps[..|steps| - 1]) + if last.Input? then [last.event] else []
  }

  /** What one step means for the latch. */
  ghost function LatchStep<P>(s: GuiState<P>, step: GuiStep<P>): seq<Step<P>>
    requires WellFormed(s)
  {
    match step
    case Input(e) => [Arrive(Front(s), e)]
    case Remove(p) => [Forget(p)]
    case _ => []
  }

  ghost function LatchSteps<P>(s: GuiState<P>, steps: seq<GuiStep<P>>): seq<Step<P>>
    requires WellFormed(s)
  {
    if steps == [] then [] else
      var before := steps[..|steps| - 1];
      LatchSteps(s, before) + LatchStep(GuiRun(s, before), steps[|steps| - 1])
  }

  /** The events routed to `p`, with the keys as they came from the hardware. */
  ghost function RawStream<P>(s: GuiState<P>, steps: seq<GuiStep<P>>, p: P): seq<Event>
    requires WellFormed(s)
  {
    Stream(Log(s.latch, LatchSteps(s, steps)), p)
  }

  /** The events `p` received, turned by the orientation it had at that moment. */
  ghost function PortStream<P>(s: GuiState<P>, steps: seq<GuiStep<P>>, p: P): seq<Event>
    requires WellFormed(s)
  {
    if steps == [] then [] else
      var before, last := steps[..|steps| - 1], steps[|steps| - 1];
      var g := GuiRun(s, before);
      PortStream(s, before, p)
      + if Receives(g, last) == Some(p) then [Rotate(last.event, p in g.vertical)] else []
  }

  /** The port is never turned while some of its arrow keys, but not all four, are down. */
  ghost predicate TurnsFreely<P>(s: GuiState<P>, steps: seq<GuiStep<P>>, p: P)
    requires WellFormed(s)
  {
    steps == [] ||
    (var before := steps[..|steps| - 1];
     && TurnsFreely(s, before, p)
     && ((p in GuiRun(s, before).vertical) != (p in GuiRun(s, steps).vertical)
         ==> !SomeArrows(KeysDown(RawStream(s, before, p)))))
  }

  /** The keys the port has down are the keys routed to it that are down, turned as the port stands. */
  ghost predicate KeysMatch<P>(s: GuiState<P>, steps: seq<GuiStep<P>>, p: P)
    requires WellFormed(s)
  {
    KeysDown(PortStream(s, steps, p)) == RotateKeys(KeysDown(RawStream(s, steps, p)), p in GuiRun(s, steps).vertical)
  }

  /** The keys match after every step of the run. */
  ghost predicate KeysAlwaysMatch<P>(s: GuiState<P>, steps: seq<GuiStep<P>>, p: P)
    requires WellFormed(s)
  {
    KeysMatch(s, steps, p) && (steps == [] || KeysAlwaysMatch(s, steps[..|steps| - 1], p))
  }

  lemma {:induction false} LatchStepsPush<P>(s: GuiState<P>, before: seq<GuiStep<P>>, last: GuiStep<P>)
    requires WellFormed(s)
    ensures GuiRun(s, before + [last]) == Apply(GuiRun(s, before), last)
    ensures last.Input? ==>
              && LatchSteps(s, before + [last]) == LatchSteps(s, before) + [Arrive(Front(GuiRun(s, before)), last.event)]
              && GuiInputs(before + [last]) == GuiInputs(before) + [last.event]
    ensures last.Remove? ==> LatchSteps(s, before + [last]) == LatchSteps(s, before) + [Forget(last.port)]
    ensures !last.Input? && !last.Remove? ==> LatchSteps(s, before + [last]) == LatchSteps(s, before)
    ensures !last.Input? ==> GuiInputs(before + [last]) == GuiInputs(before)
  {
    assert (before + [last])[..|before|] == before;
  }

  lemma {:induction false} PortStreamPush<P>(s: GuiState<P>, before: seq<GuiStep<P>>, last: GuiStep<P>, p: P)
    requires WellFormed(s)
    ensures var g := GuiRun(s, before);
            PortStream(s, before + [last], p) == PortStream(s, before, p)
              + if Receives(g, last) == Some(p) then [Rotate(last.event, p in g.vertical)] else []
  {
    assert (before + [last])[..|before|] == before;
  }

  /** Seen from the keys, the GUI is the latch: layers, lockdown and flags only choose the front. */
  lemma {:induction false} GuiIsLatch<P>(s: GuiState<P>, steps: seq<GuiStep<P>>)
    requires WellFormed(s)
    ensures GuiRun(s, steps).latch == Run(s.latch, LatchSteps(s, steps))
    ensures Inputs(LatchSteps(s, steps)) == GuiInputs(steps)
    ensures forall l | l in LatchSteps(s, steps) :: l.Arrive? || (l.Forget? && Remove(l.gone) in steps)
  {
    if steps != [] {
      var before, last := steps[..|steps| - 1], steps[|steps| - 1];
      assert steps == before + [last];
      GuiIsLatch(s, before);
      LatchStepsPush(s, before, last);
      if last.Input? {
        RunPush(s.latch, LatchSteps(s, before), Arrive(Front(GuiRun(s, before)), last.event));
      } else if last.Remove? {
        RunPush(s.latch, LatchSteps(s, before), Forget(last.port));
      }
    }
  }

  lemma {:induction false} RotatedDownPush(es: seq<Event>, rotated: seq<Event>, e: Event, vertical: bool)
    requires KeysDown(rotated) == RotateKeys(KeysDown(es), vertical)
    ensures KeysDown(rotated + [Rotate(e, vertical)]) == RotateKeys(KeysDown(es + [e]), vertical)
  {
    KeysDownPush(es, e);
    KeysDownPush(rotated, Rotate(e, vertical));
    RotateKeysUpdate(KeysDown(es), e.key, vertical);
  }

  lemma {:induction false} RotatedKeysPush(es: seq<Event>, rotated: seq<Event>, e: Event, vertical: bool)
    requires KeysDown(rotated) == RotateKeys(KeysDown(es), vertical)
    requires Complementary(es + [e]) && Complementary(rotated)
    ensures KeysDown(rotated + [Rotate(e, vertical)]) == RotateKeys(KeysDown(es + [e]), vertical)
    ensures Complementary(rotated + [Rotate(e, vertical)])
  {
    RotatedDownPush(es, rotated, e, vertical);
    ComplementaryPush(es, e);
    ComplementaryPush(rotated, Rotate(e, vertical));
    RotateKeysUpdate(KeysDown(es), e.key, vertical);
  }

  /** After keys that match, one more step leaves them matching exactly if it does not turn some arrows under way. */
  lemma {:induction false} StepMatchesExactlyWhen<P>(s: GuiState<P>, before: seq<GuiStep<P>>, last: GuiStep<P>, p: P)
    requires WellFormed(s) && s.latch == Idle() && KeysMatch(s, before, p)
    ensures KeysMatch(s, before + [last], p) <==>
              ((p in GuiRun(s, before).vertical) != (p in GuiRun(s, before + [last]).vertical)
               ==> !SomeArrows(KeysDown(RawStream(s, before, p))))
  {
    var g := GuiRun(s, before);
    LatchStepsPush(s, before, last);
    RawStreamPush(s, before, last, p);
    PortStreamPush(s, before, last, p);
    if Receives(g, last) == Some(p) {
      RotatedDownPush(RawStream(s, before, p), PortStream(s, before, p), last.event, p in g.vertical);
    } else {
      assert PortStream(s, before + [last], p) == PortStream(s, before, p);
      UnturnedKeys(KeysDown(RawStream(s, before, p)), p in g.vertical, p in GuiRun(s, before + [last]).vertical);
    }
  }

  /**
   Over every run: the keys a port has down are at all times the turned keys
   routed to it, exactly when it is never turned while some of its arrows, but
   not all four, are down.
   */
  lemma {:induction false} KeysMatchExactlyWhen<P>(s: GuiState<P>, steps: seq<GuiStep<P>>, p: P)
    requires WellFormed(s) && s.latch == Idle()
    ensures KeysAlwaysMatch(s, steps, p) <==> TurnsFreely(s, steps, p)
  {
    if steps == [] {
      assert LatchSteps(s, steps) == [];
      assert RotateKeys({}, p in s.vertical) == {};
    } else {
      var before, last := steps[..|steps| - 1], steps[|steps| - 1];
      assert steps == before + [last];
      KeysMatchExactlyWhen(s, before, p);
      if KeysAlwaysMatch(s, before, p) {
        AlwaysIsNow(s, before, p);
        StepMatchesExactlyWhen(s, before, last, p);
      }
    }
  }

  lemma {:induction false} AlwaysIsNow<P>(s: GuiState<P>, steps: seq<GuiStep<P>>, p: P)
    requires WellFormed(s) && KeysAlwaysMatch(s, steps, p)
    ensures KeysMatch(s, steps, p)
  {
  }

  /**
   What the GUI guarantees to each view port, and the dispatcher relies on: on a
   complementary input, a port that is not removed sees a complementary stream,
   and the keys it has down are the (turned) keys routed to it that are still held.
   */
  lemma {:induction false} PortSeesComplementaryKeys<P>(s: GuiState<P>, steps: seq<GuiStep<P>>, p: P)
    requires WellFormed(s) && s.latch == Idle()
    requires Complementary(GuiInputs(steps)) && Remove(p) !in steps
    requires TurnsFreely(s, steps, p)
    ensures var g := GuiRun(s, steps);
            var raw := RawStream(s, steps, p);
            && Guards(g.latch, raw, p)
            && g.latch.held == KeysDown(GuiInputs(steps))
            && Complementary(PortStream(s, steps, p))
            && KeysDown(PortStream(s, steps, p)) == RotateKeys(KeysDown(raw), p in g.vertical)
  {
    GuiIsLatch(s, steps);
    HeldIsKeysDown(LatchSteps(s, steps));
    NothingDownButHeld(LatchSteps(s, steps), p);
    if steps != [] {
      var before, last := steps[..|steps| - 1], steps[|steps| - 1];
      assert steps == before + [last];
      LatchStepsPush(s, before, last);
      if last.Input? {
        ComplementaryPush(GuiInputs(before), last.event);
      }
      PortSeesComplementaryKeys(s, before, p);
      LastStepTurnsAlike(s, before, last, p);
    }
  }

  /** The step of the induction: one more event, turned as the port stands. */
  lemma {:induction false} LastStepTurnsAlike<P>(s: GuiState<P>, before: seq<GuiStep<P>>, last: GuiStep<P>, p: P)
    requires WellFormed(s) && s.latch == Idle()
    requires TurnsFreely(s, before + [last], p)
    requires Complementary(RawStream(s, before + [last], p))
    requires Complementary(PortStream(s, before, p))
    requires KeysDown(PortStream(s, before, p))
          == RotateKeys(KeysDown(RawStream(s, before, p)), p in GuiRun(s, before).vertical)
    ensures Complementary(PortStream(s, before + [last], p))
    ensures KeysDown(PortStream(s, before + [last], p))
         == RotateKeys(KeysDown(RawStream(s, before + [last], p)), p in GuiRun(s, before + [last]).vertical)
  {
    var g := GuiRun(s, before);
    assert (before + [last])[..|before|] == before;
    RawStreamPush(s, before, last, p);
    if Receives(g, last) == Some(p) {
      RotatedKeysPush(RawStream(s, before, p), PortStream(s, before, p), last.event, p in g.vertical);
    } else {
      assert PortStream(s, before + [last], p) == PortStream(s, before, p);
      UnturnedKeys(KeysDown(RawStream(s, before, p)), p in g.vertical, p in GuiRun(s, before + [last]).vertical);
    }
  }

  lemma {:induction false} RawStreamPush<P>(s: GuiState<P>, before: seq<GuiStep<P>>, last: GuiStep<P>, p: P)
    requires WellFormed(s) && s.latch == Idle()
    ensures var g := GuiRun(s, before);
            if Receives(g, last) == Some(p)
            then RawStream(s, before + [last], p) == RawStream(s, before, p) + [last.event]
            else RawStream(s, before + [last], p) == RawStream(s, before, p)
  {
    var g := GuiRun(s, before);
    LatchStepsPush(s, before, last);
    GuiIsLatch(s, before);
    if last.Input? {
      RunPush(s.latch, LatchSteps(s, before), Arrive(Front(g), last.event));
      if Receives(g, last).Some? {
        StreamPush(Log(s.latch, LatchSteps(s, before)), Delivery(Receives(g, last).value, last.event), p);
      }
    } else if last.Remove? {
      RunPush(s.latch, LatchSteps(s, before), Forget(last.port));
    }
  }

  /** What was in front when `k` was last pressed. */
  ghost function GuiFrontAtPress<P>(s: GuiState<P>, steps: seq<GuiStep<P>>, k: Key): Option<P>
    requires WellFormed(s)
  {
    if steps == [] then None else
      var before, last := steps[..|steps| - 1], steps[|steps| - 1];
      if last.Input? && last.event.kind == Press && last.event.key == k then Front(GuiRun(s, before))
      else GuiFrontAtPress(s, before, k)
  }

  lemma {:induction false} FrontsAgree<P>(s: GuiState<P>, steps: seq<GuiStep<P>>, k: Key)
    requires WellFormed(s)
    ensures GuiFrontAtPress(s, steps, k) == FrontAtPress(LatchSteps(s, steps), k)
  {
    if steps != [] {
      var before, last := steps[..|steps| - 1], steps[|steps| - 1];
      assert steps == before + [last];
      FrontsAgree(s, before, k);
      LatchStepsPush(s, before, last);
      if last.Input? {
        FrontAtPressPush(LatchSteps(s, before), Arrive(Front(GuiRun(s, before)), last.event), k);
      } else if last.Remove? {
        FrontAtPressPush(LatchSteps(s, before), Forget(last.port), k);
      }
    }
  }

  /**
   A release handed to a port clears a key routed to it exactly when the key is
   held and the port was in front at its last press.
   */
  lemma {:induction false} PortReleaseHasItsPressExactlyWhen<P>(s: GuiState<P>, steps: seq<GuiStep<P>>, p: P, e: Event)
    requires WellFormed(s) && s.latch == Idle()
    requires Complementary(GuiInputs(steps)) && Remove(p) !in steps
    requires e.kind == Release && Receives(GuiRun(s, steps), GuiStep.Input(e)) == Some(p)
    ensures e.key in KeysDown(RawStream(s, steps, p))
       <==> e.key in GuiRun(s, steps).latch.held && GuiFrontAtPress(s, steps, e.key) == Some(p)
  {
    GuiIsLatch(s, steps);
    FrontsAgree(s, steps, e.key);
    ReleaseHasItsPressExactlyWhen(LatchSteps(s, steps), p, Front(GuiRun(s, steps)), e);
  }

  // ----- a press and its release, seen by a port that has been turned -----

  function LastPress(es: seq<Event>, k: Key): (i: Option<nat>)
    ensures i.Some? ==> i.value < |es| && es[i.value].kind == Press && es[i.value].key == k
  {
    if es == [] then None
    else if es[|es| - 1].kind == Press && es[|es| - 1].key == k then Some(|es| - 1)
    else LastPress(es[..|es| - 1], k)
  }

  /** How the port stood when it was last handed a press of `k`. */
  ghost predicate VerticalAtPress<P>(s: GuiState<P>, steps: seq<GuiStep<P>>, p: P, k: Key)
    requires WellFormed(s)
  {
    steps != [] &&
    var before, last := steps[..|steps| - 1], steps[|steps| - 1];
    var g := GuiRun(s, before);
    if Receives(g, last) == Some(p) && last.event.kind == Press && last.event.key == k then p in g.vertical
    else VerticalAtPress(s, before, p, k)
  }

  /** The port has as many events as were routed to it, its last press of `k` among them, turned as it stood then. */
  ghost predicate SeesPress<P>(s: GuiState<P>, steps: seq<GuiStep<P>>, p: P, k: Key)
    requires WellFormed(s)
  {
    var raw, out := RawStream(s, steps, p), PortStream(s, steps, p);
    var i := LastPress(raw, k);
    |out| == |raw| && (i.Some? ==> out[i.value] == Rotate(raw[i.value], VerticalAtPress(s, steps, p, k)))
  }

  lemma {:induction false} LastPressPush(es: seq<Event>, e: Event, k: Key)
    ensures LastPress(es + [e], k) == if e.kind == Press && e.key == k then Some(|es|) else LastPress(es, k)
  {
    assert (es + [e])[..|es|] == es;
  }

  lemma {:induction false} DownWasPressed(es: seq<Event>, k: Key)
    requires k in KeysDown(es)
    ensures LastPress(es, k).Some?
  {
    var last := es[|es| - 1];
    if !(last.kind == Press && last.key == k) {
      DownWasPressed(es[..|es| - 1], k);
    }
  }

  lemma {:induction false} RunSeesPress<P>(s: GuiState<P>, steps: seq<GuiStep<P>>, p: P, k: Key)
    requires WellFormed(s) && s.latch == Idle()
    ensures SeesPress(s, steps, p, k)
  {
    if steps == [] {
      assert LatchSteps(s, steps) == [];
    } else {
      var before, last := steps[..|steps| - 1], steps[|steps| - 1];
      assert steps == before + [last];
      RunSeesPress(s, before, p, k);
      RawStreamPush(s, before, last, p);
      PortStreamPush(s, before, last, p);
      if Receives(GuiRun(s, before), last) == Some(p) {
        LastPressPush(RawStream(s, before, p), last.event, k);
      }
    }
  }

  /**
   Whatever turns lie between: the release a port is handed names the key it saw
   pressed exactly when the key is no arrow or the port stands as it did at the
   press.  A key so named, and no other, comes up.
   */
  lemma {:induction false} ReleaseNamesItsPressExactlyWhen<P>(s: GuiState<P>, steps: seq<GuiStep<P>>, p: P, e: Event)
    requires WellFormed(s) && s.latch == Idle()
    requires e.kind == Release && Receives(GuiRun(s, steps), GuiStep.Input(e)) == Some(p)
    requires e.key in KeysDown(RawStream(s, steps, p))
    ensures LastPress(RawStream(s, steps, p), e.key).Some?
    ensures var i, before := LastPress(RawStream(s, steps, p), e.key).value, PortStream(s, steps, p);
            var after := PortStream(s, steps + [GuiStep.Input(e)], p);
            && |after| == |before| + 1 && i < |before| && after[..|before|] == before
            && before[i].kind == Press && after[|before|].kind == Release
            && KeysDown(after) == KeysDown(before) - {after[|before|].key}
            && (after[|before|].key == before[i].key
                <==> !IsArrow(e.key) || (p in GuiRun(s, steps).vertical) == VerticalAtPress(s, steps, p, e.key))
  {
    DownWasPressed(RawStream(s, steps, p), e.key);
    RunSeesPress(s, steps, p, e.key);
    PortStreamPush(s, steps, GuiStep.Input(e), p);
    var before := PortStream(s, steps, p);
    KeysDownPush(before, Rotate(e, p in GuiRun(s, steps).vertical));
    assert (before + [Rotate(e, p in GuiRun(s, steps).vertical)])[..|before|] == before;
  }

  /** A key is held after every step but perhaps the last. */
  ghost predicate GuiHeldThroughout<P>(s: GuiState<P>, steps: seq<GuiStep<P>>)
    requires WellFormed(s)
  {
    |steps| <= 1 ||
    var before := steps[..|steps| - 1];
    GuiRun(s, before).latch.held != {} && GuiHeldThroughout(s, before)
  }

  /** Between "no key held" and the next "no key held", one port at most receives anything. */
  lemma {:induction false} OnePortPerSession<P>(s: GuiState<P>, steps: seq<GuiStep<P>>, p: P, q: P)
    requires WellFormed(s) && s.latch.held == {}
    requires steps != [] && steps[0].Input? && steps[0].event.kind == Press
    requires Complementary(GuiInputs(steps))
    requires GuiHeldThroughout(s, steps)
    requires RawStream(s, steps, p) != [] && RawStream(s, steps, q) != []
    ensures p == q && Front(s) == Some(p)
  {
    var ls := LatchSteps(s, steps);
    GuiIsLatch(s, steps);
    SessionSteps(s, steps);
    OneTargetPerSession(s.latch, ls);
    StreamComesFromLog(Log(s.latch, ls), p);
    StreamComesFromLog(Log(s.latch, ls), q);
  }

  lemma {:induction false} StreamComesFromLog<P>(log: seq<Delivery<P>>, p: P)
    requires Stream(log, p) != []
    ensures exists d :: d in log && d.to == p
  {
    if log[|log| - 1].to != p {
      StreamComesFromLog(log[..|log| - 1], p);
      var d :| d in log[..|log| - 1] && d.to == p;
      assert d in log;
    } else {
      assert log[|log| - 1] in log;
    }
  }

  /** A press session of the GUI is a press session of its latch. */
  lemma {:induction false} SessionSteps<P>(s: GuiState<P>, steps: seq<GuiStep<P>>)
    requires WellFormed(s)
    requires steps != [] && steps[0].Input? && steps[0].event.kind == Press
    requires GuiHeldThroughout(s, steps)
    ensures var ls := LatchSteps(s, steps);
            ls != [] && ls[0] == Arrive(Front(s), steps[0].event) && HeldThroughout(s.latch, ls)
  {
    var before, last := steps[..|steps| - 1], steps[|steps| - 1];
    assert steps == before + [last];
    LatchStepsPush(s, before, last);
    var ls, ms := LatchSteps(s, steps), LatchSteps(s, before);
    if before == [] {
      assert ls == [Arrive(Front(s), steps[0].event)];
    } else {
      assert before[0] == steps[0];
      SessionSteps(s, before);
      GuiIsLatch(s, before);
      if ls != ms {
        assert ls[..|ls| - 1] == ms;
      }
    }
  }
}
