/** The scene manager: the stack it updates in place and the handlers it calls. */
module SceneManagement {
  import opened Options
  import opened SceneStack

  class SceneManager {
    const sceneNum: nat
    var sceneIdStack: seq<Scene>
    ghost var calls: seq<Handled>

    ghost function Value(): Stack
      reads this
    {
      Stack(sceneIdStack, calls)
    }

    /** Every id on the stack has handlers. */
    ghost predicate Valid()
      reads this
    {
      Coherent(Value()) && forall i :: 0 <= i < |sceneIdStack| ==> sceneIdStack[i] < sceneNum
    }

    constructor (sceneNum: nat)
      ensures Valid() && Value() == EMPTY && this.sceneNum == sceneNum
    {
      this.sceneNum := sceneNum;
      sceneIdStack, calls := [], [];
    }

    method OnEnter(id: Scene)
      requires id < sceneNum
      modifies this`calls
      ensures calls == old(calls) + [Entered(id)]
    {
      calls := calls + [Entered(id)];
    }

    method OnExit(id: Scene)
      requires id < sceneNum
      modifies this`calls
      ensures calls == old(calls) + [Exited(id)]
    {
      calls := calls + [Exited(id)];
    }

    method NextScene(nextSceneId: Scene)
      requires Valid() && nextSceneId < sceneNum
      modifies this
      ensures Valid() && Value() == Apply(old(Value()), Next(nextSceneId)).0
      ensures sceneIdStack == old(sceneIdStack) + [nextSceneId]
      ensures calls == old(calls) + (if old(sceneIdStack) == [] then [] else [Exited(old(sceneIdStack)[|old(sceneIdStack)| - 1])])
                       + [Entered(nextSceneId)]
    {
      SwitchIsCoherent(Value(), sceneIdStack + [nextSceneId]);
      if |sceneIdStack| > 0 {
        OnExit(sceneIdStack[|sceneIdStack| - 1]);
      }
      sceneIdStack := sceneIdStack + [nextSceneId];
      OnEnter(nextSceneId);
    }

    method PreviousScene() returns (ok: bool)
      requires Valid()
      modifies this
      ensures Valid() && (Value(), ok) == Apply(old(Value()), Previous)
      ensures ok == (|old(sceneIdStack)| > 1)
      ensures old(sceneIdStack) != [] ==> sceneIdStack == old(sceneIdStack)[..|old(sceneIdStack)| - 1]
    {
      if |sceneIdStack| == 0 {
        return false;
      }
      var last := |sceneIdStack| - 1;
      SwitchIsCoherent(Value(), sceneIdStack[..last]);
      var cur := sceneIdStack[last];
      sceneIdStack := sceneIdStack[..last];
      if |sceneIdStack| == 0 {
        OnExit(cur);
        assert calls == old(calls) + [Exited(cur)] + [];
        return false;
      }
      var prev := sceneIdStack[|sceneIdStack| - 1];
      OnExit(cur);
      OnEnter(prev);
      return true;
    }

    /** The search both callers make: down from the scene below the top. */
    method SearchBelow(sceneId: Scene) returns (found: bool, place: nat)
      requires |sceneIdStack| > 0
      ensures found == TopmostBelow(sceneIdStack, sceneId, |sceneIdStack| - 1).Some?
      ensures found ==> TopmostBelow(sceneIdStack, sceneId, |sceneIdStack| - 1) == Some(place)
    {
      place := |sceneIdStack| - 1;
      found := false;
      while !found
        invariant place < |sceneIdStack|
        invariant !found ==> TopmostBelow(sceneIdStack, sceneId, |sceneIdStack| - 1)
                             == TopmostBelow(sceneIdStack, sceneId, place)
        invariant found ==> TopmostBelow(sceneIdStack, sceneId, |sceneIdStack| - 1) == Some(place)
        decreases !found, place
      {
        if place == 0 {
          return;
        }
        place := place - 1;
        if sceneIdStack[place] == sceneId {
          found := true;
        }
      }
    }

    /** Falls back to the topmost occurrence strictly below the top, or changes nothing when there is none. */
    method SearchAndSwitchToPreviousScene(sceneId: Scene) returns (ok: bool)
      requires Valid()
      modifies this
      ensures Valid() && (Value(), ok) == Apply(old(Value()), SearchPrevious(sceneId))
      ensures ok == exists k :: 0 <= k < |old(sceneIdStack)| - 1 && old(sceneIdStack)[k] == sceneId
      ensures !ok ==> Value() == old(Value())
      ensures ok ==> sceneIdStack < old(sceneIdStack) && Top(Value()) == Some(sceneId)
                     && forall k :: |sceneIdStack| <= k < |old(sceneIdStack)| - 1 ==> old(sceneIdStack)[k] != sceneId
    {
      if |sceneIdStack| == 0 {
        return false;
      }
      var cur := sceneIdStack[|sceneIdStack| - 1];
      var found, place := SearchBelow(sceneId);
      if !found {
        return false;
      }
      SwitchIsCoherent(Value(), sceneIdStack[..place + 1]);
      var prev := sceneIdStack[place];
      sceneIdStack := sceneIdStack[..place + 1];
      OnExit(cur);
      OnEnter(prev);
      return true;
    }

    method HasPreviousScene(sceneId: Scene) returns (found: bool)
      ensures found == exists k :: 0 <= k < |sceneIdStack| - 1 && sceneIdStack[k] == sceneId
    {
      found := false;
      if |sceneIdStack| > 0 {
        var place;
        found, place := SearchBelow(sceneId);
      }
    }

    /** Keeps only the first scene and puts the target on it. */
    method SearchAndSwitchToAnotherScene(sceneId: Scene) returns (ok: bool)
      requires Valid() && sceneId < sceneNum
      modifies this
      ensures Valid() && (Value(), ok) == Apply(old(Value()), SwitchAnother(sceneId))
      ensures ok == (old(sceneIdStack) != [])
      ensures ok ==> sceneIdStack == [old(sceneIdStack)[0], sceneId]
    {
      if |sceneIdStack| == 0 {
        return false;
      }
      SwitchIsCoherent(Value(), [sceneIdStack[0], sceneId]);
      var cur := sceneIdStack[|sceneIdStack| - 1];
      sceneIdStack := sceneIdStack[..1];
      sceneIdStack := sceneIdStack + [sceneId];
      assert sceneIdStack == [old(sceneIdStack)[0], sceneId];
      OnExit(cur);
      OnEnter(sceneId);
      return true;
    }

    /** Back: `consumes` is what the top scene's event handler answers. */
    method HandleBackEvent(consumes: bool) returns (consumed: bool)
      requires Valid()
      modifies this
      ensures Valid() && (Value(), consumed) == Apply(old(Value()), Back(consumes))
      ensures consumes && old(sceneIdStack) != [] ==> consumed && Value() == old(Value())
      ensures !consumes ==> consumed == (|old(sceneIdStack)| > 1)
      ensures !consumes && old(sceneIdStack) != [] ==> sceneIdStack == old(sceneIdStack)[..|old(sceneIdStack)| - 1]
    {
      consumed := false;
      if |sceneIdStack| > 0 {
        consumed := consumes;
      }
      if !consumed {
        consumed := PreviousScene();
      }
    }

    /** Stopping leaves the top scene and nothing is shown, but the stack is kept. */
    method Stop()
      requires Valid()
      modifies this`calls
      ensures Alternate(calls) && Shown(calls) == None
      ensures calls == old(calls) + if sceneIdStack == [] then [] else [Exited(sceneIdStack[|sceneIdStack| - 1])]
    {
      if |sceneIdStack| > 0 {
        var cur := sceneIdStack[|sceneIdStack| - 1];
        AlternatePush(calls, Exited(cur));
        OnExit(cur);
      }
    }
  }
}
