/**
 Keys, input events and the one-byte bitmask of held keys that every layer of
 the input pipeline keeps.  The mask is what the code computes with; the
 specifications speak of the set of keys it stands for.
 */
module Keys {
  datatype Key = Up | Down | Right | Left | Ok | Back

  datatype EventType = Press | Release | Short | Long | Repeat

  datatype Event = Event(sequence: nat, key: Key, kind: EventType)

  /** `1 << key`, with the keys numbered in the order of their declaration. */
  function KeyBit(k: Key): bv8 {
    match k
    case Up => 1
    case Down => 2
    case Right => 4
    case Left => 8
    case Ok => 16
    case Back => 32
  }

  /** The keys whose bit is set. */
  ghost function KeysOf(mask: bv8): set<Key> {
    set k: Key | mask & KeyBit(k) != 0
  }

  /** Only the six key bits are ever used. */
  predicate IsKeyMask(mask: bv8) {
    mask < 64
  }

  lemma {:induction false} SetBit(mask: bv8, k: Key)
    requires IsKeyMask(mask)
    ensures IsKeyMask(mask | KeyBit(k))
    ensures KeysOf(mask | KeyBit(k)) == KeysOf(mask) + {k}
  {
    forall j: Key
      ensures j in KeysOf(mask | KeyBit(k)) <==> j in KeysOf(mask) + {k}
    {
      match k case Up => case Down => case Right => case Left => case Ok => case Back =>
    }
  }

  lemma {:induction false} ClearBit(mask: bv8, k: Key)
    requires IsKeyMask(mask)
    ensures IsKeyMask(mask & !KeyBit(k))
    ensures KeysOf(mask & !KeyBit(k)) == KeysOf(mask) - {k}
  {
    forall j: Key
      ensures j in KeysOf(mask & !KeyBit(k)) <==> j in KeysOf(mask) - {k}
    {
      match k case Up => case Down => case Right => case Left => case Ok => case Back =>
    }
  }

  lemma {:induction false} EmptyMask(mask: bv8)
    requires IsKeyMask(mask)
    ensures mask == 0 <==> KeysOf(mask) == {}
  {
    if mask != 0 {
      assert exists k: Key :: k in KeysOf(mask) by {
        if mask & KeyBit(Up) != 0 {
          assert Up in KeysOf(mask);
        } else if mask & KeyBit(Down) != 0 {
          assert Down in KeysOf(mask);
        } else if mask & KeyBit(Right) != 0 {
          assert Right in KeysOf(mask);
        } else if mask & KeyBit(Left) != 0 {
          assert Left in KeysOf(mask);
        } else if mask & KeyBit(Ok) != 0 {
          assert Ok in KeysOf(mask);
        } else {
          assert Back in KeysOf(mask);
        }
      }
    }
  }

  function HeldAfter(held: set<Key>, e: Event): set<Key> {
    match e.kind
    case Press => held + {e.key}
    case Release => held - {e.key}
    case _ => held
  }

  /** The complementarity check on the mask; anything but a press or release of a key that is up is refused. */
  method TrackHeld(mask: bv8, e: Event) returns (updated: bv8, accepted: bool)
    requires IsKeyMask(mask)
    ensures IsKeyMask(updated) && KeysOf(updated) == HeldAfter(KeysOf(mask), e)
    ensures accepted <==> e.kind == Press || e.kind == Release || e.key in KeysOf(mask)
  {
    SetBit(mask, e.key);
    ClearBit(mask, e.key);
    var keyBit := KeyBit(e.key);
    updated, accepted := mask, true;
    if e.kind == Release {
      updated := updated & !keyBit;
    } else if e.kind == Press {
      updated := updated | keyBit;
    } else if updated & keyBit == 0 {
      accepted := false;
    }
  }

  /** The test for the first key down: no key but `k` is held. */
  predicate OnlyKey(mask: bv8, k: Key)
    requires IsKeyMask(mask)
    ensures OnlyKey(mask, k) <==> KeysOf(mask) <= {k}
  {
    ClearBit(mask, k);
    EmptyMask(mask & !KeyBit(k));
    mask & !KeyBit(k) == 0
  }

  /** The keys down after a stream of events: pressed and not released since. */
  ghost function KeysDown(es: seq<Event>): set<Key> {
    if es == [] then {} else HeldAfter(KeysDown(es[..|es| - 1]), es[|es| - 1])
  }

  /** No key is pressed while it is down. */
  ghost predicate Complementary(es: seq<Event>) {
    es == [] ||
    (var before, e := es[..|es| - 1], es[|es| - 1];
     Complementary(before) && (e.kind == Press ==> e.key !in KeysDown(before)))
  }

  /** The press at `i` is followed by the release of its key, with no press of it in between. */
  ghost predicate ReleasedLater(es: seq<Event>, i: nat)
    requires i < |es|
  {
    exists j :: i < j < |es| && es[j].kind == Release && es[j].key == es[i].key
      && forall m :: i < m < j ==> !(es[m].kind == Press && es[m].key == es[i].key)
  }

  lemma {:induction false} KeysDownPush(es: seq<Event>, e: Event)
    ensures KeysDown(es + [e]) == HeldAfter(KeysDown(es), e)
  {
    assert (es + [e])[..|es|] == es;
  }

  /** The event at `i` presses `k`, and no later one releases it. */
  predicate PressedForGood(es: seq<Event>, k: Key, i: nat)
    requires i < |es|
  {
    es[i].kind == Press && es[i].key == k && forall j :: i < j < |es| ==> !(es[j].kind == Release && es[j].key == k)
  }

  /** A key is down exactly when some press of it has no release of it after it. */
  lemma {:induction false} DownExactlyWhen(es: seq<Event>, k: Key)
    ensures k in KeysDown(es) <==> exists i :: 0 <= i < |es| && PressedForGood(es, k, i)
  {
    if es != [] {
      var n := |es| - 1;
      var before := es[..n];
      DownExactlyWhen(before, k);
      if es[n].kind == Press && es[n].key == k {
        assert PressedForGood(es, k, n);
      } else if es[n].kind == Release && es[n].key == k {
        assert forall i :: 0 <= i < |es| ==> !PressedForGood(es, k, i);
      } else {
        forall i | 0 <= i < n
          ensures PressedForGood(es, k, i) <==> PressedForGood(before, k, i)
        {
          assert forall j :: i < j < n ==> es[j] == before[j];
        }
      }
    }
  }

  lemma {:induction false} ComplementaryPush(es: seq<Event>, e: Event)
    ensures Complementary(es + [e]) <==> Complementary(es) && (e.kind == Press ==> e.key !in KeysDown(es))
  {
    assert (es + [e])[..|es|] == es;
  }

  lemma {:induction false} ComplementaryPrefix(es: seq<Event>, n: nat)
    requires n <= |es| && Complementary(es)
    ensures Complementary(es[..n])
  {
    if n < |es| {
      ComplementaryPrefix(es[..|es| - 1], n);
      assert es[..|es| - 1][..n] == es[..n];
    } else {
      assert es[..n] == es;
    }
  }

  /** A pressed key that is not down at the end was released after its last press. */
  lemma {:induction false} AbsentMeansReleased(es: seq<Event>, i: nat)
    requires i < |es| && es[i].kind == Press && es[i].key !in KeysDown(es)
    requires Complementary(es)
    ensures ReleasedLater(es, i)
  {
    var n := |es| - 1;
    var init := es[..n];
    assert es == init + [es[n]];
    KeysDownPush(init, es[n]);
    if i < n && es[i].key !in KeysDown(init) {
      AbsentMeansReleased(init, i);
      var j :| i < j < n && init[j].kind == Release && init[j].key == init[i].key
        && forall m :: i < m < j ==> !(init[m].kind == Press && init[m].key == init[i].key);
      assert es[j].kind == Release;
      assert forall m :: i < m < j ==> es[m] == init[m];
    } else if i < n {
      LastStaysDown(init, i);
    }
  }

  /**
   In a complementary stream a key that is down at the end, and was pressed at
   `i`, has either been down ever since, or was released after `i`.
   */
  lemma {:induction false} LastStaysDown(es: seq<Event>, i: nat)
    requires i < |es| && es[i].kind == Press && es[i].key in KeysDown(es)
    requires Complementary(es)
    ensures ReleasedLater(es, i) || forall m :: i < m < |es| ==> !(es[m].kind == Press && es[m].key == es[i].key)
  {
    var n := |es| - 1;
    if i < n {
      var init := es[..n];
      assert es == init + [es[n]];
      KeysDownPush(init, es[n]);
      if es[i].key in KeysDown(init) {
        LastStaysDown(init, i);
        assert forall m :: i < m < n ==> es[m] == init[m];
        if ReleasedLater(init, i) {
          var j :| i < j < n && init[j].kind == Release && init[j].key == init[i].key
            && forall m :: i < m < j ==> !(init[m].kind == Press && init[m].key == init[i].key);
          assert es[j].kind == Release;
        }
      } else {
        AbsentMeansReleased(init, i);
        var j :| i < j < n && init[j].kind == Release && init[j].key == init[i].key
          && forall m :: i < m < j ==> !(init[m].kind == Press && init[m].key == init[i].key);
        assert es[j].kind == Release;
        assert forall m :: i < m < j ==> es[m] == init[m];
      }
    }
  }
}
