/**
 The loader's lock counter as a protocol.  Any number of actors, in any
 interleaving: actor 0 is the CLI thread (one, because it holds the CLI mutex
 for a whole command), the others start applications from the menu, RPC, the
 desktop or the archive.  The application thread is the one actor they share.
 */
module LoaderLock {
  import opened Options

  type App = string

  datatype ThreadState = Stopped | Starting | Running

  /** What the actors share: the loader's fields and its thread's settings. */
  datatype Shared = Shared(
    lockCount: nat,
    application: Option<App>,
    arguments: Option<string>,
    thread: ThreadState,
    callback: Option<App>,
    context: Option<string>
  )

  /** A uint8_t counter. */
  function CountUp(s: Shared): Shared {
    s.(lockCount := if s.lockCount == 255 then 0 else s.lockCount + 1)
  }

  function CountDown(s: Shared): Shared {
    if s.lockCount > 0 then s.(lockCount := s.lockCount - 1) else s
  }

  /** An empty argument string is not copied. */
  function Given(arguments: Option<string>): Option<string> {
    if arguments == Some("") then None else arguments
  }

  datatype Pc =
    | Away                                              // holds nothing
    | Command                                           // CLI command running under the lock
    | Locked                                            // the lock is taken, nothing started yet
    | Assigned(app: App, arguments: Option<string>)     // application and arguments stored
    | Configured(app: App, arguments: Option<string>)   // thread set up
    | Launching(app: App, arguments: Option<string>)    // waiting for the RTOS to create the thread
    | Refused                                           // the RTOS refused: stop callback entered
    | Cleaned                                           // the callback freed the arguments
    | Released                                          // the callback unlocked; application not cleared
    | Overdrawn                                         // the same in the CLI, which will unlock once more
    | Settling                                          // CLI after that: about to unlock what it no longer holds
    | Opened                                            // CLI open succeeded, counter not yet raised
    | Closing                                           // CLI command done, about to unlock

  /** The application thread: created, in the application, and through its stop callback. */
  datatype Body = Absent | Fresh | Active | Ending | Freed

  datatype State = State(shared: Shared, pcs: seq<Pc>, body: Body, runs: Option<(App, Option<string>)>)

  datatype Action =
    | Lock
    | Assign(app: App, arguments: Option<string>)
    | Configure
    | Launch
    | Create
    | Refuse
    | FreeArguments
    | DropLock
    | ClearApplication
    | Raise
    | Return
    | Unlock

  datatype Step =
    | By(actor: nat, action: Action)
    | BodyBegins
    | BodyEnds
    | BodyFrees
    | BodyUnlocks

  /** The action is next in the actor's code. */
  predicate Follows(i: nat, pc: Pc, a: Action) {
    match a
    case Lock => pc == Away
    case Assign(_, _) => pc == if i == 0 then Command else Locked
    case Configure => pc.Assigned?
    case Launch => pc.Configured?
    case Create => pc.Launching?
    case Refuse => pc.Launching?
    case FreeArguments => pc == Refused
    case DropLock => pc == Cleaned
    case ClearApplication => pc == if i == 0 then Overdrawn else Released
    case Raise => pc == Opened
    case Return => pc == Command
    case Unlock => pc == Closing || pc == Settling
  }

  predicate Enabled(s: State, step: Step) {
    match step
    case By(i, a) => i < |s.pcs| && Follows(i, s.pcs[i], a)
    case BodyBegins => s.body == Fresh
    case BodyEnds => s.body == Active
    case BodyFrees => s.body == Ending
    case BodyUnlocks => s.body == Freed
  }

  /** The assertions the loader and the thread code make on the action's path. */
  predicate Asserts(s: State, step: Step) {
    match step
    case By(_, Assign(_, _)) => s.shared.arguments == None
    case By(_, Configure) => s.shared.thread == Stopped
    case By(_, Launch) => s.shared.thread == Stopped
    case By(_, Refuse) => s.shared.thread == Starting
    case BodyBegins => s.shared.thread == Starting
    case BodyEnds => s.shared.thread == Running
    case _ => true
  }

  /** The thread is set up from the application and arguments this actor stored, and from no NULL pointer. */
  predicate OwnApplication(s: State, step: Step) {
    step.By? && step.action == Configure && step.actor < |s.pcs| && s.pcs[step.actor].Assigned? ==>
      var pc := s.pcs[step.actor];
      s.shared.application == Some(pc.app) && s.shared.arguments == pc.arguments
  }

  function Effect(s: Shared, a: Action): Shared {
    match a
    case Lock => if s.lockCount == 0 then CountUp(s) else s
    case Assign(app, arguments) => s.(application := Some(app), arguments := Given(arguments))
    case Configure => s.(callback := s.application, context := s.arguments)
    case Launch => s.(thread := Starting)
    case Create => s
    case Refuse => s.(thread := Stopped)
    case FreeArguments => s.(arguments := None)
    case DropLock => CountDown(s)
    case ClearApplication => s.(application := None)
    case Raise => CountUp(s)
    case Return => s
    case Unlock => CountDown(s)
  }

  function PcAfter(i: nat, pc: Pc, a: Action, s: Shared): Pc
    requires Follows(i, pc, a)
  {
    match a
    case Lock => if s.lockCount > 0 then Away else if i == 0 then Command else Locked
    case Assign(app, arguments) => Assigned(app, Given(arguments))
    case Configure => Configured(pc.app, pc.arguments)
    case Launch => Launching(pc.app, pc.arguments)
    case Create => if i == 0 then Opened else Away
    case Refuse => Refused
    case FreeArguments => Cleaned
    case DropLock => if i == 0 then Overdrawn else Released
    case ClearApplication => if i == 0 then Settling else Away
    case Raise => Closing
    case Return => Closing
    case Unlock => Away
  }

  function Next(s: State, step: Step): State
    requires Enabled(s, step)
  {
    match step
    case By(i, a) =>
      State(Effect(s.shared, a), s.pcs[i := PcAfter(i, s.pcs[i], a, s.shared)],
            if a == Create then Fresh else s.body,
            if a != Create || s.shared.callback == None then s.runs
            else Some((s.shared.callback.value, s.shared.context)))
    case BodyBegins => s.(body := Active, shared := s.shared.(thread := Running))
    case BodyEnds => s.(body := Ending, shared := s.shared.(thread := Stopped))
    case BodyFrees => s.(body := Freed, shared := s.shared.(arguments := None))
    case BodyUnlocks => s.(body := Absent, shared := CountDown(s.shared))
  }

  /** `n` starters beside the CLI, nothing held, no application started yet. */
  function Init(n: nat): State {
    State(Shared(0, None, None, Stopped, None, None), seq(n + 1, _ => Away), Absent, None)
  }

  predicate Possible(s: State, run: seq<Step>)
    decreases |run|, 0
  {
    run == [] || (Possible(s, run[..|run| - 1]) && Enabled(After(s, run[..|run| - 1]), run[|run| - 1]))
  }

  function After(s: State, run: seq<Step>): State
    requires Possible(s, run)
    decreases |run|, 1
  {
    if run == [] then s else Next(After(s, run[..|run| - 1]), run[|run| - 1])
  }

  // ----- counting holders -----

  /** Must still undo a `loader_lock`. */
  predicate Holds(pc: Pc) {
    pc != Away && pc != Released
  }

  /** Started an application whose unlock is not yet paid for. */
  predicate InDebt(pc: Pc) {
    pc == Opened
  }

  /** Was unlocked for by the stop callback of its own refused start, and will unlock again. */
  predicate InOverdraft(pc: Pc) {
    pc == Overdrawn || pc == Settling
  }

  /** May still touch the thread and the arguments. */
  predicate Engaged(pc: Pc) {
    Holds(pc) && pc != Opened && pc != Closing && !InOverdraft(pc)
  }

  predicate Owes(pc: Pc) {
    Holds(pc) && !InDebt(pc) && !InOverdraft(pc)
  }

  function Count(pcs: seq<Pc>, p: Pc -> bool): nat {
    if pcs == [] then 0 else Count(pcs[..|pcs| - 1], p) + if p(pcs[|pcs| - 1]) then 1 else 0
  }

  function Alive(body: Body): nat {
    if body == Absent then 0 else 1
  }

  /** lock_count + debt = CLI holder + starters holding the lock + running application. */
  predicate Balanced(s: State) {
    s.shared.lockCount + Count(s.pcs, InDebt) == Count(s.pcs, Holds) + Alive(s.body)
  }

  /** The same with a CLI command allowed for whose lock a refused start has given away: it holds nothing. */
  predicate Covered(s: State) {
    s.shared.lockCount + Count(s.pcs, InDebt) + Count(s.pcs, InOverdraft) == Count(s.pcs, Holds) + Alive(s.body)
  }

  lemma {:induction false} CountUpdated(pcs: seq<Pc>, p: Pc -> bool, i: nat, pc: Pc)
    requires i < |pcs|
    ensures Count(pcs[i := pc], p) + (if p(pcs[i]) then 1 else 0) == Count(pcs, p) + (if p(pc) then 1 else 0)
  {
    var n := |pcs| - 1;
    if i < n {
      CountUpdated(pcs[..n], p, i, pc);
      assert pcs[i := pc][..n] == pcs[..n][i := pc];
    } else {
      assert pcs[i := pc][..n] == pcs[..n];
    }
  }

  lemma {:induction false} CountZero(pcs: seq<Pc>, p: Pc -> bool)
    ensures Count(pcs, p) == 0 <==> forall i :: 0 <= i < |pcs| ==> !p(pcs[i])
  {
    if pcs != [] {
      var n := |pcs| - 1;
      CountZero(pcs[..n], p);
      assert forall i :: 0 <= i < n ==> pcs[..n][i] == pcs[i];
    }
  }

  lemma {:induction false} CountSplits(pcs: seq<Pc>)
    ensures Count(pcs, Holds) == Count(pcs, Owes) + Count(pcs, InDebt) + Count(pcs, InOverdraft)
  {
    if pcs != [] {
      CountSplits(pcs[..|pcs| - 1]);
    }
  }

  // ----- the invariant -----

  predicate AtMostOneEngaged(s: State) {
    && (forall i, j :: 0 <= i < j < |s.pcs| ==> !Engaged(s.pcs[i]) || !Engaged(s.pcs[j]))
    && (s.body != Absent ==> forall i :: 0 <= i < |s.pcs| ==> !Engaged(s.pcs[i]))
  }

  /** Only the CLI runs commands. */
  predicate PlacesFit(s: State) {
    && s.pcs != []
    && s.pcs[0] != Locked && s.pcs[0] != Released
    && (forall i :: 0 < i < |s.pcs| ==> s.pcs[i] !in {Command, Opened, Closing, Overdrawn, Settling})
    && s.shared.lockCount <= if s.pcs[0] == Closing then 2 else 1
  }

  /** How an engaged actor left the thread and the arguments. */
  predicate ActorFits(s: Shared, pc: Pc) {
    match pc
    case Command => s.thread == Stopped && s.arguments == None
    case Locked => s.thread == Stopped && s.arguments == None
    case Cleaned => s.thread == Stopped && s.arguments == None
    case Launching(_, _) => s.thread == Starting
    case Assigned(_, _) => s.thread == Stopped
    case Configured(_, _) => s.thread == Stopped
    case Refused => s.thread == Stopped
    case _ => true
  }

  predicate BodyFits(s: Shared, body: Body) {
    match body
    case Fresh => s.thread == Starting
    case Active => s.thread == Running
    case Ending => s.thread == Stopped
    case Freed => s.thread == Stopped && s.arguments == None
    case Absent => true
  }

  predicate ThreadFits(s: State) {
    && (forall i :: 0 <= i < |s.pcs| ==> ActorFits(s.shared, s.pcs[i]))
    && BodyFits(s.shared, s.body)
    && (s.body == Absent && (forall i :: 0 <= i < |s.pcs| ==> !Engaged(s.pcs[i])) ==>
          s.shared.thread == Stopped && s.shared.arguments == None)
  }

  predicate Sound(s: State) {
    PlacesFit(s) && Covered(s) && AtMostOneEngaged(s) && ThreadFits(s)
  }

  /** The stop callback of a refused CLI start, about to unlock. */
  predicate CliRefusal(step: Step) {
    step == By(0, DropLock)
  }

  /** The CLI unlocks what it no longer holds, and the counter is not at zero: it takes somebody else's count. */
  predicate Theft(s: State, step: Step) {
    step == By(0, Unlock) && s.pcs != [] && s.pcs[0] == Settling && s.shared.lockCount > 0
  }

  lemma {:induction false} InitIsSound(n: nat)
    ensures Sound(Init(n))
  {
    var pcs := Init(n).pcs;
    CountZero(pcs, InDebt);
    CountZero(pcs, Holds);
    CountZero(pcs, InOverdraft);
  }

  /** The counter is zero only when nobody holds it and no application runs. */
  lemma {:induction false} UnlockedMeansIdle(s: State)
    requires Sound(s) && s.shared.lockCount == 0
    ensures s.body == Absent
    ensures forall i :: 0 <= i < |s.pcs| ==> s.pcs[i] == Opened || InOverdraft(s.pcs[i]) || !Holds(s.pcs[i])
    ensures s.shared.thread == Stopped && s.shared.arguments == None
  {
    CountSplits(s.pcs);
    CountZero(s.pcs, Owes);
  }

  /** A holder that is not in debt, or a running application, is paid for in the counter. */
  lemma {:induction false} PaidFor(s: State, i: nat)
    requires Sound(s) && i < |s.pcs| && (s.body != Absent || Owes(s.pcs[i]))
    ensures s.shared.lockCount > 0
  {
    CountSplits(s.pcs);
    CountZero(s.pcs, Owes);
  }

  function One(b: bool): nat {
    if b then 1 else 0
  }

  /** What one action does to the counter is what it does to its actor's share of it. */
  lemma {:induction false} ActionBalances(i: nat, pc: Pc, a: Action, s: Shared)
    requires Follows(i, pc, a) && s.lockCount <= 2
    requires a == Unlock || a == DropLock ==> (s.lockCount == 0) == (pc == Settling)
    ensures var pc' := PcAfter(i, pc, a, s);
            Effect(s, a).lockCount + One(InDebt(pc')) + One(InOverdraft(pc')) + One(Holds(pc))
            == s.lockCount + One(InDebt(pc)) + One(InOverdraft(pc)) + One(Holds(pc')) + One(a == Create)
  {
  }

  lemma {:induction false} CountsMove(pcs: seq<Pc>, i: nat, pc: Pc)
    requires i < |pcs|
    ensures Count(pcs[i := pc], Holds) + One(Holds(pcs[i])) == Count(pcs, Holds) + One(Holds(pc))
    ensures Count(pcs[i := pc], InDebt) + One(InDebt(pcs[i])) == Count(pcs, InDebt) + One(InDebt(pc))
    ensures Count(pcs[i := pc], InOverdraft) + One(InOverdraft(pcs[i])) == Count(pcs, InOverdraft) + One(InOverdraft(pc))
  {
    CountUpdated(pcs, Holds, i, pc);
    CountUpdated(pcs, InDebt, i, pc);
    CountUpdated(pcs, InOverdraft, i, pc);
  }

  /** An unlock meets a counter at zero only when the CLI settles after a refused open. */
  lemma {:induction false} UnlockIsPaid(s: State, i: nat, a: Action)
    requires Sound(s) && Enabled(s, By(i, a)) && !Theft(s, By(i, a)) && (a == Unlock || a == DropLock)
    ensures (s.shared.lockCount == 0) == (s.pcs[i] == Settling)
  {
    if s.pcs[i] != Settling {
      PaidFor(s, i);
    }
  }

  lemma {:induction false} ActorKeepsBalance(s: State, i: nat, a: Action)
    requires Sound(s) && Enabled(s, By(i, a)) && !Theft(s, By(i, a))
    ensures Covered(Next(s, By(i, a)))
  {
    if a == Unlock || a == DropLock {
      UnlockIsPaid(s, i, a);
    }
    CountsMove(s.pcs, i, PcAfter(i, s.pcs[i], a, s.shared));
    ActionBalances(i, s.pcs[i], a, s.shared);
    assert a == Create ==> Engaged(s.pcs[i]);
  }

  lemma {:induction false} StepKeepsBalance(s: State, step: Step)
    requires Sound(s) && Enabled(s, step) && !Theft(s, step)
    ensures Covered(Next(s, step))
  {
    if step.By? {
      ActorKeepsBalance(s, step.actor, step.action);
    } else if step == BodyUnlocks {
      PaidFor(s, 0);
    }
  }

  lemma {:induction false} StepKeepsExclusion(s: State, step: Step)
    requires Sound(s) && Enabled(s, step)
    ensures AtMostOneEngaged(Next(s, step))
  {
    if step.By? && step.action == Lock && s.shared.lockCount == 0 {
      UnlockedMeansIdle(s);
    }
  }

  lemma {:induction false} StepKeepsPlaces(s: State, step: Step)
    requires Sound(s) && Enabled(s, step)
    ensures PlacesFit(Next(s, step))
  {
  }

  lemma {:induction false} EngagedKeepsThread(s: State, i: nat, a: Action)
    requires Sound(s) && Enabled(s, By(i, a)) && Engaged(s.pcs[i])
    ensures ThreadFits(Next(s, By(i, a)))
  {
    var after := Next(s, By(i, a)).pcs;
    assert s.body == Absent && ActorFits(s.shared, s.pcs[i]);
    assert Engaged(after[i]) || a in {Create, DropLock, Return};
    assert forall j :: 0 <= j < |s.pcs| && j != i ==> !Engaged(s.pcs[j]);
  }

  lemma {:induction false} OtherKeepsThread(s: State, i: nat, a: Action)
    requires Sound(s) && Enabled(s, By(i, a)) && !Engaged(s.pcs[i])
    ensures ThreadFits(Next(s, By(i, a)))
  {
    var after := Next(s, By(i, a)).pcs;
    assert forall j :: 0 <= j < |s.pcs| ==> Engaged(s.pcs[j]) ==> Engaged(after[j]);
    if a == Lock && s.shared.lockCount == 0 {
      UnlockedMeansIdle(s);
    }
  }

  lemma {:induction false} StepKeepsThread(s: State, step: Step)
    requires Sound(s) && Enabled(s, step)
    ensures ThreadFits(Next(s, step))
  {
    if step.By? {
      if Engaged(s.pcs[step.actor]) {
        EngagedKeepsThread(s, step.actor, step.action);
      } else {
        OtherKeepsThread(s, step.actor, step.action);
      }
    }
  }

  lemma {:induction false} StepKeepsSound(s: State, step: Step)
    requires Sound(s) && Enabled(s, step) && !Theft(s, step)
    ensures Sound(Next(s, step)) && Asserts(s, step)
  {
    StepKeepsPlaces(s, step);
    StepKeepsBalance(s, step);
    StepKeepsExclusion(s, step);
    StepKeepsThread(s, step);
    if step.By? && step.action.Assign? {
      assert ActorFits(s.shared, s.pcs[step.actor]);
    }
  }

  /** No step of the run takes a count. */
  predicate NoTheft(s: State, run: seq<Step>)
    requires Possible(s, run)
  {
    run == [] ||
    var before := run[..|run| - 1];
    NoTheft(s, before) && !Theft(After(s, before), run[|run| - 1])
  }

  lemma {:induction false} RunIsSound(n: nat, run: seq<Step>)
    requires Possible(Init(n), run) && NoTheft(Init(n), run)
    ensures Sound(After(Init(n), run))
  {
    if run == [] {
      InitIsSound(n);
    } else {
      var before := run[..|run| - 1];
      RunIsSound(n, before);
      StepKeepsSound(After(Init(n), before), run[|run| - 1]);
    }
  }

  // ----- when the counter is in balance -----

  lemma {:induction false} TheftUncovers(s: State, step: Step)
    requires Sound(s) && Enabled(s, step) && Theft(s, step)
    ensures !Covered(Next(s, step))
  {
    CountUpdated(s.pcs, Holds, 0, Away);
    CountUpdated(s.pcs, InDebt, 0, Away);
    CountUpdated(s.pcs, InOverdraft, 0, Away);
  }

  /** Covered after every step. */
  predicate CoveredThroughout(s: State, run: seq<Step>)
    requires Possible(s, run)
  {
    Covered(After(s, run)) && (run == [] || CoveredThroughout(s, run[..|run| - 1]))
  }

  /** The counter covers its holders throughout a run exactly when no step of the run takes a count. */
  lemma {:induction false} CoveredExactlyWhen(n: nat, run: seq<Step>)
    requires Possible(Init(n), run)
    ensures CoveredThroughout(Init(n), run) <==> NoTheft(Init(n), run)
  {
    if run == [] {
      InitIsSound(n);
    } else {
      var before, step := run[..|run| - 1], run[|run| - 1];
      CoveredExactlyWhen(n, before);
      if NoTheft(Init(n), before) {
        RunIsSound(n, before);
        if Theft(After(Init(n), before), step) {
          TheftUncovers(After(Init(n), before), step);
        } else {
          StepKeepsSound(After(Init(n), before), step);
        }
      }
    }
  }

  /**
   When the CLI settles after a refused open, a count is taken exactly when
   some other actor holds the lock or an application runs.
   */
  lemma {:induction false} TheftExactlyWhen(s: State)
    requires Sound(s) && s.pcs[0] == Settling
    ensures Enabled(s, By(0, Unlock))
    ensures Theft(s, By(0, Unlock)) <==> s.body != Absent || exists i :: 0 < i < |s.pcs| && Holds(s.pcs[i])
  {
    if i :| 0 < i < |s.pcs| && Holds(s.pcs[i]) {
      PaidFor(s, i);
    } else if s.body != Absent {
      PaidFor(s, 0);
    } else {
      assert forall i :: 0 <= i < |s.pcs| ==> !Owes(s.pcs[i]);
      CountSplits(s.pcs);
      CountZero(s.pcs, Owes);
    }
  }

  /** Once a count is taken, exclusion is lost to whoever locks next: the CLI itself, with its next command. */
  lemma {:induction false} TheftEndsExclusion(s: State)
    requires Sound(s) && Theft(s, By(0, Unlock))
    ensures var t := Next(s, By(0, Unlock));
            Enabled(t, By(0, Lock)) && !AtMostOneEngaged(Next(t, By(0, Lock)))
  {
    TheftExactlyWhen(s);
    var u := Next(Next(s, By(0, Unlock)), By(0, Lock));
    assert Engaged(u.pcs[0]);
    if i :| 0 < i < |s.pcs| && Holds(s.pcs[i]) {
      assert Engaged(u.pcs[i]);
    }
  }

  /** Nobody holds the lock when the window opens, so whoever holds it at its end took it in the window. */
  lemma {:induction false} WindowOpensIdle(s: State)
    requires Sound(s) && Enabled(s, By(0, DropLock))
    ensures var t := Next(s, By(0, DropLock));
            && t.shared.lockCount == 0 && t.body == Absent && t.pcs[0] == Overdrawn
            && forall i :: 0 < i < |t.pcs| ==> !Holds(t.pcs[i])
  {
    PaidFor(s, 0);
    var t := Next(s, By(0, DropLock));
    StepKeepsSound(s, By(0, DropLock));
    UnlockedMeansIdle(t);
  }

  /** Another actor takes the lock between a refused open's two unlocks. */
  predicate LocksInWindow(s: State, step: Step) {
    step.By? && step.actor > 0 && step.action == Lock && s.shared.lockCount == 0 && s.pcs != [] && InOverdraft(s.pcs[0])
  }

  predicate QuietWindows(s: State, run: seq<Step>)
    requires Possible(s, run)
  {
    run == [] ||
    var before := run[..|run| - 1];
    QuietWindows(s, before) && !LocksInWindow(After(s, before), run[|run| - 1])
  }

  /** A decrement that the guard in `loader_unlock` swallows. */
  predicate Suppressed(s: State, step: Step) {
    && (step == BodyUnlocks || (step.By? && step.action in {Unlock, DropLock}))
    && s.shared.lockCount == 0
  }

  /** The guard swallows nothing but the second unlock of a refused open. */
  lemma {:induction false} SuppressedOnlyWhen(s: State, step: Step)
    requires Sound(s) && Enabled(s, step) && Suppressed(s, step)
    ensures step == By(0, Unlock) && s.pcs[0] == Settling
  {
    if step == BodyUnlocks {
      PaidFor(s, 0);
    } else if s.pcs[step.actor] != Settling {
      PaidFor(s, step.actor);
    }
  }

  /**
   If nobody locks between the two unlocks of a refused open, no count is ever
   taken: the guard swallows exactly those second unlocks, and all is in order.
   */
  lemma {:induction false} QuietWindowsAreSafe(n: nat, run: seq<Step>)
    requires Possible(Init(n), run) && QuietWindows(Init(n), run)
    ensures NoTheft(Init(n), run) && Sound(After(Init(n), run))
    ensures var s := After(Init(n), run);
            && (InOverdraft(s.pcs[0]) ==> s.shared.lockCount == 0)
            && forall step :: Enabled(s, step) ==> (Suppressed(s, step) <==> step == By(0, Unlock) && s.pcs[0] == Settling)
  {
    if run == [] {
      InitIsSound(n);
    } else {
      var before, step := run[..|run| - 1], run[|run| - 1];
      QuietWindowsAreSafe(n, before);
      StepKeepsSound(After(Init(n), before), step);
      QuietStep(After(Init(n), before), step);
    }
    var s := After(Init(n), run);
    forall step | Enabled(s, step) && Suppressed(s, step)
      ensures step == By(0, Unlock) && s.pcs[0] == Settling
    {
      SuppressedOnlyWhen(s, step);
    }
  }

  lemma {:induction false} QuietStep(s: State, step: Step)
    requires Sound(s) && Enabled(s, step) && !LocksInWindow(s, step)
    requires InOverdraft(s.pcs[0]) ==> s.shared.lockCount == 0
    ensures InOverdraft(Next(s, step).pcs[0]) ==> Next(s, step).shared.lockCount == 0
  {
  }

  /** The counter is balanced after the first `m` steps. */
  predicate BalancedAt(n: nat, run: seq<Step>, m: nat)
    requires m <= |run|
  {
    Possible(Init(n), run[..m]) && Balanced(After(Init(n), run[..m]))
  }

  lemma {:induction false} PrefixIsPossible(s: State, run: seq<Step>, m: nat)
    requires Possible(s, run) && m <= |run|
    ensures Possible(s, run[..m])
    ensures m < |run| ==> Enabled(After(s, run[..m]), run[m]) && Possible(s, run[..m + 1])
    ensures m < |run| ==> After(s, run[..m + 1]) == Next(After(s, run[..m]), run[m])
  {
    if m == |run| {
      assert run[..m] == run;
    } else if m == |run| - 1 {
      assert run[..m + 1] == run;
    } else {
      var before := run[..|run| - 1];
      PrefixIsPossible(s, before, m);
      assert before[..m] == run[..m] && before[..m + 1] == run[..m + 1];
    }
  }

  lemma {:induction false} StaysPaid(s: State, step: Step)
    requires Sound(s) && Enabled(s, step) && !CliRefusal(step) && !InOverdraft(s.pcs[0])
    ensures !InOverdraft(Next(s, step).pcs[0])
  {
  }

  lemma {:induction false} PaidIsBalanced(s: State)
    requires Sound(s) && !InOverdraft(s.pcs[0])
    ensures Balanced(s)
  {
    CountZero(s.pcs, InOverdraft);
  }

  /** Without a refused open the CLI is never overdrawn. */
  lemma {:induction false} RunIsPaid(n: nat, run: seq<Step>)
    requires Possible(Init(n), run) && forall step | step in run :: !CliRefusal(step)
    ensures NoTheft(Init(n), run) && Sound(After(Init(n), run)) && !InOverdraft(After(Init(n), run).pcs[0])
  {
    if run == [] {
      InitIsSound(n);
    } else {
      var before := run[..|run| - 1];
      assert run[|run| - 1] in run;
      RunIsPaid(n, before);
      StepKeepsSound(After(Init(n), before), run[|run| - 1]);
      StaysPaid(After(Init(n), before), run[|run| - 1]);
    }
  }

  /** A refused CLI start unlocks once for an application that will never unlock: the balance is gone. */
  lemma {:induction false} CliRefusalBreaksBalance(s: State)
    requires Sound(s) && Enabled(s, By(0, DropLock))
    ensures !Balanced(Next(s, By(0, DropLock)))
  {
    StepKeepsSound(s, By(0, DropLock));
    CountZero(Next(s, By(0, DropLock)).pcs, InOverdraft);
  }

  /**
   The balance holds throughout a run exactly when no `loader open` in it is
   refused by the RTOS; refused starts from the menu or RPC do no harm.
   */
  lemma {:induction false} BalancedExactlyWhen(n: nat, run: seq<Step>)
    requires Possible(Init(n), run)
    ensures (forall m :: 0 <= m <= |run| ==> BalancedAt(n, run, m)) == (forall step | step in run :: !CliRefusal(step))
  {
    if forall step | step in run :: !CliRefusal(step) {
      forall m | 0 <= m <= |run|
        ensures BalancedAt(n, run, m)
      {
        PrefixIsPossible(Init(n), run, m);
        RunIsPaid(n, run[..m]);
        PaidIsBalanced(After(Init(n), run[..m]));
      }
    } else {
      var m := FirstRefusal(run);
      PrefixIsPossible(Init(n), run, m);
      RunIsPaid(n, run[..m]);
      CliRefusalBreaksBalance(After(Init(n), run[..m]));
      assert !BalancedAt(n, run, m + 1);
    }
  }

  lemma {:induction false} FirstRefusal(run: seq<Step>) returns (m: nat)
    requires exists step | step in run :: CliRefusal(step)
    ensures m < |run| && CliRefusal(run[m]) && forall step | step in run[..m] :: !CliRefusal(step)
  {
    m := |run| - 1;
    if exists step | step in run[..m] :: CliRefusal(step) {
      m := FirstRefusal(run[..m]);
      assert run[..|run| - 1][..m] == run[..m];
    } else {
      assert run == run[..m] + [run[m]];
    }
  }

  /**
   Mutual exclusion.  In every run in which no count is taken, refused opens or
   not: every assertion on the way to a start holds, so a thread is created only
   while no application runs; the counter never passes 2; and the guard in
   `loader_unlock` swallows nothing but the second unlock of a refused open.
   */
  lemma {:induction false} OneApplicationAtATime(n: nat, run: seq<Step>, step: Step)
    requires Possible(Init(n), run + [step])
    requires Possible(Init(n), run) && NoTheft(Init(n), run)
    ensures Enabled(After(Init(n), run), step)
    ensures var s := After(Init(n), run);
            && Asserts(s, step)
            && s.shared.lockCount <= 2
            && (step.By? && step.action !in {Lock, ClearApplication, Raise, Unlock} ==> s.body == Absent)
            && (Suppressed(s, step) ==> step == By(0, Unlock) && s.pcs[0] == Settling)
  {
    assert (run + [step])[..|run|] == run;
    RunIsSound(n, run);
    var s := After(Init(n), run);
    if Suppressed(s, step) {
      SuppressedOnlyWhen(s, step);
    }
    if step.By? && Engaged(s.pcs[step.actor]) {
      assert ActorFits(s.shared, s.pcs[step.actor]);
    }
  }

  // ----- which application is started -----

  /** A refused start clears the application pointer after giving the lock away, under another starter's feet. */
  predicate LateClear(s: State, step: Step) {
    step.By? && step.action == ClearApplication && exists i :: 0 <= i < |s.pcs| && s.pcs[i].Assigned?
  }

  predicate Intact(s: State) {
    forall i :: 0 <= i < |s.pcs| && s.pcs[i].Assigned? ==> s.shared.application == Some(s.pcs[i].app)
  }

  predicate OwnRequest(s: Shared, pc: Pc) {
    match pc
    case Assigned(app, arguments) => s.application == Some(app) && s.arguments == arguments
    case Configured(app, arguments) => s.callback == Some(app) && s.context == arguments == s.arguments
    case Launching(app, arguments) => s.callback == Some(app) && s.context == arguments == s.arguments
    case _ => true
  }

  /** Starters keep their own request; a running application was configured and keeps its arguments. */
  predicate Wired(s: State) {
    && (forall i :: 0 <= i < |s.pcs| ==> OwnRequest(s.shared, s.pcs[i]))
    && (s.body == Fresh || s.body == Active || s.body == Ending ==>
          && s.shared.callback.Some?
          && s.runs == Some((s.shared.callback.value, s.shared.context))
          && s.shared.arguments == s.shared.context)
  }

  /** An engaged actor is the only one with a request under way, and no application runs. */
  lemma {:induction false} EngagedKeepsWired(s: State, i: nat, a: Action)
    requires Sound(s) && Wired(s) && Enabled(s, By(i, a)) && Engaged(s.pcs[i])
    ensures Wired(Next(s, By(i, a))) && OwnApplication(s, By(i, a))
  {
    assert OwnRequest(s.shared, s.pcs[i]) && s.body == Absent;
    assert forall j :: 0 <= j < |s.pcs| && j != i ==> !Engaged(s.pcs[j]);
  }

  /** Any other actor leaves the requests alone, unless it clears the application too late. */
  lemma {:induction false} OtherKeepsWired(s: State, i: nat, a: Action)
    requires Sound(s) && Wired(s) && Enabled(s, By(i, a)) && !Engaged(s.pcs[i]) && !LateClear(s, By(i, a))
    ensures Wired(Next(s, By(i, a))) && OwnApplication(s, By(i, a))
  {
    var t := Next(s, By(i, a));
    forall j | 0 <= j < |t.pcs|
      ensures OwnRequest(t.shared, t.pcs[j])
    {
      assert OwnRequest(s.shared, s.pcs[j]);
    }
  }

  lemma {:induction false} StepKeepsWired(s: State, step: Step)
    requires Sound(s) && Wired(s) && Enabled(s, step) && !LateClear(s, step)
    ensures Wired(Next(s, step)) && OwnApplication(s, step)
  {
    if step.By? {
      if Engaged(s.pcs[step.actor]) {
        EngagedKeepsWired(s, step.actor, step.action);
      } else {
        OtherKeepsWired(s, step.actor, step.action);
      }
    }
  }

  predicate NoLateClear(s: State, run: seq<Step>)
    requires Possible(s, run)
  {
    run == [] ||
    var before := run[..|run| - 1];
    NoLateClear(s, before) && !LateClear(After(s, before), run[|run| - 1])
  }

  /** After every step, whoever is about to start an application finds the one it stored. */
  predicate IntactThroughout(s: State, run: seq<Step>)
    requires Possible(s, run)
  {
    Intact(After(s, run)) && (run == [] || IntactThroughout(s, run[..|run| - 1]))
  }

  /**
   While no count is taken and no pointer cleared late: a created thread runs
   what its settings say, and its arguments stay until it frees them.
   */
  lemma {:induction false} RunIsWired(n: nat, run: seq<Step>)
    requires Possible(Init(n), run) && NoTheft(Init(n), run) && NoLateClear(Init(n), run)
    ensures Sound(After(Init(n), run)) && Wired(After(Init(n), run))
  {
    RunIsSound(n, run);
    if run != [] {
      var before := run[..|run| - 1];
      RunIsWired(n, before);
      StepKeepsWired(After(Init(n), before), run[|run| - 1]);
    }
  }

  /** A starter stores its application over that of another that has not used it yet. */
  predicate Overwrites(s: State, step: Step) {
    && step.By? && step.action.Assign?
    && exists i :: 0 <= i < |s.pcs| && s.pcs[i].Assigned? && s.pcs[i].app != step.action.app
  }

  predicate NoOverwrite(s: State, run: seq<Step>)
    requires Possible(s, run)
  {
    run == [] ||
    var before := run[..|run| - 1];
    NoOverwrite(s, before) && !Overwrites(After(s, before), run[|run| - 1])
  }

  lemma {:induction false} StepIsIntactExactlyWhen(s: State, step: Step)
    requires Intact(s) && Enabled(s, step)
    ensures Intact(Next(s, step)) <==> !LateClear(s, step) && !Overwrites(s, step)
  {
    var t := Next(s, step);
    forall i | 0 <= i < |s.pcs| && s.pcs[i].Assigned?
      ensures t.pcs[i].Assigned? ==> t.pcs[i] == s.pcs[i]
      ensures step.By? && (step.action.Assign? || step.action == ClearApplication) ==> t.pcs[i] == s.pcs[i]
    {
    }
  }

  /**
   Over every run, a starter finds the application it stored exactly when no
   refused start clears the pointer, and no other starter stores a different
   one, between its storing and its using it.
   */
  lemma {:induction false} ApplicationIntactExactlyWhen(n: nat, run: seq<Step>)
    requires Possible(Init(n), run)
    ensures IntactThroughout(Init(n), run) <==> NoLateClear(Init(n), run) && NoOverwrite(Init(n), run)
  {
    if run != [] {
      var before, step := run[..|run| - 1], run[|run| - 1];
      ApplicationIntactExactlyWhen(n, before);
      if IntactThroughout(Init(n), before) {
        NowIntact(Init(n), before);
        StepIsIntactExactlyWhen(After(Init(n), before), step);
      }
    }
  }

  lemma {:induction false} NowIntact(s: State, run: seq<Step>)
    requires Possible(s, run) && IntactThroughout(s, run)
    ensures Intact(After(s, run))
  {
  }

  lemma {:induction false} OverwriteBreaksExclusion(s: State, step: Step)
    requires Enabled(s, step) && Overwrites(s, step)
    ensures !AtMostOneEngaged(s)
  {
    var i :| 0 <= i < |s.pcs| && s.pcs[i].Assigned? && s.pcs[i].app != step.action.app;
    assert Engaged(s.pcs[i]) && Engaged(s.pcs[step.actor]) && i != step.actor;
  }

  /** A starter stores over another's application only once a count has been taken. */
  lemma {:induction false} OverwriteNeedsTheft(n: nat, run: seq<Step>, step: Step)
    requires Possible(Init(n), run) && Enabled(After(Init(n), run), step) && Overwrites(After(Init(n), run), step)
    ensures !NoTheft(Init(n), run)
  {
    OverwriteBreaksExclusion(After(Init(n), run), step);
    if NoTheft(Init(n), run) {
      RunIsSound(n, run);
      assert false;
    }
  }

  // ----- which request is run -----

  /** The actor has a request under way that a thread is not yet running. */
  predicate Requesting(pc: Pc) {
    pc.Assigned? || pc.Configured? || pc.Launching?
  }

  /** Every actor with a request under way finds it as it left it. */
  predicate RequestsKept(s: State) {
    forall i :: 0 <= i < |s.pcs| ==> OwnRequest(s.shared, s.pcs[i])
  }

  /** The step of actor `i` or of the application thread changes what actor `pc` relies on. */
  predicate Disturbs(s: Shared, step: Step, pc: Pc)
    requires Requesting(pc)
  {
    match step
    case By(_, Assign(app, arguments)) => pc.arguments != Given(arguments) || (pc.Assigned? && pc.app != app)
    case By(_, ClearApplication) => pc.Assigned?
    case By(_, FreeArguments) => pc.arguments != None
    case By(_, Configure) => !pc.Assigned? && Some(pc.app) != s.application
    case BodyFrees => pc.arguments != None
    case _ => false
  }

  /** Somebody else's request is under way, and the step changes what it relies on. */
  predicate Disturbance(s: State, step: Step) {
    exists i :: 0 <= i < |s.pcs| && Requesting(s.pcs[i]) && Disturbs(s.shared, step, s.pcs[i])
  }

  lemma {:induction false} OthersKeepExactlyWhen(s: State, step: Step, i: nat)
    requires RequestsKept(s) && Enabled(s, step) && i < |s.pcs| && !(step.By? && step.actor == i)
    ensures OwnRequest(Next(s, step).shared, Next(s, step).pcs[i])
       <==> !(Requesting(s.pcs[i]) && Disturbs(s.shared, step, s.pcs[i]))
  {
    assert OwnRequest(s.shared, s.pcs[i]);
    if step.By? && step.action == Configure {
      assert OwnRequest(s.shared, s.pcs[step.actor]);
    }
  }

  lemma {:induction false} ActorKeepsOwn(s: State, i: nat, a: Action)
    requires RequestsKept(s) && Enabled(s, By(i, a))
    ensures OwnRequest(Next(s, By(i, a)).shared, Next(s, By(i, a)).pcs[i])
    ensures !(Requesting(s.pcs[i]) && Disturbs(s.shared, By(i, a), s.pcs[i]))
  {
    assert OwnRequest(s.shared, s.pcs[i]);
  }

  lemma {:induction false} StepKeepsRequestsExactlyWhen(s: State, step: Step)
    requires RequestsKept(s) && Enabled(s, step)
    ensures RequestsKept(Next(s, step)) <==> !Disturbance(s, step)
  {
    var t := Next(s, step);
    forall i | 0 <= i < |s.pcs|
      ensures OwnRequest(t.shared, t.pcs[i]) <==> !(Requesting(s.pcs[i]) && Disturbs(s.shared, step, s.pcs[i]))
    {
      if step.By? && step.actor == i {
        ActorKeepsOwn(s, i, step.action);
      } else {
        OthersKeepExactlyWhen(s, step, i);
      }
    }
  }

  predicate KeptThroughout(s: State, run: seq<Step>)
    requires Possible(s, run)
  {
    RequestsKept(After(s, run)) && (run == [] || KeptThroughout(s, run[..|run| - 1]))
  }

  predicate Undisturbed(s: State, run: seq<Step>)
    requires Possible(s, run)
  {
    run == [] ||
    var before := run[..|run| - 1];
    Undisturbed(s, before) && !Disturbance(After(s, before), run[|run| - 1])
  }

  lemma {:induction false} KeptNow(s: State, run: seq<Step>)
    requires Possible(s, run) && KeptThroughout(s, run)
    ensures RequestsKept(After(s, run))
  {
  }

  /**
   Over every run, every request under way is found as it was left, application,
   arguments and thread settings, exactly when no step disturbs another's.
   */
  lemma {:induction false} RequestsKeptExactlyWhen(n: nat, run: seq<Step>)
    requires Possible(Init(n), run)
    ensures KeptThroughout(Init(n), run) <==> Undisturbed(Init(n), run)
  {
    if run != [] {
      var before, step := run[..|run| - 1], run[|run| - 1];
      RequestsKeptExactlyWhen(n, before);
      if KeptThroughout(Init(n), before) {
        KeptNow(Init(n), before);
        StepKeepsRequestsExactlyWhen(After(Init(n), before), step);
      }
    }
  }

  lemma {:induction false} LateClearDisturbs(s: State, step: Step)
    requires LateClear(s, step)
    ensures Disturbance(s, step)
  {
    var i :| 0 <= i < |s.pcs| && s.pcs[i].Assigned?;
    assert Requesting(s.pcs[i]) && Disturbs(s.shared, step, s.pcs[i]);
  }

  lemma {:induction false} DisturbingClearsLate(s: State, step: Step)
    requires Sound(s) && Enabled(s, step) && Disturbance(s, step)
    ensures LateClear(s, step)
  {
    var i :| 0 <= i < |s.pcs| && Requesting(s.pcs[i]) && Disturbs(s.shared, step, s.pcs[i]);
    assert Engaged(s.pcs[i]) && s.body == Absent;
    assert step.By? && (Engaged(s.pcs[step.actor]) ==> step.actor == i);
  }

  /** While no count is taken, clearing the pointer late is the only disturbance there is. */
  lemma {:induction false} DisturbanceIsLateClear(n: nat, run: seq<Step>, step: Step)
    requires Possible(Init(n), run) && NoTheft(Init(n), run) && Enabled(After(Init(n), run), step)
    ensures Disturbance(After(Init(n), run), step) <==> LateClear(After(Init(n), run), step)
  {
    var s := After(Init(n), run);
    RunIsSound(n, run);
    if LateClear(s, step) {
      LateClearDisturbs(s, step);
    } else if Disturbance(s, step) {
      DisturbingClearsLate(s, step);
    }
  }

  lemma {:induction false} NoLateClearIsUndisturbed(n: nat, run: seq<Step>)
    requires Possible(Init(n), run) && NoTheft(Init(n), run)
    ensures Undisturbed(Init(n), run) <==> NoLateClear(Init(n), run)
  {
    if run != [] {
      NoLateClearIsUndisturbed(n, run[..|run| - 1]);
      DisturbanceIsLateClear(n, run[..|run| - 1], run[|run| - 1]);
    }
  }

  /** The application and arguments that actor `i` last asked for. */
  function LastAsked(run: seq<Step>, i: nat): Option<(App, Option<string>)> {
    if run == [] then None else
      match run[|run| - 1]
      case By(actor, Assign(app, arguments)) =>
        if actor == i then Some((app, arguments)) else LastAsked(run[..|run| - 1], i)
      case _ => LastAsked(run[..|run| - 1], i)
  }

  /** A request under way is the one asked for; empty arguments are none. */
  predicate IsAsAsked(pc: Pc, asked: Option<(App, Option<string>)>) {
    Requesting(pc) ==>
      && asked.Some? && pc.app == asked.value.0
      && (asked.value.1.Some? && asked.value.1.value != "" ==> pc.arguments == asked.value.1)
      && (asked.value.1 == None || asked.value.1.value == "" ==> pc.arguments == None)
  }

  lemma {:induction false} RequestIsAsAsked(n: nat, run: seq<Step>, i: nat)
    requires Possible(Init(n), run) && i < |After(Init(n), run).pcs|
    ensures IsAsAsked(After(Init(n), run).pcs[i], LastAsked(run, i))
  {
    if run != [] {
      var before, step := run[..|run| - 1], run[|run| - 1];
      RequestIsAsAsked(n, before, i);
      StepIsAsAsked(After(Init(n), before), step, i, LastAsked(before, i), LastAsked(run, i));
    }
  }

  lemma {:induction false} StepIsAsAsked(s: State, step: Step, i: nat, before: Option<(App, Option<string>)>,
                                         after: Option<(App, Option<string>)>)
    requires Enabled(s, step) && i < |s.pcs| && IsAsAsked(s.pcs[i], before)
    requires after == if step.By? && step.actor == i && step.action.Assign?
                      then Some((step.action.app, step.action.arguments)) else before
    ensures IsAsAsked(Next(s, step).pcs[i], after)
  {
  }

  /**
   What a created thread runs is exactly what its starter last asked for, with
   the arguments it gave unless they were empty, in every undisturbed run; if no
   count was taken either, no application was running.
   */
  lemma {:induction false} RequestedApplicationRuns(n: nat, run: seq<Step>, i: nat)
    requires Possible(Init(n), run) && Enabled(After(Init(n), run), By(i, Create)) && Undisturbed(Init(n), run)
    ensures var s, asked := After(Init(n), run), LastAsked(run, i);
            && s.pcs[i].Launching? && asked.Some?
            && var arguments := if asked.value.1.Some? && asked.value.1.value != "" then asked.value.1 else None;
               Next(s, By(i, Create)).runs == Some((asked.value.0, arguments))
               && Next(s, By(i, Create)).shared.arguments == arguments
    ensures NoTheft(Init(n), run) ==> After(Init(n), run).body == Absent
  {
    RequestsKeptExactlyWhen(n, run);
    KeptNow(Init(n), run);
    RequestIsAsAsked(n, run, i);
    var s := After(Init(n), run);
    assert OwnRequest(s.shared, s.pcs[i]);
    if NoTheft(Init(n), run) {
      RunIsSound(n, run);
      assert Engaged(s.pcs[i]);
    }
  }

  // ----- what a refused start can do -----

  lemma {:induction false} Push(s: State, run: seq<Step>, step: Step) returns (longer: seq<Step>)
    requires Possible(s, run) && Enabled(After(s, run), step)
    ensures longer == run + [step] && Possible(s, longer) && After(s, longer) == Next(After(s, run), step)
  {
    longer := run + [step];
    assert longer[..|run|] == run;
  }

  /** From `from`, the run leads to `to`. */
  predicate Reaches(from: State, run: seq<Step>, to: State) {
    Possible(from, run) && After(from, run) == to
  }

  lemma {:induction false} Extend(from: State, run: seq<Step>, mid: State, step: Step, to: State) returns (longer: seq<Step>)
    requires Reaches(from, run, mid) && Enabled(mid, step) && Next(mid, step) == to
    ensures Reaches(from, longer, to)
    ensures NoLateClear(from, run) && !LateClear(mid, step) ==> NoLateClear(from, longer)
  {
    longer := Push(from, run, step);
    assert longer[..|longer| - 1] == run;
  }

  /** Three actors and no application thread. */
  function Three(shared: Shared, cli: Pc, one: Pc, two: Pc): State {
    State(shared, [cli, one, two], Absent, None)
  }

  /** The shared fields while `app` is on its way: counter, thread state, and whether the thread is set up. */
  function Way(count: nat, app: App, thread: ThreadState, configured: bool): Shared {
    Shared(count, Some(app), None, thread, if configured then Some(app) else None, None)
  }

  /** The CLI locks and opens an application, up to the creation of the thread. */
  lemma {:induction false} OpenIsLaunched(from: State) returns (run: seq<Step>)
    requires from == Three(Shared(0, None, None, Stopped, None, None), Away, Away, Away)
    ensures Reaches(from, run, Three(Way(1, "A", Starting, true), Launching("A", None), Away, Away)) && NoLateClear(from, run)
  {
    var s1 := Three(Shared(1, None, None, Stopped, None, None), Command, Away, Away);
    var s2 := Three(Way(1, "A", Stopped, false), Assigned("A", None), Away, Away);
    var s3 := Three(Way(1, "A", Stopped, true), Configured("A", None), Away, Away);
    run := Extend(from, [], from, By(0, Lock), s1);
    run := Extend(from, run, s1, By(0, Assign("A", None)), s2);
    run := Extend(from, run, s2, By(0, Configure), s3);
    run := Extend(from, run, s3, By(0, Launch), Three(Way(1, "A", Starting, true), Launching("A", None), Away, Away));
  }

  /** The CLI locks, opens an application, and the RTOS refuses. */
  lemma {:induction false} OpenIsRefused(from: State) returns (run: seq<Step>)
    requires from == Three(Shared(0, None, None, Stopped, None, None), Away, Away, Away)
    ensures Reaches(from, run, Three(Way(0, "A", Stopped, true), Overdrawn, Away, Away)) && NoLateClear(from, run)
  {
    var s4 := Three(Way(1, "A", Starting, true), Launching("A", None), Away, Away);
    var s5 := Three(Way(1, "A", Stopped, true), Refused, Away, Away);
    var s6 := Three(Way(1, "A", Stopped, true), Cleaned, Away, Away);
    run := OpenIsLaunched(from);
    run := Extend(from, run, s4, By(0, Refuse), s5);
    run := Extend(from, run, s5, By(0, FreeArguments), s6);
    run := Extend(from, run, s6, By(0, DropLock), Three(Way(0, "A", Stopped, true), Overdrawn, Away, Away));
  }

  /** Another actor takes the lock the CLI no longer has and starts an application. */
  lemma {:induction false} StartsMeanwhile(from: State, refused: seq<Step>) returns (run: seq<Step>)
    requires Reaches(from, refused, Three(Way(0, "A", Stopped, true), Overdrawn, Away, Away))
    ensures Reaches(from, run, State(Way(1, "B", Starting, true), [Overdrawn, Away, Away], Fresh, Some(("B", None))))
  {
    var s0 := Three(Way(0, "A", Stopped, true), Overdrawn, Away, Away);
    var s1 := Three(Way(1, "A", Stopped, true), Overdrawn, Locked, Away);
    var s2 := Three(Way(1, "B", Stopped, true).(callback := Some("A")), Overdrawn, Assigned("B", None), Away);
    var s3 := Three(Way(1, "B", Stopped, true), Overdrawn, Configured("B", None), Away);
    var s4 := Three(Way(1, "B", Starting, true), Overdrawn, Launching("B", None), Away);
    run := Extend(from, refused, s0, By(1, Lock), s1);
    run := Extend(from, run, s1, By(1, Assign("B", None)), s2);
    run := Extend(from, run, s2, By(1, Configure), s3);
    run := Extend(from, run, s3, By(1, Launch), s4);
    run := Extend(from, run, s4, By(1, Create),
                  State(Way(1, "B", Starting, true), [Overdrawn, Away, Away], Fresh, Some(("B", None))));
  }

  /** The CLI unlocks a second time and a third actor gets in, application running. */
  lemma {:induction false} ThirdGetsIn(from: State, started: seq<Step>) returns (run: seq<Step>)
    requires Reaches(from, started, State(Way(1, "B", Starting, true), [Overdrawn, Away, Away], Fresh, Some(("B", None))))
    ensures Reaches(from, run, State(Way(1, "C", Starting, true).(callback := Some("B")), [Away, Away, Assigned("C", None)],
                                     Fresh, Some(("B", None))))
  {
    var runs := Some(("B", None));
    var s0 := State(Way(1, "B", Starting, true), [Overdrawn, Away, Away], Fresh, runs);
    var s1 := State(Way(1, "B", Starting, true).(application := None), [Settling, Away, Away], Fresh, runs);
    var s2 := State(s1.shared.(lockCount := 0), [Away, Away, Away], Fresh, runs);
    var s3 := State(s1.shared, [Away, Away, Locked], Fresh, runs);
    var s4 := State(Way(1, "C", Starting, true).(callback := Some("B")), [Away, Away, Assigned("C", None)], Fresh, runs);
    run := Extend(from, started, s0, By(0, ClearApplication), s1);
    run := Extend(from, run, s1, By(0, Unlock), s2);
    run := Extend(from, run, s2, By(2, Lock), s3);
    run := Extend(from, run, s3, By(2, Assign("C", None)), s4);
  }

  /**
   A refused `loader open` unlocks twice.  If an application starts in between,
   the second unlock is the application's: a third actor is let in while the
   application runs, and fails the assertion that the thread is stopped.
   */
  lemma {:induction false} RefusedOpenLetsTwoIn() returns (run: seq<Step>, step: Step)
    ensures Possible(Init(2), run) && Enabled(After(Init(2), run), step) && !Asserts(After(Init(2), run), step)
    ensures After(Init(2), run).body != Absent && step == By(2, Configure)
  {
    assert Init(2).pcs == [Away, Away, Away];
    run := OpenIsRefused(Init(2));
    run := StartsMeanwhile(Init(2), run);
    run := ThirdGetsIn(Init(2), run);
    step := By(2, Configure);
  }

  /** A second starter locks in the window, the CLI takes its count, and a third stores over its application. */
  lemma {:induction false} StoresOver(from: State, refused: seq<Step>) returns (run: seq<Step>)
    requires Reaches(from, refused, Three(Way(0, "A", Stopped, true), Overdrawn, Away, Away)) && NoLateClear(from, refused)
    ensures Reaches(from, run, Three(Way(1, "C", Stopped, true).(callback := Some("A")), Away, Assigned("B", None),
                                     Assigned("C", None)))
    ensures NoLateClear(from, run)
  {
    var s0 := Three(Way(0, "A", Stopped, true), Overdrawn, Away, Away);
    var s1 := Three(Way(1, "A", Stopped, true), Overdrawn, Locked, Away);
    var s2 := Three(Way(1, "A", Stopped, true).(application := None), Settling, Locked, Away);
    var s3 := Three(Way(0, "A", Stopped, true).(application := None), Away, Locked, Away);
    var s4 := Three(Way(0, "B", Stopped, true).(callback := Some("A")), Away, Assigned("B", None), Away);
    var s5 := Three(Way(1, "B", Stopped, true).(callback := Some("A")), Away, Assigned("B", None), Locked);
    var s6 := Three(Way(1, "C", Stopped, true).(callback := Some("A")), Away, Assigned("B", None), Assigned("C", None));
    run := Extend(from, refused, s0, By(1, Lock), s1);
    run := Extend(from, run, s1, By(0, ClearApplication), s2);
    run := Extend(from, run, s2, By(0, Unlock), s3);
    run := Extend(from, run, s3, By(1, Assign("B", None)), s4);
    run := Extend(from, run, s4, By(2, Lock), s5);
    run := Extend(from, run, s5, By(2, Assign("C", None)), s6);
  }

  /**
   After a count has been taken, a starter can set the thread up with another's
   application: every assertion on its way is met and no pointer is cleared late.
   */
  lemma {:induction false} RefusedOpenStartsAnothers() returns (run: seq<Step>, step: Step)
    ensures Possible(Init(2), run) && Enabled(After(Init(2), run), step) && step == By(1, Configure)
    ensures NoLateClear(Init(2), run) && Asserts(After(Init(2), run), step)
    ensures After(Init(2), run).pcs[1] == Assigned("B", None) && Next(After(Init(2), run), step).shared.callback == Some("C")
  {
    assert Init(2).pcs == [Away, Away, Away];
    run := OpenIsRefused(Init(2));
    run := StoresOver(Init(2), run);
    step := By(1, Configure);
  }

  /** A menu start, up to the creation of the thread. */
  lemma {:induction false} MenuIsLaunched(from: State) returns (run: seq<Step>)
    requires from == Three(Shared(0, None, None, Stopped, None, None), Away, Away, Away)
    ensures Reaches(from, run, Three(Way(1, "A", Starting, true), Away, Launching("A", None), Away))
  {
    var s1 := Three(Shared(1, None, None, Stopped, None, None), Away, Locked, Away);
    var s2 := Three(Way(1, "A", Stopped, false), Away, Assigned("A", None), Away);
    var s3 := Three(Way(1, "A", Stopped, true), Away, Configured("A", None), Away);
    run := Extend(from, [], from, By(1, Lock), s1);
    run := Extend(from, run, s1, By(1, Assign("A", None)), s2);
    run := Extend(from, run, s2, By(1, Configure), s3);
    run := Extend(from, run, s3, By(1, Launch), Three(Way(1, "A", Starting, true), Away, Launching("A", None), Away));
  }

  /** A menu start is refused, up to its unlock. */
  lemma {:induction false} MenuIsRefused(from: State) returns (run: seq<Step>)
    requires from == Three(Shared(0, None, None, Stopped, None, None), Away, Away, Away)
    ensures Reaches(from, run, Three(Way(0, "A", Stopped, true), Away, Released, Away))
  {
    var s4 := Three(Way(1, "A", Starting, true), Away, Launching("A", None), Away);
    var s5 := Three(Way(1, "A", Stopped, true), Away, Refused, Away);
    var s6 := Three(Way(1, "A", Stopped, true), Away, Cleaned, Away);
    run := MenuIsLaunched(from);
    run := Extend(from, run, s4, By(1, Refuse), s5);
    run := Extend(from, run, s5, By(1, FreeArguments), s6);
    run := Extend(from, run, s6, By(1, DropLock), Three(Way(0, "A", Stopped, true), Away, Released, Away));
  }

  /** The pointer is cleared after the second starter stored its own application. */
  lemma {:induction false} ClearedMeanwhile(from: State, refused: seq<Step>) returns (run: seq<Step>)
    requires Reaches(from, refused, Three(Way(0, "A", Stopped, true), Away, Released, Away))
    ensures Reaches(from, run, Three(Shared(1, None, None, Stopped, Some("A"), None), Away, Away, Assigned("B", None)))
  {
    var s0 := Three(Way(0, "A", Stopped, true), Away, Released, Away);
    var s1 := Three(Way(1, "A", Stopped, true), Away, Released, Locked);
    var s2 := Three(Way(1, "B", Stopped, true).(callback := Some("A")), Away, Released, Assigned("B", None));
    run := Extend(from, refused, s0, By(2, Lock), s1);
    run := Extend(from, run, s1, By(2, Assign("B", None)), s2);
    run := Extend(from, run, s2, By(1, ClearApplication),
                  Three(Shared(1, None, None, Stopped, Some("A"), None), Away, Away, Assigned("B", None)));
  }

  /**
   A refused start from the menu can leave another starter with a NULL
   application to start, although the lock itself is in order.
   */
  lemma {:induction false} RefusedStartClearsAnothers() returns (run: seq<Step>, step: Step)
    ensures Possible(Init(2), run) && Enabled(After(Init(2), run), step) && step == By(2, Configure)
    ensures After(Init(2), run).shared.application == None && !OwnApplication(After(Init(2), run), step)
    ensures Balanced(After(Init(2), run))
  {
    assert Init(2).pcs == [Away, Away, Away];
    run := MenuIsRefused(Init(2));
    run := ClearedMeanwhile(Init(2), run);
    step := By(2, Configure);
    OneHolder();
  }

  lemma {:induction false} OneHolder()
    ensures Balanced(Three(Shared(1, None, None, Stopped, Some("A"), None), Away, Away, Assigned("B", None)))
  {
    var pcs := [Away, Away, Assigned("B", None)];
    var none := [Away, Away, Away];
    assert pcs == none[2 := Assigned("B", None)];
    CountZero(none, Holds);
    CountZero(pcs, InDebt);
    CountUpdated(none, Holds, 2, Assigned("B", None));
  }
}
