/**
 The loader object: the code each actor of LoaderLock runs, with the fields it
 updates.  Every method states the shared fields it leaves as the effects of
 the actions it takes, which ties the code to the protocol proved there.
 */
module LoaderService {
  import opened Options
  import opened LoaderLock

  datatype LoaderStatus = Ok | ErrorAppStarted | ErrorUnknownApp | ErrorInternal

  /** Storing, setting up and launching, and what follows when the RTOS does or does not create the thread. */
  function StartEffect(s: Shared, app: App, arguments: Option<string>, created: bool): Shared {
    var launched := Effect(Effect(Effect(s, Assign(app, arguments)), Configure), Launch);
    if created then launched else
      Effect(Effect(Effect(Effect(launched, Refuse), FreeArguments), DropLock), ClearApplication)
  }

  class Loader {
    var application: Option<App>
    var applicationArguments: Option<string>
    var lockCount: nat
    var threadState: ThreadState
    var threadCallback: Option<App>
    var threadContext: Option<string>

    ghost function Fields(): Shared
      reads this
    {
      Shared(lockCount, application, applicationArguments, threadState, threadCallback, threadContext)
    }

    constructor ()
      ensures Fields() == Init(0).shared
    {
      application, applicationArguments, lockCount := None, None, 0;
      threadState, threadCallback, threadContext := Stopped, None, None;
    }

    method Lock() returns (result: bool)
      modifies this`lockCount
      ensures Fields() == Effect(old(Fields()), LoaderLock.Lock) && result == (old(lockCount) == 0)
      ensures lockCount == if result then 1 else old(lockCount)
    {
      result := false;
      if lockCount == 0 {
        lockCount := lockCount + 1;
        result := true;
      }
    }

    method Unlock()
      modifies this`lockCount
      ensures Fields() == Effect(old(Fields()), LoaderLock.Unlock)
      ensures lockCount == if old(lockCount) > 0 then old(lockCount) - 1 else 0
    {
      if lockCount > 0 {
        lockCount := lockCount - 1;
      }
    }

    /** Called on every change of the thread's state; acts on Stopped only. */
    method ThreadStateCallback(state: ThreadState)
      modifies this`applicationArguments, this`lockCount
      ensures Fields() == if state != Stopped then old(Fields())
                          else Effect(Effect(old(Fields()), FreeArguments), DropLock)
      ensures state == Stopped ==>
                applicationArguments == None && lockCount == if old(lockCount) > 0 then old(lockCount) - 1 else 0
    {
      if state == Stopped {
        if applicationArguments.Some? {
          applicationArguments := None;
        }
        Unlock();
      }
    }

    method SetThreadState(state: ThreadState)
      modifies this`threadState, this`applicationArguments, this`lockCount
      ensures state != Stopped ==> Fields() == old(Fields()).(thread := state)
      ensures state == Stopped ==> Fields() == Effect(Effect(Effect(old(Fields()), Refuse), FreeArguments), DropLock)
    {
      threadState := state;
      ThreadStateCallback(state);
    }

    method StartThread(created: bool) returns (result: bool)
      requires threadState == Stopped && threadCallback.Some?
      modifies this`threadState, this`applicationArguments, this`lockCount
      ensures result == created
      ensures created ==> Fields() == Effect(old(Fields()), Launch)
      ensures !created ==> Fields() == Effect(Effect(Effect(Effect(old(Fields()), Launch), Refuse), FreeArguments), DropLock)
    {
      SetThreadState(Starting);
      if created {
        return true;
      }
      assert threadState == Starting;
      SetThreadState(Stopped);
      return false;
    }

    /** A refused start gives the lock back before it returns. */
    method StartApplication(app: App, arguments: Option<string>, created: bool) returns (result: bool)
      requires applicationArguments == None && threadState == Stopped
      modifies this
      ensures result == created && Fields() == StartEffect(old(Fields()), app, arguments, created)
      ensures created ==> threadState == Starting && threadCallback == Some(app) && lockCount == old(lockCount)
      ensures created && arguments.Some? && arguments.value != "" ==> threadContext == applicationArguments == arguments
      ensures created && (arguments == None || arguments.value == "") ==> threadContext == applicationArguments == None
      ensures !created ==> threadState == Stopped && applicationArguments == None && application == None
      ensures !created && old(lockCount) > 0 ==> lockCount == old(lockCount) - 1
    {
      application := Some(app);
      if arguments.Some? && |arguments.value| > 0 {
        applicationArguments := arguments;
      }
      threadContext := applicationArguments;
      threadCallback := application;
      result := StartThread(created);
      if !result {
        application := None;
      }
    }

    method MenuCallback(app: App, created: bool)
      requires lockCount == 0 ==> applicationArguments == None && threadState == Stopped
      modifies this
      ensures Fields() == if old(lockCount) > 0 then old(Fields())
                          else StartEffect(Effect(old(Fields()), LoaderLock.Lock), app, None, created)
      ensures old(lockCount) == 0 && created ==>
                lockCount == 1 && threadState == Starting && threadCallback == Some(app) && threadContext == None
      ensures old(lockCount) == 0 && !created ==> lockCount == 0 && threadState == Stopped && application == None
    {
      var locked := Lock();
      if !locked {
        return;
      }
      var _ := StartApplication(app, None, created);
    }

    /** Unless the status is Ok the lock is as it was found, and nothing was started. */
    method Start(known: set<App>, name: App, arguments: Option<string>, created: bool) returns (status: LoaderStatus)
      requires lockCount == 0 ==> applicationArguments == None && threadState == Stopped
      modifies this
      ensures status == if name !in known then ErrorUnknownApp
                        else if old(lockCount) > 0 then ErrorAppStarted
                        else if created then Ok else ErrorInternal
      ensures status == ErrorUnknownApp || status == ErrorAppStarted ==> Fields() == old(Fields())
      ensures status == Ok || status == ErrorInternal ==>
                Fields() == StartEffect(Effect(old(Fields()), LoaderLock.Lock), name, arguments, created)
      ensures status != Ok ==> lockCount == old(lockCount) && threadState == old(threadState)
      ensures status == Ok ==> lockCount == 1 && threadState == Starting && threadCallback == Some(name)
      ensures status == Ok ==> threadContext == applicationArguments
                               == if arguments.Some? && arguments.value != "" then arguments else None
    {
      if name !in known {
        return ErrorUnknownApp;
      }
      var locked := Lock();
      if !locked {
        return ErrorAppStarted;
      }
      var started := StartApplication(name, arguments, created);
      return if started then Ok else ErrorInternal;
    }

    /** `loader open` under the CLI's lock: a started application is paid for by raising the counter. */
    method CliOpen(known: set<App>, name: Option<App>, arguments: string, created: bool)
      requires lockCount == 1 && applicationArguments == None && threadState == Stopped
      modifies this
      ensures name == None || name.value !in known ==> Fields() == old(Fields())
      ensures name.Some? && name.value in known ==>
                Fields() == (var s := StartEffect(old(Fields()), name.value, Some(arguments), created);
                             if created then Effect(s, Raise) else s)
      ensures lockCount == if name.Some? && name.value in known then if created then 2 else 0 else 1
      ensures lockCount == 2 ==> threadContext == applicationArguments == if arguments != "" then Some(arguments) else None
    {
      if name == None {
        return;
      }
      if name.value !in known {
        return;
      }
      var started := StartApplication(name.value, Some(arguments), created);
      if !started {
        return;
      }
      lockCount := lockCount + 1;
    }

    /**
     A CLI `loader open`, run alone.  Afterwards the counter is 1 exactly when an
     application was started.  A refused start drives the counter to zero inside
     the command, and only the guard in `Unlock` hides the second decrement.
     */
    method ExecuteOpen(known: set<App>, name: Option<App>, arguments: string, created: bool) returns (ran: bool)
      requires lockCount == 0 ==> applicationArguments == None && threadState == Stopped
      modifies this
      ensures ran == (old(lockCount) == 0)
      ensures !ran ==> Fields() == old(Fields())
      ensures ran ==> lockCount == if name.Some? && name.value in known && created then 1 else 0
      ensures ran && lockCount == 1 ==> threadState == Starting && threadCallback == name
      ensures ran && lockCount == 0 ==> threadState == Stopped && applicationArguments == None
    {
      ran := Lock();
      if ran {
        CliOpen(known, name, arguments, created);
        Unlock();
      }
    }

    /** The application thread, from its creation to the end of its stop callback. */
    method ThreadBody()
      requires threadState == Starting
      modifies this`threadState, this`applicationArguments, this`lockCount
      ensures threadState == Stopped && applicationArguments == None
      ensures lockCount == if old(lockCount) > 0 then old(lockCount) - 1 else 0
    {
      SetThreadState(Running);
      assert threadState == Running;
      SetThreadState(Stopped);
    }
  }

  /** A start followed by the application's whole life leaves the loader unlocked and ready for the next one. */
  method StartAndFinish(loader: Loader, known: set<App>, name: App, arguments: Option<string>, created: bool)
    returns (status: LoaderStatus)
    requires loader.lockCount == 0 && loader.applicationArguments == None && loader.threadState == Stopped
    modifies loader
    ensures loader.lockCount == 0 && loader.applicationArguments == None && loader.threadState == Stopped
    ensures status == Ok <==> name in known && created
  {
    status := loader.Start(known, name, arguments, created);
    if status == Ok {
      loader.ThreadBody();
    }
  }
}
