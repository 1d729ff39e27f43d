# Flipper firmware services: a verified model

A Dafny model of the firmware's small service state machines, with proofs of
what each of them keeps over every run.  `dafny verify dfyconfig.toml` checks
everything.  The firmware itself is never executed here.

Code that updates objects in place is modelled by classes whose methods are
tied, field for field, to functions on values; the theorems over whole runs and
over interleavings are lemmas about those functions.

* **Input pipeline.** `Keys`, `InputService` and `InputDevice` turn pin levels
  and timer ticks into events; `InputLatch` is the routing rule that the GUI and
  the view dispatcher share; `GuiRouting`, `GuiRuns` and `GuiService` route
  among layered view ports; `ViewDispatcher` routes among views; `InputPipeline`
  composes the three and states that no view is left with a stuck key, and
  `ViewSwitching` runs the dispatcher and its own port together.
* **Snake.** `SnakeRules` holds the rules and the invariant of every reachable
  game, `SnakeGame` the bitmap, the rank-select loop and the moving snake.
* **Loader lock.** `LoaderLock` is the lock counter as a protocol among any
  number of actors, `Loader` the code each actor runs.
* **RPC session and storage.** `RpcFraming`, `RpcProtocol` and `RpcSession` are
  the byte stream, its two flags and the worker; `RpcStorage` and `RpcUploads`
  the write transaction and whole uploads, `Pages`, `RpcReplies` and
  `RpcStorageSystem` the paged replies and the handlers.
* **Bad USB scripts.** `DuckyLines`, `DuckyMachine` and `DuckyScript` are the
  chunked reader, the counting pass and REPEAT.
* **Smaller components.** `UartLog` and `UartEcho` (scroll buffer), `SceneStack`
  and `SceneManager`, `CliCompletion` and `Cli`, `LfsBits`.

## What does not hold

Where a property one would expect fails, the model keeps the code as it is,
shows a failing case, and proves for all inputs exactly when the property holds.

* **The loader's lock.**  A refused thread start runs the loader's stop callback
  from inside `furi_thread_start` (core/furi/thread.c:123-127), which unlocks
  the loader.  A start from the menu or RPC is balanced by this; a CLI
  `loader open` is unlocked twice.  `RefusedOpenLetsTwoIn` is a run in which a
  second application is then let in.  The second unlock takes somebody else's
  count exactly when another actor holds the lock or an application runs
  (`TheftExactlyWhen`), which is to say it was taken between the two unlocks
  (`WindowOpensIdle`); without that the guard absorbs it and mutual exclusion
  holds in every run, refused opens or not (`CoveredExactlyWhen`,
  `OneApplicationAtATime`, `QuietWindowsAreSafe`), and with it exclusion is lost
  (`TheftEndsExclusion`).  `BalancedExactlyWhen` says when the exact balance holds.
* **The loader's application pointer.**  A refused start clears it after giving
  the lock away (`RefusedStartClearsAnothers`); and once a count has been taken,
  a starter can store over another's application, so that a thread is set up
  with it although every assertion is met (`RefusedOpenStartsAnothers`,
  `OverwriteNeedsTheft`).  Over all runs a starter finds its own application
  exactly when neither happens (`ApplicationIntactExactlyWhen`), and its whole
  request, arguments and thread settings included, exactly when no step disturbs
  it (`RequestsKeptExactlyWhen`); while no count is taken, clearing the pointer
  late is the only such step (`DisturbanceIsLateClear`).
* **Turning a view port.**  A port turned while an arrow is down gets the release
  of another key (`TurningStrandsKey`).  What a port has down is what was routed
  to it, turned, exactly when it is never turned while some of its arrows, but
  not all four, are down (`KeysMatchExactlyWhen`).  For a dispatcher's port this
  is a condition on the views it switches (`TurnsFreelyExactlyWhen`).  Whatever
  turns lie between, a release names the key seen pressed exactly when the port
  stands as it did at the press (`ReleaseNamesItsPressExactlyWhen`).
* **A release without its press.**  A target can get the release of a key it
  never saw pressed: one pressed while something else was in front
  (`ReleaseWithoutPress`), or one held since before the boot, with nothing
  switched at all (`BootHeldRelease`).  A release has its press exactly when the
  key is held and the target was in front at its last press
  (`ReleaseHasItsPressExactlyWhen`, and for ports and views
  `PortReleaseHasItsPressExactlyWhen`, `ViewReleaseHasItsPressExactlyWhen`).
* **Sequence numbers** are 32 bits wide: a new press has the highest number so
  far exactly while there have been fewer than 2^32 - 1 presses
  (`NewPressIsNewestExactlyWhen`), and there can be any number
  (`AnyNumberOfPresses`).
* **The snake** can turn back into its neck, after a turn refused by the frame
  (`TurnsBackExactlyWhen`, `TurningBackIsReachable`).
* **An OK without the data.**  A short write whose file reports no error is
  answered OK (`ShortWriteAnsweredOk`): the OK that ends a transaction means a
  complete chunk or no file error (`AnsweredOkExactlyWhen`), and a whole upload
  gets its single OK accordingly (`SingleOkExactlyWhen`).  A chunk that follows a
  failed one under the same command id restarts the file
  (`FailedUploadRestarts`); `OkWithWholeFileExactlyWhen` says when an upload that
  ends with an OK has left the whole file.  A short read with no file error is
  likewise reported as an empty file, with OK (`ShortReadEndsEmpty`,
  `ShortReadAnsweredOk`).
* **Sleeping on bytes.**  In decode-error mode the RPC worker can go to sleep
  with bytes in the stream (`SleepsOnBytesExactlyWhen`, `SleepIsReachable`).
* **A REPEAT of a REPEAT** never ends when both counts are positive
  (`ScriptThatHangs`).  A run ends exactly when it does not come to such a pair,
  a line left over from an earlier script counting as the one before the first
  (`EndsExactlyWhen`, `ScriptEndsExactlyWhen`).
* **Scene handlers** no longer alternate when an operation calls a handler after
  a stop of a shown scene (`GoingOnAfterStop`).
* **A blank command name** is registered under an empty key, which no line looks
  up; every other name can be called (`CallableExactlyWhen`).
* **`lfs_npw2`** is the rounded-up logarithm exactly for words of at least 2,
  though its comment does not say so (`Npw2`).

## Model

| member | source | states |
|---|---|---|
| Keys.SetBit | applications/gui/gui.c:231-232 | setting a key's bit in the mask adds that key, and only it, to the held keys |
| Keys.ClearBit | applications/gui/gui.c:229-230 | clearing the bit removes that key and only it |
| Keys.TrackHeld | applications/gui/gui.c:227-241 | the mask follows presses and releases, and an event is refused exactly when it is neither and its key is not held |
| Keys.OnlyKey | applications/gui/gui.c:255-257 | the bit test for the first press means that no other key is held |
| Keys.AbsentMeansReleased | applications/gui/gui.c:227-241 | in a stream without double presses, a press whose key is up at the end was released after it |
| Keys.DownExactlyWhen | applications/gui/gui.c:227-241 | a key counts as down if and only if some press of it has no release after it |
| InputLatch.HeldIsKeysDown | applications/gui/view_dispatcher.c:234-248 | over every run the mask is exactly the set of keys the incoming stream has down |
| InputLatch.ArriveKeepsGuard | applications/gui/view_dispatcher.c:251-289 | one event keeps a target's keys among the held ones, and a target with a key down latched |
| InputLatch.NothingDownButHeld | applications/gui/view_dispatcher.c:233-289 | for every run in which a target stays registered: it sees no double press, and has a key down only while that key is held and it is the latched target |
| InputLatch.OneTargetPerSession | applications/gui/gui.c:255-283 | everything delivered between the first press and the last release goes to the target that was in front at the first press |
| InputLatch.DeliveredExactlyWhen | applications/gui/gui.c:255-283 | for every run and every kind of event, who gets it, told by the history alone: a press, what is in front, if no other key is down or it is the session's front; a release, the session's front; any other, the session's front while in front and the key down |
| InputLatch.ReleaseHasItsPressExactlyWhen | applications/gui/view_dispatcher.c:251-289 | for every run, a release that reaches a target clears a key the target has down if and only if the key is held and the target was in front at its last press |
| InputLatch.StopStrandsKeys | applications/gui/view_dispatcher.c:97-108 | events swallowed after a stop reach no view: each keeps the keys it had down |
| InputService.TraceIsPresses | applications/input/input.c:94-128 | in every run the trace of each key is Press (Short or Long Repeat*) Release over and over, the counters telling how far the open press has got; a key held at boot adds a leading Short Release |
| InputService.NumbersGrow | applications/input/input.c:109-117 | presses of a key carry growing sequence numbers, each the count of presses of any key so far, counted without bound |
| InputService.NewPressIsNewest | applications/input/input.c:110-113 | a new press has a number above every earlier press of any key, counted without bound |
| InputDevice.NewPressIsNewestExactlyWhen | applications/input/input.c:110-113 | as published in 32 bits, the number of a new press is above those of all presses before if and only if there were fewer than 2^32 - 1 |
| InputService.TraceIsComplementary | applications/input/input.c:94-128 | no key is pressed twice without a release, and the keys down are those whose timer runs |
| InputDevice.Input.PressTimer | applications/input/input.c:23-37 | the timer callback is the Fire step: Long at the second tick, Repeat from then on, counter at most 2 |
| InputDevice.Input.GoDown | applications/input/input.c:109-127 | a press takes the next 32-bit number and starts the timer |
| InputDevice.Input.GoUp | applications/input/input.c:115-127 | a release stops the timer, with an open Short before it |
| InputDevice.Input.PollPin | applications/input/input.c:94-128 | a level change publishes exactly the events of the model's step with 32-bit numbers, an unchanged level nothing |
| GuiRouting.LastEnabledIsTopmost | applications/gui/gui.c:6-18 | the backward search finds the enabled port with no enabled port above it in the layer |
| GuiRouting.FrontExactlyWhen | applications/gui/gui.c:245-253 | the front is the topmost enabled port of the full-screen layer, if that has none of the window layer, if that has none of the desktop layer, under lockdown of the desktop layer alone; there is none if and only if these have none |
| GuiRouting.TurningIsQuarter | applications/gui/view_port.c:10-27 | turning a key turns the direction of the arrow by a quarter clockwise, and keeps the keys that are no arrows |
| GuiRouting.MovesExactly | applications/gui/gui.c:321-397 | sending a port to the front or back, or removing it, puts it on top, at the bottom or nowhere; the order of the others and the other layers stay |
| GuiRouting.FlagsExactly | applications/gui/gui.c:295-425 | every other operation changes just the one flag, the lockdown, or the top of the one layer that it names |
| GuiRouting.RotateKeyInjective | applications/gui/view_port.c:10-27 | turning keys is one to one, so a turned stream keeps track of each key |
| GuiRouting.StepKeepsWellFormed | applications/gui/gui.c:295-425 | every operation keeps each registered port in exactly one layer, once, and the latched port registered |
| GuiRouting.LockdownOnlyReleases | applications/gui/gui.c:245-283 | under lockdown a port outside the Desktop layer receives nothing but releases |
| GuiRuns.GuiIsLatch | applications/gui/gui.c:223-283 | whatever happens to layers, flags and lockdown, the GUI's mask and target are those of the latch |
| GuiRouting.TurningShowsExactlyWhen | applications/gui/view_port.c:10-27 | turning changes a set of keys if and only if it has some of the arrows but not all four |
| GuiRuns.KeysMatchExactlyWhen | applications/gui/view_port.c:119-130 | over every run, the keys a port has down are at all times the keys routed to it, turned as it stands, if and only if it is never turned while some but not all four of its arrows are down |
| GuiRuns.PortSeesComplementaryKeys | applications/gui/gui.c:223-345 | for every run, a port that is not removed, nor turned while some but not all four arrows are down on it, sees no double press and has down only held keys while it is the target |
| GuiRuns.OnePortPerSession | applications/gui/gui.c:255-283 | between no key held and the next no key held at most one port receives anything: the one in front at the first press |
| GuiRuns.ReleaseNamesItsPressExactlyWhen | applications/gui/view_port.c:119-130 | over every run, the release a port is handed names the key it saw pressed if and only if the key is no arrow or the port stands as it did at the press; that key alone comes up |
| GuiRuns.PortReleaseHasItsPressExactlyWhen | applications/gui/gui.c:259-280 | in every GUI run, a release handed to a port clears a key routed to it if and only if the key is held and the port was in front at its last press |
| GuiService.ViewPort.RotateButtons | applications/gui/view_port.c:10-27 | the in-place key change is the rotation of the model |
| GuiService.ViewPort.SetEnabled | applications/gui/view_port.c:70-76 | flips the port's enabled flag in the GUI's model and nothing else |
| GuiService.ViewPort.SetOrientation | applications/gui/view_port.c:132-135 | flips the port's orientation in the GUI's model and nothing else |
| GuiService.ViewPort.Input | applications/gui/view_port.c:119-130 | the callback gets the event, turned for a vertical port; without a callback nothing changes |
| GuiService.Gui.FindEnabled | applications/gui/gui.c:6-18 | returns the topmost enabled port of a layer |
| GuiService.Gui.FindFront | applications/gui/gui.c:245-253 | the port found is the enabled one nearest the end of the full-screen, else window, else desktop layer; under lockdown only the desktop layer counts; none only if these are dark |
| GuiService.Gui.TrackKeys | applications/gui/gui.c:227-258 | mask and latched port become those of the latch after the event; says which events are discarded |
| GuiService.Gui.Deliver | applications/gui/gui.c:259-280 | exactly the receiver's history grows, by the event as that port sees it |
| GuiService.Gui.Input | applications/gui/gui.c:223-283 | one input event is the Input step of the model and reaches exactly the model's receiver, turned; a first press reaches the port in front and nobody else |
| GuiService.Gui.RemoveFromLayer | applications/gui/gui.c:330-337 | the removing iterator leaves the layer without the port and in order |
| GuiService.Gui.TakeOut | applications/gui/gui.c:352-367 | takes the port out of every layer and reports the one it was in |
| GuiService.Gui.AddViewPort | applications/gui/gui.c:295-319 | appends the port to one layer and registers it; everything else is kept |
| GuiService.Gui.RemoveViewPort | applications/gui/gui.c:321-345 | the port is in no layer and no longer latched; the rest is kept |
| GuiService.Gui.SendToFront | applications/gui/gui.c:347-371 | the port becomes the last of its own layer |
| GuiService.Gui.SendToBack | applications/gui/gui.c:373-397 | the port becomes the first of its own layer |
| GuiService.Gui.SetLockdown | applications/gui/gui.c:419-425 | changes the lockdown flag alone and asks for a redraw |
| ViewDispatching.ViewDispatcher.SetCurrentView | applications/gui/view_dispatcher.c:320-343 | leaves the old view before entering the new one, turns and enables the port for it; showing none disables the port and posts a stop |
| ViewDispatching.ViewDispatcher.SwitchToView | applications/gui/view_dispatcher.c:170-180 | shows the view with that id, none for VIEW_NONE, and changes nothing for VIEW_IGNORE |
| ViewDispatching.ViewDispatcher.AddView | applications/gui/view_dispatcher.c:119-138 | registers a view under an unused id and keeps all else |
| ViewDispatching.ViewDispatcher.RemoveView | applications/gui/view_dispatcher.c:140-168 | a removed view is neither shown nor latched any more, which the history records as forgotten |
| ViewDispatching.ViewDispatcher.TrackKeys | applications/gui/view_dispatcher.c:234-253 | mask and latched view follow the latch |
| ViewDispatching.ViewDispatcher.HandleInput | applications/gui/view_dispatcher.c:233-289 | an event is one latch step with its delivery; an unconsumed Short or Long of Back that reaches the view in front goes to the view named, to none, or stops if the navigation callback says so, and nothing else navigates |
| ViewDispatching.ViewDispatcher.TakeMessage | applications/gui/view_dispatcher.c:82-95 | one message of the run loop: input is handled, a stop starts the draining, any other message changes nothing |
| ViewDispatching.ViewDispatcher.Drain | applications/gui/view_dispatcher.c:97-108 | after a stop, messages are swallowed one by one exactly until no key is held, and none is delivered |
| ViewDispatching.SwallowedKeysAreDown | applications/gui/view_dispatcher.c:97-108 | while messages are swallowed, the keys held are those that all input events so far have down |
| InputPipeline.LayersCompose | applications/gui/view_dispatcher.c:233-289 | what the service guarantees is what the GUI needs, and what the GUI guarantees a port is what the dispatcher needs |
| InputPipeline.PressesAreReleasedOrHeld | applications/gui/view_dispatcher.c:233-289 | at every moment of every pipeline run: a view sees no double press, and each press it saw was released to it or is still counted as held |
| InputPipeline.NoStuckKey | applications/gui/view_dispatcher.c:233-289 | once the pipeline is at rest, every press any view saw was followed by that key's release to it |
| InputPipeline.ViewReleaseHasItsPressExactlyWhen | applications/gui/view_dispatcher.c:233-289 | in every pipeline run, a release handed to a view clears a key the view has down if and only if the dispatcher holds the key and the view was in front at its last press |
| InputPipeline.TurningStrandsKey | applications/gui/view_port.c:10-27 | a port turned while Right is down sees Right pressed and Down released |
| InputPipeline.ReleaseWithoutPress | applications/gui/gui.c:259-271 | a run in which a target gets the release of a key whose press reached nobody |
| InputPipeline.BootHeldRelease | applications/gui/gui.c:255-283 | the service's events for a key held at boot: with one target in front throughout, it gets the release of that key and never saw its press |
| ViewSwitching.TurnsFreelyExactlyWhen | applications/gui/view_dispatcher.c:320-343 | in every run of GUI and dispatcher together, the port stands as the view last shown wants it, and is turned freely if and only if no view that wants it turned is shown while some but not all four of its arrows are down |
| ViewSwitching.NoKeyStuckByViews | applications/gui/view_dispatcher.c:233-343 | under that condition on the views, once all is at rest every press a view saw was followed by its release to it |
| ViewSwitching.AlikeViewsSwitchFreely | applications/gui/view_dispatcher.c:320-343 | views that all want the port as it stands meet the condition |
| ViewSwitching.EnabledWhileShown | applications/gui/view_dispatcher.c:320-343 | in every run the dispatcher's port is enabled if and only if a view is shown |
| SnakeRules.FreeNodesAreFree | applications/snake_game/snake_game.c:136-177 | the list the draw selects from holds every free node exactly once and nothing else |
| SnakeRules.FreeNodesCounted | applications/snake_game/snake_game.c:139-155 | its length is 128 less the nodes the body covers |
| SnakeRules.NodesAlternate | applications/snake_game/snake_game.c:136-177 | of two neighbouring body cells at most one is a node, so a body of n cells covers at most (n + 1) / 2 |
| SnakeRules.SomeNodeIsFree | applications/snake_game/snake_game.c:157-176 | for every body the game can have, the modulus is not zero and the fallthrough is dead |
| SnakeRules.DrawIsFreeNode | applications/snake_game/snake_game.c:157-173 | whatever is drawn, the fruit lands on a node of the field off the body |
| SnakeRules.DrawsAreFreeNodes | applications/snake_game/snake_game.c:157-173 | draws below the number of free nodes select every free node exactly once, larger ones go by their remainder |
| SnakeRules.StepsOneCell | applications/snake_game/snake_game.c:197-259 | a wish is followed if and only if it is at right angles to the movement, and a step goes one cell that way, as bytes |
| SnakeRules.StepKeepsPath | applications/snake_game/snake_game.c:238-264 | stepping on a free cell of the field keeps the body a self-avoiding path inside it, despite eight-bit wrap |
| SnakeRules.TickKeepsGood | applications/snake_game/snake_game.c:266-313 | every tick keeps the invariant, whatever fruit is drawn |
| SnakeRules.EndsExactlyWhen | applications/snake_game/snake_game.c:266-313 | the game ends if and only if the frame is hit a second time running, the body is hit, or the meal makes the length 253 |
| SnakeRules.TickMeans | applications/snake_game/snake_game.c:266-313 | a first hit of the frame gives a last chance and changes nothing but the heading; a step moves head and body by one cell; only a meal makes the snake longer and draws a fruit |
| SnakeRules.PlayMeans | applications/snake_game/snake_game.c:352-369 | arrows change the wish alone, and OK restarts a finished game only |
| SnakeRules.LengthCountsFruits | applications/snake_game/snake_game.c:266-313 | the length is 7 plus the fruits eaten since the start |
| SnakeRules.GameIsSound | applications/snake_game/snake_game.c:179-313 | in every reachable game that is not over: self-avoiding path, length, fruit on a free node, and at least two nodes free after growing |
| SnakeRules.TurnsBackExactlyWhen | applications/snake_game/snake_game.c:197-236 | the next step is onto the neck exactly when a first turn was refused by the frame and the next points backward |
| SnakeRules.TurningBackIsReachable | applications/snake_game/snake_game.c:278-297 | a game in which the snake turns back and the tail check ends it |
| SnakeGame.SnakeState.InitGame | applications/snake_game/snake_game.c:120-134 | the fields hold the starting snake |
| SnakeGame.SnakeState.MarkUsed | applications/snake_game/snake_game.c:139-155 | the bitmap has exactly the body's nodes set and `empty` is the number of clear bits |
| SnakeGame.SnakeState.SelectClear | applications/snake_game/snake_game.c:159-176 | the loop returns the clear bit of the drawn rank |
| SnakeGame.SnakeState.GetNewFruit | applications/snake_game/snake_game.c:136-177 | the fruit is the free node of rank draw mod empty |
| SnakeGame.SnakeState.CollidesWithTail | applications/snake_game/snake_game.c:185-195 | true exactly when the cell is on the body |
| SnakeGame.SnakeState.MoveSnake | applications/snake_game/snake_game.c:261-264 | the in-place shift is putting the new head in front, inside the array |
| SnakeGame.SnakeState.GetTurn | applications/snake_game/snake_game.c:197-236 | a request to the side is followed; one ahead or backward keeps the direction |
| SnakeGame.SnakeState.Steer | applications/snake_game/snake_game.c:271-276 | the snake turns only with its head on a node, and the next cell lies along the new heading |
| SnakeGame.SnakeState.ProcessGameStep | applications/snake_game/snake_game.c:266-313 | one step of the object is one tick of the rules |
| LoaderLock.ActionBalances | applications/loader/loader.c:203-218 | each action changes the counter by exactly its actor's share |
| LoaderLock.StepKeepsSound | applications/loader/loader.c:100-131 | one step of any actor that takes no count keeps lock_count + debt + overdraft = holders + running application, mutual exclusion and the thread's state, and meets its assertions |
| LoaderLock.OneApplicationAtATime | applications/loader/loader.c:181-267 | over every interleaving in which no count is taken, refused opens or not: no start while an application runs, every assertion holds, the counter never passes 2, and the guard in loader_unlock suppresses nothing but the second unlock of a refused open |
| LoaderLock.CoveredExactlyWhen | applications/loader/loader.c:203-218 | the counter covers all its holders throughout a run if and only if no second unlock of a refused open in it meets a positive counter |
| LoaderLock.TheftExactlyWhen | applications/loader/loader.c:214-218 | that second unlock takes a count if and only if another actor holds the lock or an application runs |
| LoaderLock.TheftEndsExclusion | applications/cli/cli.c:155-165 | once it has, the CLI's next command gets in beside the holder |
| LoaderLock.WindowOpensIdle | applications/loader/loader.c:224-267 | at the first unlock of a refused open nobody else holds the lock and nothing runs, so a holder at the second took it between the two |
| LoaderLock.QuietWindowsAreSafe | applications/loader/loader.c:203-218 | if nobody locks between the two unlocks of any refused open, no count is taken, and the guard suppresses a decrement exactly at the second unlocks |
| LoaderLock.BalancedExactlyWhen | applications/loader/loader.c:100-131 | the balance holds throughout a run if and only if no refused CLI start has run its stop callback in it |
| LoaderLock.ApplicationIntactExactlyWhen | applications/loader/loader.c:13-39 | over every run, starters find their own application throughout if and only if no refused start clears the pointer, and no other starter stores a different one, between a starter's storing and using it |
| LoaderLock.OverwriteNeedsTheft | applications/loader/loader.c:203-218 | a starter stores over another's application only after a count has been taken |
| LoaderLock.RequestsKeptExactlyWhen | applications/loader/loader.c:13-39 | over every run, every request under way keeps its application, arguments and thread settings if and only if no step disturbs another's |
| LoaderLock.RequestIsAsAsked | applications/loader/loader.c:13-31 | over every run, a request under way carries the application and arguments its starter last asked for, empty arguments as none |
| LoaderLock.DisturbanceIsLateClear | applications/loader/loader.c:13-39 | while no count is taken, a step disturbs a request if and only if it clears the pointer late |
| LoaderLock.RunIsWired | applications/loader/loader.c:224-267 | while no count is taken and no pointer cleared late, a running application is the one set up and its arguments stay until it has stopped |
| LoaderLock.RequestedApplicationRuns | applications/loader/loader.c:13-39 | in every undisturbed run the thread created runs the application its starter last asked for with the arguments it gave, none if empty; and none was running unless a count was taken |
| LoaderLock.RefusedOpenLetsTwoIn | applications/cli/cli.c:155-165 | a run in which a refused `loader open` lets a third actor start while an application runs, failing an assertion |
| LoaderLock.RefusedOpenStartsAnothers | applications/cli/cli.c:155-165 | a run in which, after a count was taken, a starter sets the thread up with another starter's application, every assertion met and no pointer cleared late |
| LoaderLock.RefusedStartClearsAnothers | applications/loader/loader.c:32-38 | a run in which a refused menu start leaves another starter with a NULL application |
| LoaderService.Loader.Lock | applications/loader/loader.c:203-212 | takes the lock exactly when the counter is zero |
| LoaderService.Loader.Unlock | applications/loader/loader.c:214-218 | the guarded decrement of the protocol |
| LoaderService.Loader.ThreadStateCallback | applications/loader/loader.c:224-267 | on Stopped frees the arguments and unlocks, otherwise leaves the fields alone |
| LoaderService.Loader.StartThread | core/furi/thread.c:114-128 | a created thread is Starting; a refused one has gone through the stop callback |
| LoaderService.Loader.StartApplication | applications/loader/loader.c:13-39 | a started application has any non-empty arguments it was given, else none; a refused start leaves no application and has lowered the counter |
| LoaderService.Loader.MenuCallback | applications/loader/loader.c:41-53 | does nothing under a lock, else is a locked start |
| LoaderService.Loader.Start | applications/loader/loader.c:181-201 | the status tells the case, and unless it is Ok the lock is as it was found and nothing runs |
| LoaderService.Loader.CliOpen | applications/loader/loader.c:100-131 | counter 2 after a start, 0 after a refused one, 1 when there is nothing to start |
| LoaderService.Loader.ExecuteOpen | applications/cli/cli.c:150-175 | run alone, the counter afterwards is 1 exactly when an application was started |
| LoaderService.Loader.ThreadBody | core/furi/thread.c:33-56 | the thread ends Stopped with the arguments freed and one lock given back |
| LoaderService.StartAndFinish | applications/loader/loader.c:181-267 | a start and the application's whole life leave the loader unlocked and ready |
| RpcFraming.ReadMovesOn | applications/rpc/rpc.c:421-466 | a complete read moves the decoder on by exactly its bytes in the parse of the whole stream |
| RpcFraming.FramesArePieces | applications/rpc/rpc.c:482-568 | the parse cuts the bytes into complete messages in order, then one that is no message or one that lacks more bytes than are left; nothing is lost |
| RpcProtocol.StepKeepsConsistent | applications/rpc/rpc.c:421-568 | any step of feeder, closer or worker keeps accepted = given + partial read + stream and the dispatched messages those of the whole parse |
| RpcProtocol.EveryRunIsFifo | applications/rpc/rpc.c:406-466 | for every interleaving, before a decode error: bytes reach the decoder in order without loss, dispatched messages are the first ones the accepted bytes frame, and no wake-up is lost |
| RpcProtocol.SleepsOnBytesExactlyWhen | applications/rpc/rpc.c:429-444 | the worker goes to wait with bytes left exactly in decode-error mode with more bytes than the read asked for |
| RpcProtocol.SleepIsReachable | applications/rpc/rpc.c:429-466 | a run from a fresh session, which refuses a message of length zero, that ends with the worker asleep, a byte in the stream and every feeder done |
| RpcProtocol.TerminateMeansDrained | applications/rpc/rpc.c:445-450 | terminate is set only with the stream empty, and never cleared |
| RpcProtocol.DecodeErrorEmpties | applications/rpc/rpc.c:533-560 | a failed decoding empties the stream and sets the error unless the session is ending; nothing else sets or clears it |
| RpcProtocol.EveryFedMessageIsDispatched | applications/rpc/rpc.c:482-568 | a worker that has ended has dispatched exactly the messages framed by all bytes fed before |
| RpcProtocol.ClosedWorkerAdvances | applications/rpc/rpc.c:421-568 | once closed, the worker can always move and each move brings it closer to its end, decode error or not |
| RpcProtocol.Alone | applications/rpc/rpc.c:639-647 | from any state after close the worker alone ends, having dispatched exactly the framed messages |
| RpcSessions.RpcSession.Feed | applications/rpc/rpc.c:406-414 | a prefix as long as there is room is accepted, and the flag is raised |
| RpcSessions.RpcSession.Wait | applications/rpc/rpc.c:444-457 | a wait returns on a raised flag, on the next arrival or on the close, and loses no bytes |
| RpcSessions.RpcSession.Read | applications/rpc/rpc.c:421-466 | a read succeeds exactly when there is no decode error and enough bytes come before the close, with the first of them; else it drains the stream and terminates |
| RpcSessions.RpcSession.DecodeMessage | applications/rpc/rpc.c:490-499 | one decoded message is the first one the bytes frame, those still to arrive included; tells a decode error from the end |
| RpcSessions.RpcSession.Worker | applications/rpc/rpc.c:482-568 | whatever arrives before the close, the worker ends with the stream empty, all framed messages dispatched in order, and one error reply if the rest is not a message |
| RpcStorage.WriteKeepsSound | applications/rpc/rpc_storage.c:326-372 | a write message keeps file and record held exactly while writing, and the open file equal to its chunks so far |
| RpcStorage.EveryRunIsSound | applications/rpc/rpc_storage.c:33-55 | the same over every sequence of requests, with every transaction answered under its own id before anything else |
| RpcStorage.OneReplyEach | applications/rpc/rpc_storage.c:33-55 | as many replies as transactions, but for one still open and those dropped with the session |
| RpcStorage.InterruptedFirst | applications/rpc/rpc_storage.c:33-46 | a transaction that another command, or a write under another id, breaks into is answered as interrupted under its own id before anything else |
| RpcStorage.NothingToInterrupt | applications/rpc/rpc_storage.c:33-55 | without a transaction a command sends its own answers alone; the end of a session sends nothing |
| RpcStorage.AnswersAreDeserved | applications/rpc/rpc_storage.c:326-372 | a request answers Ok, or with the file's error, only as a write under that id, and as interrupted only the transaction it breaks into |
| RpcStorage.EachOkIsEarned | applications/rpc/rpc_storage.c:326-372 | over every run, a transaction is answered Ok only by a write message of its own id |
| RpcStorage.FileIsChunksExactlyWhen | applications/rpc/rpc_storage.c:353-371 | after a write message the file equals the chunks since it was opened if and only if this chunk was written in full; a failed open leaves all files alone; the transaction goes on if and only if all went well and more is announced |
| RpcStorage.AnsweredOkExactlyWhen | applications/rpc/rpc_storage.c:353-371 | a write message that ends its transaction is answered once, and OK if and only if the file opened and took the chunk in full, or reports no error |
| RpcStorage.ShortWriteAnsweredOk | applications/rpc/rpc_storage.c:367-371 | a short write with no file error is answered OK |
| RpcUploads.SingleOkExactlyWhen | applications/rpc/rpc_storage.c:326-372 | whatever the storage answers, a file sent in chunks gets a single OK if and only if all chunks but the last are taken, and the last is taken or fails with no file error |
| RpcUploads.OkWithWholeFileExactlyWhen | applications/rpc/rpc_storage.c:326-372 | an upload ends with an OK and the file equal to all its chunks if and only if the transaction of its last chunk has lost nothing before it, or the file never opened, reports no error and held them already |
| RpcUploads.GoodUploadIsWhole | applications/rpc/rpc_storage.c:326-372 | when the open and all writes succeed, there is a single OK and the file is the concatenation of the chunks |
| RpcUploads.FailedUploadRestarts | applications/rpc/rpc_storage.c:342-349 | an upload whose second of three chunks is cut short: the third, under the same id, truncates the file and is answered OK alone |
| Pages.PagesJoin | applications/rpc/rpc_storage.c:237-261 | the pages concatenated are the items, in order |
| Pages.PagesAreFull | applications/rpc/rpc_storage.c:240-246 | every page but the last is full |
| Pages.PageCount | applications/rpc/rpc_storage.c:288-308 | there are max(1, ceil(n / capacity)) pages |
| RpcReplies.FullReadIsComplete | applications/rpc/rpc_storage.c:288-308 | on full reads: content in order, pages of at most 512 bytes, their number, and has_next false on exactly the last |
| RpcReplies.ShortReadEndsEmpty | applications/rpc/rpc_storage.c:302-313 | on a short read: full pages with the beginning of the file, then one message without content, the only one without has_next, which is an error if and only if the file reports one |
| RpcReplies.ShortReadAnsweredOk | applications/rpc/rpc_storage.c:302-313 | a one-byte file read short with no file error is answered as empty, with OK |
| RpcReplies.ListingIsComplete | applications/rpc/rpc_storage.c:201-267 | all entries in order, every message but the last full, has_next false on exactly the last |
| RpcReplies.ListIsAnswered | applications/rpc/rpc_storage.c:173-267 | the root is answered from the fixed list, a directory that opens by all its entries, and one that does not by a single error without content |
| RpcStorageService.RpcStorageSystem.ResetState | applications/rpc/rpc_storage.c:33-55 | ends a transaction, sending one reply under its id, interrupted, if asked to, and releases what it holds |
| RpcStorageService.RpcStorageSystem.WriteProcess | applications/rpc/rpc_storage.c:326-372 | the handler is the model's write step |
| RpcStorageService.RpcStorageSystem.ReadProcess | applications/rpc/rpc_storage.c:269-324 | interrupts a transaction, then sends exactly the model's read replies |
| RpcStorageService.RpcStorageSystem.SendPages | applications/rpc/rpc_storage.c:288-308 | the block loop sends the pages up to the first short read |
| RpcStorageService.RpcStorageSystem.ListProcess | applications/rpc/rpc_storage.c:201-267 | interrupts a transaction, then sends the listing, the fixed root listing, or the error |
| RpcStorageService.RpcStorageSystem.SendListing | applications/rpc/rpc_storage.c:237-261 | the lazy flushing loop sends exactly the pages of the listing |
| RpcStorageService.RpcStorageSystem.Free | applications/rpc/rpc_storage.c:585-592 | drops an open transaction without an answer |
| DuckyLines.LinesAreSplit | applications/bad_usb/bad_usb_script.c:349-385 | lines read one at a time with a final newline added are those of the whole-file split, last partial line included |
| DuckyLines.LinesAreTheFile | applications/bad_usb/bad_usb_script.c:366-383 | the lines, each ended by a newline, are the file again; none is empty, and none has a newline but one kept from an empty line in front |
| DuckyMachine.CallWaits | applications/bad_usb/bad_usb_script.c:332-388 | the delay a call asks for: the line's own and the default, the new default, or none for a repeated blank line; and it is the delay recorded |
| DuckyMachine.RepeatIsMacro | applications/bad_usb/bad_usb_script.c:332-385 | from any state whose run ends, running emits what the script with every REPEAT written out emits, and gets as far |
| DuckyMachine.ScriptRuns | applications/bad_usb/bad_usb_script.c:284-288 | the same for every whole script that ends |
| DuckyMachine.CounterCountsLines | applications/bad_usb/bad_usb_script.c:366-378 | the line counter counts lines and not repeats, and a failure is blamed on the failing line |
| DuckyMachine.CopiesOfLine | applications/bad_usb/bad_usb_script.c:335-347 | REPEAT n after any other line is written out as n more of that line |
| DuckyMachine.EndsExactlyWhen | applications/bad_usb/bad_usb_script.c:332-385 | from any state some call finishes or fails if and only if the lines ahead do not come to a counted REPEAT right after a counted REPEAT |
| DuckyMachine.ScriptEndsExactlyWhen | applications/bad_usb/bad_usb_script.c:284-288 | the same for scripts from their start, the line left over from an earlier run counting as the one before the first |
| DuckyMachine.ScriptThatHangs | applications/bad_usb/bad_usb_script.c:335-347 | "STRING A" and two lines "REPEAT 1" never end |
| DuckyScripts.BadUsbScript.Preload | applications/bad_usb/bad_usb_script.c:305-330 | the counting pass finds the number of lines of the split, while it fits 16 bits, and rewinds |
| DuckyScripts.BadUsbScript.Refill | applications/bad_usb/bad_usb_script.c:353-365 | refilling the buffer changes nothing to the characters still to come, final newline included |
| DuckyScripts.BadUsbScript.Scan | applications/bad_usb/bad_usb_script.c:366-383 | the scan completes the first line or consumes the buffer into it |
| DuckyScripts.BadUsbScript.ReadLine | applications/bad_usb/bad_usb_script.c:349-385 | the next line of the whole file, wherever the 16-byte refills fall, or the end |
| DuckyScripts.BadUsbScript.ExecuteNext | applications/bad_usb/bad_usb_script.c:332-388 | one call of the interpreter is one call of the machine |
| DuckyScripts.BadUsbScript.Run | applications/bad_usb/bad_usb_script.c:454-510 | a started script whose run ends does what the written-out script does |
| UartLog.LogIsStrippedInput | applications/debug_tools/uart_echo.c:103-143 | the lines joined are the printable input without its escape codes: nothing lost, nothing invented |
| UartLog.EscapeIsInvisible | applications/debug_tools/uart_echo.c:104-111 | an escape code, up to its letter, leaves the screen alone and is over with the letter |
| UartLog.PrintableIsShown | applications/debug_tools/uart_echo.c:112-139 | any other printable character ends up at the end of the last line |
| UartLog.LinesFitScreen | applications/debug_tools/uart_echo.c:113-139 | no line is longer than 21 characters, all printable |
| UartLog.WrapsAtWidth | applications/debug_tools/uart_echo.c:113-139 | input without line breaks is its printable text cut into full lines of 21 and the rest |
| UartLog.BreaksArePacked | applications/debug_tools/uart_echo.c:116-121 | any run of line breaks after text starts exactly one new line |
| UartEcho.UartDumpModel.Rotate | applications/debug_tools/uart_echo.c:127-134 | the row pointers stay a permutation of the cells, moved up by one |
| UartEcho.UartDumpModel.PushToList | applications/debug_tools/uart_echo.c:103-143 | the six rows stay the window on the last rows of the unbounded log, rows past the cursor empty |
| UartEcho.UartDumpModel.Receive | applications/debug_tools/uart_echo.c:156-169 | after any bytes the screen is the window on the log of all of them |
| SceneStack.EveryRunIsCoherent | applications/gui/scene_manager.c:63-215 | over every sequence of operations enters and exits alternate and the scene shown is the stack top |
| SceneStack.PreviousUndoesNext | applications/gui/scene_manager.c:98-131 | going to a scene and back restores the stack, with the four handler calls in order |
| SceneStack.Answers | applications/gui/scene_manager.c:63-215 | what each operation answers: a scene is left to show, was found, or the event was consumed |
| SceneStack.CallsExactly | applications/gui/scene_manager.c:98-215 | a scene change leaves the old top and then enters the new one, and calls no other handler |
| SceneStack.GoingOnAfterStop | applications/gui/scene_manager.c:217-224 | whatever operations follow a stop, enters and exits keep alternating if and only if the stack is empty or none of them calls a handler |
| SceneManagement.SceneManager.NextScene | applications/gui/scene_manager.c:98-110 | pushes the scene, leaving the old top before entering it |
| SceneManagement.SceneManager.PreviousScene | applications/gui/scene_manager.c:112-131 | pops the top; true exactly when a scene is left to show |
| SceneManagement.SceneManager.SearchAndSwitchToPreviousScene | applications/gui/scene_manager.c:133-166 | cuts the stack to the topmost occurrence strictly below the old top, or changes nothing |
| SceneManagement.SceneManager.HasPreviousScene | applications/gui/scene_manager.c:168-190 | true exactly when the scene is strictly below the top |
| SceneManagement.SceneManager.SearchAndSwitchToAnotherScene | applications/gui/scene_manager.c:192-215 | leaves exactly the first scene and the target |
| SceneManagement.SceneManager.HandleBackEvent | applications/gui/scene_manager.c:63-82 | a consumed event changes nothing; any other goes to the previous scene, and is consumed exactly when one is left |
| SceneManagement.SceneManager.Stop | applications/gui/scene_manager.c:217-224 | leaves the top scene and keeps the stack |
| CliCompletion.CompletionKeepsMatches | applications/cli/cli.c:224-275 | completion extends the line and keeps the set of matching commands |
| CliCompletion.CompletionIsIdempotent | applications/cli/cli.c:224-275 | a second completion, trimming included, changes nothing |
| CliCompletion.BaseJoins | applications/cli/cli.c:244-263 | an empty accumulator can only mean that nothing has matched yet |
| CliCompletion.TrimCuts | applications/cli/cli.c:145-148 | trimming cuts spaces from both ends and nothing else |
| CliCompletion.WordExactly | applications/cli/cli.c:192-198 | the word looked up goes up to the first space |
| CliCompletion.NameIsCallable | applications/cli/cli.c:177-205 | every name that is not blank, typed alone or before arguments, is the word looked up once the line is trimmed |
| CliCompletion.CallableExactlyWhen | applications/cli/cli.c:177-205 | some line looks up a registered name if and only if it is not blank |
| CliService.Cli.CutToCommon | applications/cli/cli.c:245-259 | the character loop cuts to the longest common prefix |
| CliService.Cli.CommonBase | applications/cli/cli.c:233-265 | the fold over the commands, in any order, is the longest common prefix of the matches |
| CliService.Cli.HandleAutocomplete | applications/cli/cli.c:224-275 | the trimmed line becomes the longest common prefix of the commands it starts, unchanged if there is none |
| CliService.Cli.AddCommand | applications/cli/cli.c:356-381 | registers the trimmed name with every space replaced |
| LfsBits.Popc | lib/lfs_config.h:96-105 | for every word the portable popc is the sum of its bits |
| LfsBits.Npw2 | lib/lfs_config.h:70-84 | the portable npw2 is the rounded-up logarithm if and only if the word is at least 2; it is 1 for 1 and 32 for 0 |
| LfsBits.Ctz | lib/lfs_config.h:86-94 | for every non-zero word, the place of its lowest one |

## Left out

- Hardware, USB, radio, NFC, GPIO, drawing and layout: foreign libraries and pixel output.
- The RTOS and libraries: queues, timers, threads, stream buffers, m-lib containers and nanopb are atomic steps, sequences or parameters.
- Debounce in applications/input/input.c: a pin level reaches the model already debounced; the timer start and the Press of one press are one step.
- Memory not set at boot: a pin's sequence counter is taken as zero before its first press.
- The GUI mutex: each GUI operation is one step.
- Callbacks that re-enter the GUI or the dispatcher from inside an input, enter or exit handler: such switches are separate steps between events.
- The dispatcher's tick and custom events, and waiting on an empty queue: they do not touch input routing.
- The loader's menus, application lists and heap accounting: names are looked up in a set.
- InputService.NumbersGrow: counts presses without bound; InputDevice cuts the numbers to 32 bits, and InputDevice.NewPressIsNewestExactlyWhen says what that changes.
- InputService.NewPressIsNewest: the same.
- ViewSwitching.NoKeyStuckByViews: covers a running dispatcher; the draining after a stop is InputLatch.StopStrandsKeys and the method Drain.
- The RPC decoder and message handlers: the decoder is any function from the bytes read so far to need, complete or invalid; the size limit of a message is part of it.
- The interleaving of feeders with the worker inside the class RpcSession: bytes arrive while it waits; RpcProtocol has them arriving between any two of its steps.
- Sessions that are never closed, in the class RpcSession: their worker waits for ever; RpcProtocol.EveryRunIsFifo covers them.
- Messages cut short at the end of file: whether the decoder accepts one is a parameter, and such a message is kept apart from the dispatched ones.
- The other storage commands: any file changes and replies, after the transaction they interrupt.
- Files changed from elsewhere during a write transaction.
- Parsing of script lines, key codes, 32-bit delay arithmetic and the waiting itself: a line is an action with a delay, a default delay, a repeat count, blank or an error.
- Characters beyond ASCII and NUL bytes in lines.
- The CLI line editor, history and command execution apart from the loader lock.
- The compiler-intrinsic branches of lib/lfs_config.h, and its one-line arithmetic helpers.
- Scene events other than Back, and the states kept per scene: they change neither stack nor handler calls.
