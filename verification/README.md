# The firmware's event engine and storage layers, verified

This project models eight parts of the keyboard firmware in Dafny and proves what they promise, for
all inputs and all runs.

| part | files | what is proved |
|---|---|---|
| tap/hold resolver | `TappingModel`, `TappingLedger`, `TappingTrace`, `TappingVerdict`, `TappingRuns`, `TappingPairs`, `TappingOrder`, `TappingTaps`, `TappingWitness`, `TapHold` | exactly-once execution of events, order around an undecided press and of the events of one key, the tap-or-hold verdict on a wrapping timer and exactly when it is right, releases with the tap count of their press |
| deferred executor | `DeferredModel`, `DeferredProofs`, `DeferredHistory`, `DeferredExec` | distinct tokens that take turns, token allocation across wraparound, a history that tells what each operation did, a schedule without drift in every run, wrapping time refining unbounded time |
| persistent keymap | `KeymapModel`, `KeymapProofs`, `KeymapViews`, `MacroText`, `DynamicKeymap` | crash-safe reset, agreement of the per-key and the bulk view, the parser of the macro area |
| OLED driver | `OledGeometry`, `OledModel`, `OledAddressing`, `OledProofs`, `OledPictures`, `Oled` | the addressing window is the block, what each writer shows, the display agrees with the buffer wherever the dirty bit is clear, convergence of rendering, the cursor |
| macro recorder | `MacroModel`, `MacroProofs`, `MacroKeys`, `DynamicMacro` | what a session saves and which key plays it, the two macros never overlap |
| layer cache | `LayerModel`, `LayerProofs`, `ActionLayer` | the bit-sliced cache is a map, releases find the action of their press exactly on matrices of at most 256 keys |
| paged EEPROM | `EepromI2c` | a block write is a flat copy on a chip that wraps within pages |
| encoders | `EncoderModel`, `EncoderReports`, `EncoderDriver` | conservation of steps, Gray-code phase, the direction reported, catching up across halves |

`Arithmetic` holds the facts about division and bits they share, `Common` the types.

Each part that the firmware runs by changing state is a class whose methods update fields, arrays and
traces in place. Its methods are proved equal to a transition function over values, and the theorems
about runs are lemmas about that function.

How the outside world enters:

* **Time.** An event, a trigger time and a pass carry the unbounded time they were taken at. Every
  decision looks only at its low 16 or 32 bits, through the same wrapping subtraction as the source;
  the theorems compare the outcome with unbounded time.
* **Executing a record** appends a copy of it to a trace. Releases the resolver makes up and the reset of
  the keyboard on overflow are separate entries.
* **The keymap**, as seen by the resolver, is a pair of arbitrary functions of the trace and the record,
  and may differ from call to call. The callbacks of the executor are arbitrary functions of the history.
* **Build options** of the resolver: the defaults with `IGNORE_MOD_TAP_INTERRUPT` and
  `NO_ACTION_ONESHOT`, no swap hands. `TAPPING_TERM` is below 500 when the firmware is built, since
  `quantum/action_tapping.c:153` compiles a further branch otherwise; the term at run time
  (`g_tapping_term`) is any number. The pointer argument of `process_tapping` is an in-out value: the
  caller stores the changed record back.
* **Transmissions** succeed or fail as a parameter says; a failed transfer may have delivered any
  prefix of the block. The display controller (SSD1306 or SH1106) takes the addressing bytes apart and
  stores each byte where its own pointer stands. While the panel scrolls its memory may change in any way.
* **Addresses** are offsets; regions of the EEPROM must be disjoint and fit, which the firmware's
  configuration has to provide. Arithmetic on `int` is that of a 32-bit platform.

Where the code and its own comments or documentation differ, the model follows the code:

* `quantum/dynamic_keymap.c:229-230` says that sending a macro cannot go past the end of the buffer. It
  does when the buffer holds exactly `id` zeros, the last of them its last byte, as after any text filled
  up with `id` zeros. `MacroSend`, `OverrunsAfterText` and `NoOverrunIff` say when.
* `docs/tap_hold.md` lets a key released within the term be a tap. The code decides for a hold in two
  more cases. The release may have been queued behind another key before the press became pending without
  a scan of the queue (`quantum/action_tapping.c:391-393`); `UnsettledReachable` is a run that ends so. Or
  the press came while an older event was queued, against which it is compared as if that event were a
  turn of the timer later (`quantum/action_tapping.c:92-101`); `OlderHeadReachable` is such a run.
  `EveryPressOfRuns` says that there is no third case: in every run with frequent ticks every press gets
  the documented verdict in all continuations if and only if neither applies, unless the scan settles it at
  once, which `ScanIsRightInRuns` shows to be right, or an overflow resets everything.
* A release is meant to be executed with the tap state of its press (`quantum/action_tapping.c:277` and 324), so
  that what the press registered is unregistered. `ReleaseMatchesPress` proves it of every run in which the
  events of the key come in an orderly way: when one of them is queued, the next finds a press undecided and
  is not the release that settles that press. `CountsCanDiffer` is a run with one call that is not orderly. A
  later release makes a press a tap whose own release is queued behind a tap key, and that release is then
  executed with count 0.
* `quantum/dynamic_macro.h:172-173` says that recording is stopped at the end of the other macro. It goes
  on, and further records are dropped, as `MacroProofs.Recording` states.

## Model

| member | source | states |
|---|---|---|
| TapHold.Resolver.constructor | quantum/action_tapping.c:53-56 | the resolver starts with nothing pending and an empty ring |
| TapHold.Resolver.WaitingBufferEnq | quantum/action_tapping.c:444-460 | appends to the queue; refuses exactly a real event when seven are queued |
| TapHold.Resolver.WaitingBufferClear | quantum/action_tapping.c:466-469 | the queue is empty afterwards |
| TapHold.Resolver.WaitingBufferTyped | quantum/action_tapping.c:475-482 | true exactly when an event of the opposite direction on the same key is queued |
| TapHold.Resolver.WaitingBufferScanTap | quantum/action_tapping.c:499-518 | the first queued release of the pending key within the term settles it as a tap |
| TapHold.Resolver.ProcessTapping | quantum/action_tapping.c:114-438 | offering one record: the whole new state, the changed record and whether it was consumed |
| TapHold.Resolver.ProcessWhileUndecided | quantum/action_tapping.c:134-270 | a record within the term of an undecided press |
| TapHold.Resolver.ProcessWhileTapped | quantum/action_tapping.c:271-309 | a record while a tap is held, within its term or after it (lines 321-354); its own release gets the tap state of the press, as TapReleased says of every run |
| TapHold.Resolver.ProcessAfterRelease | quantum/action_tapping.c:357-412 | a record within the term after a tap was released |
| TapHold.Resolver.ActionTappingProcess | quantum/action_tapping.c:71-106 | one call: the new event first, the overflow reset, then the queue, on a ring of eight slots; it terminates |
| TappingLedger.ReachableIsSound | quantum/action_tapping.c:499-518 | in every run a stored released key has a tap count, so the scan's invalid state does not arise; queued presses have count 0, counts fit in four bits, the queue fits in the ring |
| TappingLedger.ProcessSound | quantum/action_tapping.c:79-85 | one call keeps that invariant; on overflow the resolver is in its initial state with one reset on record, otherwise no reset is made |
| TappingLedger.Conservation | quantum/action_tapping.c:71-106 | in every run each event is executed, pending or queued no more often than it was fed in, and exactly as often if and only if no overflow occurred |
| TappingTrace.TraceIsSound | quantum/action_tapping.c:281-300 | every made-up release ends a tap of count above 1 executed before with the same tap state; tap counts of a key rise one by one up to 15 (lines 376-389) |
| TappingVerdict.OfferToUndecided | quantum/action_tapping.c:134-270 | an undecided press is executed by its own release or the end of its term; otherwise at most the offered release is executed, and no event of the opposite direction on its key is queued |
| TappingVerdict.PendingPressComesFirst | quantum/action_tapping.c:121-270 | whatever is fed in, the first thing executed after a press became undecided that is not a plain release is that press, unless an overflow resets everything |
| TappingVerdict.ProcessOvertakers | quantum/action_tapping.c:226-248 | releases that overtake an undecided press are of keys without a queued press; no queued press is lost and new presses are queued |
| TappingVerdict.QueueRemembersPresses | quantum/action_tapping.c:226-270 | over any run in which the press stays undecided the queue holds a press of every key pressed since, so only releases of keys pressed earlier overtake |
| TappingVerdict.VerdictOfCall | quantum/action_tapping.c:312-320 | one call decides an undecided press as unbounded time does |
| TappingVerdict.VerdictWhenSettled | quantum/action_tapping.c:121-146 | with only later events queued and no settling release among them, every run with a call between the end of the term and the next turn of the timer executes the press with count 1 if it was released in time and with count 0 otherwise |
| TappingVerdict.VerdictWhenUnsettled | quantum/action_tapping.c:391-393 | if a settling release is already queued, a tick after the term decides for a hold |
| TappingVerdict.VerdictIffSettled | quantum/action_tapping.c:312-320 | all runs give the verdict of unbounded time if and only if no settling release is queued |
| TappingVerdict.StartsSettled | quantum/action_tapping.c:499-518 | every way of becoming pending except the restart after an interrupted tap leaves no settling release in the queue |
| TappingVerdict.OlderQueueForcesHold | quantum/action_tapping.c:92-101 | a tap key becomes pending while everything queued is older: the call that brings the press executes it, as held, if and only if the queue is not empty |
| TappingVerdict.OlderHeadForcesHold | quantum/action_tapping.c:312-320 | an undecided press behind an older event is executed as held, with the queue left as it is |
| TappingRuns.DrainVerdict | quantum/action_tapping.c:92-101 | draining the queue behind a press decides it as unbounded time does, or leaves it undecided with the same releases in time still queued |
| TappingRuns.VerdictIff | quantum/action_tapping.c:312-320 | a press pending at any moment of a call gets the verdict of unbounded time in all continuations if and only if no older event heads the queue and no release of its key is overlooked when the call ends |
| TappingRuns.OverlookedIff | quantum/action_tapping.c:92-101 | a release is overlooked when the call ends exactly if one that would settle the press was queued at that moment and the call does not decide the press |
| TappingRuns.VerdictIffNotOlder | quantum/action_tapping.c:312-320 | so a press that starts settled gets the verdict of unbounded time in all continuations if and only if no older event heads the queue |
| TappingRuns.WrongBehindOlder | quantum/action_tapping.c:92-101 | behind an older event a press released in time is executed as held |
| TappingRuns.RunFlow | quantum/keyboard.c:424-430 | in every run in order with frequent ticks no event waits longer than its term and eight tick periods, the queue is sorted, and a press undecided between calls came before everything queued |
| TappingRuns.PendingIsLater | quantum/action_tapping.c:71-106 | so VerdictIffSettled applies to every press undecided between two calls of such a run |
| TappingRuns.ScanIsRightInRuns | quantum/action_tapping.c:499-518 | in such a run a press that the scan settles at once, in whatever call and whether it is new or comes from the queue, was released within its term of unbounded time |
| TappingRuns.EveryPressOfRuns | quantum/action_tapping.c:71-106 | in such a run, for every press and every moment of any call at which it is pending, also if it is decided in that very call: the verdict is that of unbounded time in all continuations if and only if no older event heads the queue and no release of its key is overlooked |
| TappingRuns.StartedPressOfRuns | quantum/action_tapping.c:71-106 | in such a run every press that becomes pending other than by a restart after an interrupted tap (lines 391-393) gets that verdict in all continuations if and only if no older event heads the queue at that moment; a press from the queue always does |
| TappingWitness.UnsettledReachable | quantum/action_tapping.c:391-393 | eight calls from the initial state, in order and with frequent ticks, lead to a press whose queued release is overlooked |
| TappingWitness.OlderHeadReachable | quantum/action_tapping.c:92-101 | five calls: an event stays queued with nothing pending; a tap key pressed then and released after 7 ms is executed as held, before the older event |
| TappingWitness.CountsCanDiffer | quantum/action_tapping.c:134-149 | eleven calls with frequent ticks in which a key is pressed and released in turn: its second press is executed with count 1, the next release of it with count 0; the tenth call settles the press with a later release while its own one is queued |
| TappingTaps.TapReleased | quantum/action_tapping.c:273-281 | in every run, whatever is queued, the release of a tap whose key is down is executed first of all, with the tap state with which its press was executed (after the term too, lines 322-327); it is remembered only within the term |
| TappingPairs.ReleaseMatchesPress | quantum/action_tapping.c:273-281 | in every run with frequent ticks in which a key is pressed and released in turn and its events come in an orderly way, every release of it is executed with the count of the press before it in the trace, unless a release of the key was made up or everything was reset in between |
| TappingPairs.AccountIff | quantum/action_tapping.c:114-149 | between calls of such a run, taking in an event of the key keeps the account that theorem rests on (counts due, order, directions in turn) if and only if the event comes in an orderly way |
| TappingPairs.SettlerIsFirst | quantum/action_tapping.c:499-518 | the release that the scan finds for a press is the next event of its key, though the scan compares 16-bit times only |
| TappingOrder.OrderIff | quantum/action_tapping.c:71-106 | in every run without a reset the events of a key are executed, pending and queued in the order in which they came, at every moment, if and only if none of them is consumed at once while others of the key are queued |
| TappingOrder.OrderOfCall | quantum/action_tapping.c:76-101 | the same for one call |
| TappingOrder.OrderlyIsInLine | quantum/action_tapping.c:71-106 | so in an orderly run without a reset the press before a release in the trace is its own |
| TappingTaps.WhileTapHeld | quantum/action_tapping.c:282-309 | other keys while a tap is held, with nothing queued: a tap key takes over and a release is made up for a count above 1, all else is just executed |
| TappingTaps.AfterTap | quantum/action_tapping.c:394-412 | other keys within the term after a tap, with nothing queued: a tap key takes over, any other press is executed and marks the tap as interrupted, a release is just executed |
| TappingTaps.TapAgain | quantum/action_tapping.c:370-393 | in every run with frequent ticks: a key pressed again after its tap is executed at once with the next count up to 15 if and only if that is within the term and the tap is not marked as interrupted; otherwise the press starts anew |
| TappingTaps.TapsCount | quantum/action_tapping.c:376-389 | any number of quick taps of one tap key: press and release number n are executed as they come, both with count n, or 15 |
| TappingTaps.OtherRelease | quantum/action_tapping.c:230-249 | a release of another key within the term of an undecided press is executed at once if and only if no press of it is queued and it is no modifier's |
| TappingTaps.MarkedIff | quantum/action_tapping.c:249-269 | as long as nothing but plain releases is executed after a press became pending on an empty queue, it is marked as interrupted if and only if some key was pressed since |
| TappingTaps.PlainKeysPass | quantum/action_tapping.c:417-437 | without tap keys every event is executed when it comes, unchanged |
| DeferredExec.Executors.TokenCanBeUsed | quantum/deferred_exec.c:23-33 | true exactly for a non-zero token that no slot holds |
| DeferredExec.Executors.AllocateToken | quantum/deferred_exec.c:35-45 | yields the first usable value after the counter, across wraparound, and fails exactly when no byte but 0 is free; it terminates |
| DeferredExec.Executors.DeferExec | quantum/deferred_exec.c:47-74 | the whole new table; the token was unused, a failure leaves the table alone, and with fewer than 256 slots and one free it does not fail |
| DeferredExec.Executors.ExtendDeferredExec | quantum/deferred_exec.c:76-94 | moves the trigger time of the entry with the token, and nothing else |
| DeferredExec.Executors.CancelDeferredExec | quantum/deferred_exec.c:96-117 | frees the slot of the token, after which no slot holds it |
| DeferredExec.Executors.DeferredExecTask | quantum/deferred_exec.c:119-152 | one pass over the slots in order with the wrapping comparison, at most once per millisecond; EveryNoteHasItsOp says what the callbacks are given |
| DeferredProofs.TokensDistinct | quantum/deferred_exec.c:53-69 | live tokens are bytes other than 0 and pairwise distinct in every run |
| DeferredProofs.AllocationSucceeds | quantum/deferred_exec.c:35-45 | with at most 255 slots and one free, at most one candidate more than there are slots is tried |
| DeferredProofs.AllocationFailsIff | quantum/deferred_exec.c:35-45 | with any number of slots allocation fails exactly when all 255 tokens are taken |
| DeferredProofs.EveryCallPromised | quantum/deferred_exec.c:126-149 | in every run the live entries are what the history promises, and every call got the promised trigger time and job |
| DeferredProofs.RunsOnSchedule | quantum/deferred_exec.c:126-149 | in every run a callback receives the trigger time last requested for its token, by deferring or extending, plus all delays it returned since, whatever the times of the passes |
| DeferredProofs.RunsOwnJob | quantum/deferred_exec.c:66-69 | in every run each call is of the callback and argument deferred for its token, however often it was called or extended in between |
| DeferredProofs.NoDrift | quantum/deferred_exec.c:136-141 | in any history, calls of a token that keep it live move its promised trigger time by the delays they returned |
| DeferredProofs.PassOnce | quantum/deferred_exec.c:126-150 | a pass calls each token at most once, and only tokens live when it began |
| DeferredProofs.PassSlot | quantum/deferred_exec.c:130-148 | a pass calls an entry exactly if it has expired, then requeues it by the returned delay or frees it; other entries stay |
| DeferredProofs.WrappingIsExact | quantum/deferred_exec.c:119-131 | with delays below 2^31 and punctual passes the 32-bit scheduler equals the scheduler on unbounded time |
| DeferredProofs.NeverEarly | quantum/deferred_exec.c:130-133 | then no callback runs before its trigger time |
| DeferredProofs.SteadyIsPunctual | quantum/deferred_exec.c:119-131 | operations in order, with passes at most a gap apart and callbacks that ask to be called again no sooner than that gap, are punctual, and no call is later than the gap |
| DeferredProofs.SteadyIsExact | quantum/deferred_exec.c:119-152 | so under that condition on the operations alone, and delays below 2^31, the 32-bit scheduler equals the one on unbounded time, is never early and never later than the gap |
| DeferredProofs.ComparisonExactIff | quantum/deferred_exec.c:119-131 | within a turn of the 32-bit timer both comparisons agree with unbounded time if and only if the difference is at least -2^31 and below 2^31 |
| DeferredProofs.EarlyIffFarAhead | quantum/deferred_exec.c:131 | an entry ahead of time is run too early exactly when it lies 2^31 or more ahead |
| DeferredProofs.SkippedIffFarBehind | quantum/deferred_exec.c:131 | an expired entry is skipped exactly when the pass comes more than 2^31 after its trigger time |
| DeferredProofs.PassSkippedIffLate | quantum/deferred_exec.c:119-125 | a pass is skipped as a whole exactly when it comes 2^31 or more after the one before |
| DeferredHistory.EveryNoteHasItsOp | quantum/deferred_exec.c:47-149 | in every run each note of the history was made by one operation and tells what it did: a trigger time is the time of that operation plus the delay it asked for, and a callback was handed its own argument and the 32-bit trigger time it was due at, and returned the delay noted |
| DeferredHistory.DeferTakesEffect | quantum/deferred_exec.c:47-74 | deferring succeeds exactly with a delay, a callback, a free slot and a token left, and is then noted with its trigger time |
| DeferredHistory.ExtendTakesEffect | quantum/deferred_exec.c:76-94 | extending succeeds exactly for a live token and a delay, and the new trigger time counts from now |
| DeferredHistory.CancelTakesEffect | quantum/deferred_exec.c:96-117 | cancelling succeeds exactly for a live token |
| DeferredHistory.TokensTakeTurns | quantum/deferred_exec.c:35-45 | in every run on fewer than 256 slots each token is the first one after that handed out last, counting round, which is neither 0 nor live |
| DeferredHistory.PassInOrder | quantum/deferred_exec.c:126-150 | a pass calls exactly the entries that have expired when it begins, in the order of their slots |
| DynamicKeymap.Store.constructor | quantum/via.h:42-43 | the layout and the build date of the store |
| DynamicKeymap.Store.EepromUpdateByte | platforms/eeprom.h:18 | one update, recorded in order |
| DynamicKeymap.Store.ViaEepromIsValid | quantum/via.c:64-71 | compares the three magic bytes with the packed build date |
| DynamicKeymap.Store.ViaEepromSetValid | quantum/via.c:75-84 | writes the magic or the erased value, byte by byte |
| DynamicKeymap.Store.ViaSetLayoutOptions | quantum/via.c:134-142 | the updates, from the least significant byte down |
| DynamicKeymap.Store.ViaGetLayoutOptions | quantum/via.c:122-132 | the big-endian number stored |
| DynamicKeymap.Store.SetKeycode | quantum/dynamic_keymap.c:99-104 | the two updates at the address of any layer, row and column, whether it is a key or not |
| DynamicKeymap.Store.KeycodeAt | quantum/dynamic_keymap.c:91-154 | the keycode of a key, or none out of range |
| DynamicKeymap.Store.DynamicKeymapReset | quantum/dynamic_keymap.c:106-117 | copies the flash keymap in row-major order |
| DynamicKeymap.Store.DynamicKeymapMacroReset | quantum/dynamic_keymap.c:186-193 | zeroes the macro area |
| DynamicKeymap.Store.EeconfigInitVia | quantum/via.c:107-118 | the updates of the whole reset in order; afterwards the memory is valid and the keymap is that of flash |
| DynamicKeymap.Store.ViaInit | quantum/via.c:95-105 | valid memory is left alone, any other is reset |
| DynamicKeymap.Store.GetBuffer | quantum/dynamic_keymap.c:119-132 | the bytes of the keymap from an offset, with zeros past its end |
| DynamicKeymap.Store.SetBuffer | quantum/dynamic_keymap.c:134-145 | updates inside the keymap, in order; bytes past its end are dropped |
| DynamicKeymap.Store.MacroSend | quantum/dynamic_keymap.c:195-250 | sends exactly the pieces of the id-th zero-terminated string, nothing if there is none or the buffer is unfinished, and reads past the buffer exactly when its last byte is 0 and it holds id zeros; it terminates |
| DynamicKeymap.Store.SkipStrings | quantum/dynamic_keymap.c:209-224 | skipping zeros leads to the start of the id-th string |
| DynamicKeymap.Store.SendPieces | quantum/dynamic_keymap.c:226-249 | one string, sent as single characters and prefix, action, key; every read lies inside the string and its terminator |
| KeymapProofs.CrashSafe | quantum/via.c:107-118 | wherever the reset is cut short, the memory is not taken for valid |
| KeymapProofs.CrashSafeIff | quantum/via.c:75-84 | that holds for every memory and cut if and only if neither the first nor the last magic byte is 0xFF |
| KeymapProofs.DigitsAreSafe | quantum/via.c:65-68 | digits of a build date never pack to 0xFF |
| KeymapProofs.ResetComplete | quantum/via.c:107-118 | the completed reset: valid, default options, keymap of flash, empty macros, all other bytes untouched |
| KeymapProofs.OptionsRoundTrip | quantum/via.c:120-142 | layout options read back as written, cut to the configured bytes |
| KeymapViews.KeysDisjoint | quantum/dynamic_keymap.c:86-89 | distinct keys have disjoint pairs of bytes |
| KeymapViews.EveryIndexIsKey | quantum/dynamic_keymap.c:86-89 | every place of the keymap belongs to a key |
| KeymapViews.KeyView | quantum/dynamic_keymap.c:91-104 | getting and setting a key is getting and setting the list of keycodes at its number; no other byte changes |
| KeymapViews.ColumnCarries | quantum/dynamic_keymap.c:86-89 | a column past the end of its row addresses the key of a later row |
| KeymapViews.BulkRead | quantum/dynamic_keymap.c:119-132 | a bulk read cut into any chunks yields the keycodes big-endian in row-major order, with zeros past the end |
| KeymapViews.BulkRestore | quantum/dynamic_keymap.c:134-145 | writing a dump back in any chunks restores every keycode on any memory and touches nothing outside the keymap |
| KeymapProofs.MagicSpells | quantum/via.c:64-68 | the magic is the day of the build in digits, two to a byte |
| KeymapProofs.SameDayIff | quantum/via.c:64-71 | memory written by one build is valid for another if and only if the digits of their days agree |
| KeymapProofs.OptionsBigEndian | quantum/via.c:122-142 | the layout options are stored most significant byte first |
| MacroText.SerializeRoundTrip | quantum/dynamic_keymap.c:195-250 | macros written one after the other with zero terminators are sent as what they mean, whatever bytes follow |
| MacroText.PiecesCover | quantum/dynamic_keymap.c:226-249 | the pieces sent are the string again, up to a final action without a key |
| MacroText.StringsPerZero | quantum/dynamic_keymap.c:209-224 | the area holds as many strings as zeros |
| MacroText.OverrunsAfterText | quantum/dynamic_keymap.c:209-232 | on any text without zeros followed by exactly id zeros, sending macro id reads past the buffer |
| MacroText.OverrunsExample | quantum/dynamic_keymap.c:226-232 | the smallest such buffer: one character, its terminator, and macro 1 |
| MacroText.NoOverrunIff | quantum/dynamic_keymap.c:195-232 | no macro that can be asked for reads past the buffer if and only if the buffer is unfinished or holds a zero for every macro |
| MacroText.SerializedIsSafe | quantum/dynamic_keymap.c:195-250 | a buffer written with a string for every macro is safe |
| Oled.Driver.constructor | drivers/oled/ssd1306_sh1106.c:228-232 | after initialization the buffer is clear and everything is dirty |
| Oled.Driver.OledClear | drivers/oled/ssd1306_sh1106.c:238-242 | zero buffer, cursor at 0, everything dirty |
| Oled.Driver.CalcBounds | drivers/oled/ssd1306_sh1106.c:244-264 | the six addressing bytes of a block, for both controllers |
| Oled.Driver.Transfer | drivers/oled/ssd1306_sh1106.c:326-329 | the bytes sent are stored one by one where the controller's pointer stands |
| Oled.Driver.OledRender | drivers/oled/ssd1306_sh1106.c:289-349 | the first dirty block is addressed, sent through the window the controller understands, and cleaned; on any failure its bit stays set |
| Oled.Driver.OledSetCursor | drivers/oled/ssd1306_sh1106.c:351-360 | the cursor for any column and line, with the 16-bit index; it is always inside the buffer |
| Oled.Driver.OledAdvancePage | drivers/oled/ssd1306_sh1106.c:362-381 | blanks to the end of the line, or the start of the next line |
| Oled.Driver.OledAdvanceChar | drivers/oled/ssd1306_sh1106.c:383-399 | the place of the next glyph |
| Oled.Driver.OledWriteChar | drivers/oled/ssd1306_sh1106.c:402-445 | one character: column i of it, byte 6c + i of the font or 0, complemented if inverted, stands at the cursor plus i and every other byte stays; the marked blocks and the cursor; wherever the glyph lies inside the buffer, also across the end of its line, and newline and return anywhere |
| Oled.Driver.PutChar | drivers/oled/ssd1306_sh1106.c:415-444 | the glyph is drawn, its blocks are marked if anything changed, the cursor advances |
| Oled.Driver.OledPan | drivers/oled/ssd1306_sh1106.c:460-476 | every line moved one column in place, everything dirty |
| Oled.Driver.OledWriteRaw | drivers/oled/ssd1306_sh1106.c:493-502 | the bytes that fit are stored from the cursor, blocks with a changed byte are marked |
| Oled.Driver.OledWritePixel | drivers/oled/ssd1306_sh1106.c:504-522 | one pixel; positions outside change nothing |
| Oled.Driver.OledScrollStart | drivers/oled/ssd1306_sh1106.c:643-677 | scrolling starts only from a clean buffer |
| Oled.Driver.OledScrollOff | drivers/oled/ssd1306_sh1106.c:679-694 | after scrolling everything is dirty; a failed command changes nothing |
| OledPictures.CharacterDrawn | drivers/oled/ssd1306_sh1106.c:415-444 | a character puts its six columns at the cursor from left to right, changes no other byte, and marks the blocks of the first and last one if and only if a byte changed |
| OledPictures.NewlineBlanks | drivers/oled/ssd1306_sh1106.c:362-408 | a newline fills its line with as many spaces of the font as fit from the cursor on |
| OledPictures.ReturnMoves | drivers/oled/ssd1306_sh1106.c:362-413 | a return only moves the cursor, to the start of the next line or of the first after the last |
| OledPictures.RawWritten | drivers/oled/ssd1306_sh1106.c:493-502 | a raw write stores the bytes that fit, leaves all others and the cursor alone, and marks exactly the blocks in which a byte changed |
| OledPictures.PixelWritten | drivers/oled/ssd1306_sh1106.c:504-522 | writing pixel (x, y) sets that pixel of the display as asked and no other one; beside the display nothing changes |
| OledPictures.PanMoves | drivers/oled/ssd1306_sh1106.c:460-476 | panning moves every column of every line by one in the direction asked for; the column left behind stays, everything is dirty |
| OledPictures.RenderFirst | drivers/oled/ssd1306_sh1106.c:289-349 | a successful render sends the lowest dirty block, and turns the display on if that command arrives |
| OledProofs.AlwaysCoherent | drivers/oled/ssd1306_sh1106.c:289-522 | in every run of writers, cursors set anywhere, renders that may fail, and scrolling, as long as no glyph is drawn past the end of the buffer, each clean block shows the buffer whenever the panel does not scroll |
| OledProofs.RunStopsIff | drivers/oled/ssd1306_sh1106.c:402-445 | a run leaves the model exactly at a glyph drawn past the end of the buffer |
| OledProofs.RunFits | drivers/oled/ssd1306_sh1106.c:362-399 | if cursors are set where a glyph fits that never happens, and at every moment a full glyph has room inside the current line and the buffer |
| OledProofs.RendersConverge | drivers/oled/ssd1306_sh1106.c:289-349 | without writes, as many successful renders as there are blocks make the display equal the buffer |
| OledProofs.RenderCleans | drivers/oled/ssd1306_sh1106.c:347-348 | a successful render cleans exactly one block |
| OledAddressing.CommandsMean | drivers/oled/ssd1306_sh1106.c:248-263 | the controller puts the addressing bytes together to the page and the column they were made of |
| OledAddressing.WindowIsBlock | drivers/oled/ssd1306_sh1106.c:244-264 | every byte of a transfer lands at its own place of its own block |
| OledAddressing.WindowIsBlockIff | drivers/oled/ssd1306_sh1106.c:244-264 | for blocks no longer than a line that holds for all blocks if and only if a line consists of whole blocks |
| OledAddressing.ReceiveIsOverwrite | drivers/oled/ssd1306_sh1106.c:326-329 | so a transfer, whole or in part, overwrites exactly the bytes of its block |
| OledGeometry.TwoBlocksIff | drivers/oled/ssd1306_sh1106.c:435-441 | marking the blocks of the first and last byte of a glyph is enough if and only if a block has at least five bytes |
| OledProofs.AdvanceFits | drivers/oled/ssd1306_sh1106.c:383-399 | after a glyph drawn anywhere inside the buffer the next one has room in its line |
| OledProofs.AdvanceMeans | drivers/oled/ssd1306_sh1106.c:383-399 | the next glyph stands beside this one if it fits, otherwise at the start of the next line |
| OledProofs.NewlineEnds | drivers/oled/ssd1306_sh1106.c:362-408 | a newline ends at column 0 of the following line, index 0 after the last, and changes only the rest of its line; where not even a blank fits in the line it does nothing |
| OledProofs.CursorFitsIff | drivers/oled/ssd1306_sh1106.c:351-360 | exactly which columns and lines leave room for a glyph: the position counted on from line to line lies behind the display or has room in its line |
| OledProofs.CursorAtFits | drivers/oled/ssd1306_sh1106.c:351-360 | a cursor set inside the display has room for a glyph |
| OledProofs.CursorOverflows | drivers/oled/ssd1306_sh1106.c:351-360 | column 21 of the last line of a 128 by 32 display is accepted, and the next glyph would leave the buffer |
| OledProofs.PixelSet | drivers/oled/ssd1306_sh1106.c:512-517 | setting a pixel sets that pixel of its column and no other |
| DynamicMacro.Recorder.constructor | quantum/dynamic_macro.h:179-199 | both macros empty, nothing recorded |
| DynamicMacro.Recorder.PlayMacro | quantum/dynamic_macro.h:77-93 | plays the records of a slot in order |
| DynamicMacro.Recorder.RecordKeyAt | quantum/dynamic_macro.h:104-122 | stores a record unless it is a leading release or would overwrite the other macro |
| DynamicMacro.Recorder.RecordEndAt | quantum/dynamic_macro.h:128-142 | steps back over trailing presses |
| DynamicMacro.Recorder.ProcessRecordDynamicMacro | quantum/dynamic_macro.h:154-260 | the whole new state, and exactly which events are processed further; every access lies inside the array; RecordThenPlay says which key plays what |
| MacroProofs.SessionSaves | quantum/dynamic_macro.h:104-142 | a session saves the offered records without leading releases, cut to the capacity at its start, without trailing presses, and the other macro plays as before |
| MacroProofs.SessionShape | quantum/dynamic_macro.h:128-142 | a saved macro fits, and is empty or starts with a press and ends with a release |
| MacroProofs.Recording | quantum/dynamic_macro.h:104-122 | at every moment of a recording the slot holds what was offered so far, and the other macro is unchanged |
| MacroProofs.StepKeepsSlot | quantum/dynamic_macro.h:154-260 | only a slot's own recording changes what it would play |
| MacroProofs.SlotKept | quantum/dynamic_macro.h:154-260 | over any run in which a slot is not recorded it plays the same |
| MacroProofs.EveryPlaybackTidy | quantum/dynamic_macro.h:155-178 | in every run from power-up everything played is empty or starts with a press and ends with a release |
| MacroKeys.RecordThenPlay | quantum/dynamic_macro.h:154-260 | for both macros and any events: release its start key, go on without a stop, press the stop key, do anything that does not record this macro, release its play key; played is what the session should have saved at the capacity at its start |
| MacroKeys.BothMacros | quantum/dynamic_macro.h:154-260 | from an empty buffer, macro 1 may take all of it and macro 2 what is left, and each play key plays its own |
| MacroKeys.OtherKeysIdle | quantum/dynamic_macro.h:200-258 | no other key does anything outside a recording, and no play key during one |
| ActionLayer.Cache.constructor | quantum/action_layer.c:188 | the empty cache |
| ActionLayer.Cache.UpdateSourceLayersCache | quantum/action_layer.c:194-202 | the bits of one key, one byte per bit of the layer |
| ActionLayer.Cache.ReadSourceLayersCache | quantum/action_layer.c:208-219 | the layer put together from those bits |
| ActionLayer.Cache.LayerSwitchGetLayer | quantum/action_layer.c:253-273 | the topmost layer for a key |
| ActionLayer.Cache.StoreOrGetAction | quantum/action_layer.c:229-247 | a press stores its layer, a release reads it back; without caching the current layers decide |
| LayerProofs.CacheIsMap | quantum/action_layer.c:194-219 | reading after an update gives that layer, and no other key changes |
| LayerProofs.LayersOfWidth | quantum/action_layer.c:253-273 | as many layers as the layer state has bits |
| LayerProofs.SwitchLayerIsTopmost | quantum/action_layer.c:253-273 | the layer chosen is on and not transparent and none above it is, or it is layer 0 |
| LayerProofs.ReleaseMatchesPress | quantum/action_layer.c:229-247 | on at most 256 keys, over every run a release resolves to the action of its own press, whatever layers and other keys do in between |
| LayerProofs.LargeMatrixMixesUp | quantum/action_layer.c:194-202 | on any larger matrix some run makes a release resolve to the layer of another key |
| LayerProofs.ReleaseMatchesPressIff | quantum/action_layer.c:229-247 | releases resolve to the actions of their presses in all runs if and only if the matrix has at most 256 keys |
| LayerProofs.NumberBelow | quantum/action_layer.c:188-197 | key numbers stay inside the cache on matrices of any size |
| LayerProofs.KeyNumbersApart | quantum/action_layer.c:195-197 | on at most 256 keys the 8-bit number tells keys apart |
| LayerProofs.LargeMatrixCollides | quantum/action_layer.c:195-197 | on any larger matrix two keys share a number |
| EepromI2c.Driver.constructor | drivers/eeprom/eeprom_i2c.h:45-82 | the chip's size, page size and address size |
| EepromI2c.Driver.FillTargetAddress | drivers/eeprom/eeprom_i2c.c:48-54 | the address, most significant byte first |
| EepromI2c.Driver.EepromWriteBlock | drivers/eeprom/eeprom_i2c.c:97-140 | a write of any address and length inside the chip is a flat copy; its packets carry the data in order, without gap or overlap, each inside one page; it terminates |
| EepromI2c.Driver.EepromReadBlock | drivers/eeprom/eeprom_i2c.c:81-95 | the bytes from the address on |
| EepromI2c.Driver.EepromDriverErase | drivers/eeprom/eeprom_i2c.c:65-79 | every byte of the chip is zero |
| EepromI2c.AddressRoundTrip | drivers/eeprom/eeprom_i2c.c:48-54 | the address bytes mean the address, modulo their range |
| EepromI2c.AddressByte | drivers/eeprom/eeprom_i2c.c:48-54 | byte i of the address bytes is the address shifted down by the bytes after it |
| EepromI2c.PageWriteIsFlat | drivers/eeprom/eeprom_i2c.c:107-112 | a packet that stays in its page is a flat copy |
| EepromI2c.PageWriteWraps | drivers/eeprom/eeprom_i2c.c:107-112 | bytes beyond the page come out at its start, which is why packets are cut at pages |
| EepromI2c.CarriedIsFlat | drivers/eeprom/eeprom_i2c.c:107-134 | any packets that carry the data in this way leave a flat copy |
| EncoderDriver.Encoders.constructor | quantum/encoder.c:84-94 | every encoder starts from its pins |
| EncoderDriver.Encoders.EncoderUpdate | quantum/encoder.c:97-128 | pulses, count and reported step of one encoder; ReportsAreNet and OneWayReports fix the direction |
| EncoderDriver.Encoders.EncoderRead | quantum/encoder.c:130-138 | one sample of every encoder; the other half's counts stay; ReportsAreNet says what is reported over runs |
| EncoderDriver.Encoders.EncoderUpdateRaw | quantum/encoder.c:145-166 | the counts of the other half are taken over, one reported step for each |
| EncoderReports.ReportsAreNet | quantum/encoder.c:110-121 | over every run, for each of any number of encoders, the steps reported counter-clockwise minus those reported clockwise are its net steps, and the 8-bit count agrees with them |
| EncoderReports.OneWayReports | quantum/encoder.c:97-128 | an encoder turned one way only is reported that way only: counter-clockwise when its phase rises, clockwise when it falls |
| EncoderReports.RawReported | quantum/encoder.c:147-161 | taking over the other half's counts reports the signed difference for each of its encoders |
| EncoderModel.Conservation | quantum/encoder.c:97-128 | for resolutions 1 to 127, over every run, resolution times net steps plus the pulses left is the sum of the table's steps, and less than one step is left |
| EncoderModel.ConservesIff | quantum/encoder.c:110-121 | that holds for all runs if and only if the resolution is below 128 |
| EncoderModel.ValueFollowsNet | quantum/encoder.c:111-119 | the 8-bit count is the net number of reported steps |
| EncoderModel.TotalFollowsPhase | quantum/encoder.c:48 | the sum of the table's steps is the change of phase modulo 4, off by two for each sample that skips a phase |
| EncoderModel.LegalIff | quantum/encoder.c:48 | it is the change of phase exactly when an even number of samples skipped one |
| EncoderModel.CatchesUp | quantum/encoder.c:147-161 | catching up makes the counts agree, and reports exactly the other half's steps if and only if they were in the range of a signed byte |

## Left out

- Resolver builds other than the one named above: retro shift, combos, per-key options, permissive hold and hold on other key press rest on user callbacks or further files.
- One-shot keys, swap hands and mod-tap interrupt cancelling: there the callee changes the record it is given, which breaks the exactly-once ledger.
- TappingVerdict.VerdictIffSettled: needs only later events in the queue; TappingRuns.PendingIsLater and TappingRuns.VerdictIff cover the rest of each run.
- TappingRuns.EveryPressOfRuns: needs a tick at least every `gap` milliseconds with twice the term and nine times `gap` below 2^16, and a term above 0; with rarer ticks an event can stay queued for a turn of the 16-bit timer.
- TappingPairs.ReleaseMatchesPress: one way only. After a call that is not orderly the counts may still agree: that depends on which of the queued keys the keymap calls tap keys when they are reached. AccountIff gives the exact condition for what the proof keeps, OrderIff for the order.
- TappingPairs.AccountIff: assumes that the call does not overflow the queue, which resets everything and keeps any account.
- DeferredHistory.TokensTakeTurns: fewer than 256 slots; with more, an attempt that fails because all tokens are taken moves the counter on by one.
- DeferredProofs.WrappingIsExact: passes more than 2^31 ms after a trigger time or after the pass before are excluded; there the code skips the entry or the whole pass, as SkippedIffFarBehind and PassSkippedIffLate say. SteadyIsPunctual gives a condition on the operations under which that does not happen.
- Deferred callbacks that schedule, extend or cancel entries during a pass, and macro playback that starts or stops a recording.
- DynamicKeymap.Store.MacroSend: stops at the first read past the buffer and reports it, since what lies there is unknown.
- Bulk access to the macro area: the same two loops as for the keymap, over another region.
- Custom configuration between the layout options and the keymap, the raw HID protocol and keyboard-level initialization.
- OledProofs.AlwaysCoherent: says nothing of a run after a glyph drawn past the end of the buffer, which overwrites memory that is not part of this model.
- `oled_write_raw_byte`, whose index is clamped to one past the buffer, and 90-degree rotation, fonts, brightness, timeouts and the initialization commands of the display.
- OledAddressing.WindowIsBlock: blocks longer than a line are left out; for them the last page sent can be smaller than the first one, which the controllers do not define.
- LED blinking, clearing of the keyboard and of the layer state around recording and playback.
- ActionLayer.Cache.StoreOrGetAction: the layer state hooks that user code may override are not modelled; the set of layers that are on is an argument.
- EEPROM pages of 256 bytes or more, whose copy loop counts with eight bits, and chips that take address bits from the device address.
- EncoderDriver.Encoders.EncoderRead: without a default position, which would drop pulses.
