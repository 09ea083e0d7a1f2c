# Ax-Shell core, modelled in Dafny

This project models the logic at the centre of Ax-Shell, a Hyprland desktop shell
written in Python on top of Fabric and GTK, and proves properties of it:

- **The external-monitor brightness service** (`services/brightness.py`). It drives
  monitors over DDC/CI through `ddcutil`, one shell command at a time. The model covers
  the command queue and its drop rules, and the single execution slot with its soft
  ceilings. It covers the per-bus write controller: target, confirmation window, retry
  budget, backoff and in-flight flag. It covers the read and write callbacks, the
  watchdog, the poller and detection, and the parsers of `ddcutil` output
  (`brightness_math.dfy`, `command_queue.dfy`, `ddc_text.dfy`,
  `brightness_state.dfy`, `brightness.dfy`).
- **The debounced setter** (`utils/debounce.py`) that coalesces slider pushes
  (`debounce.dfy`).
- **Configuration loading** (`config/settings_utils.py`): the recursive `deep_update`,
  `load_bind_vars` with its repair of the two visibility dictionaries, and the animation
  choice of `generate_hyprconf` (`settings.dfy`).
- **Logging helpers** (`config/loguru_config.py`). These are the leading `[Tag]`
  extraction, the noisy-message filters and demotion, the display group and name of the
  patcher, the duplicate limiter and the GLib level mapping (`log_config.dfy`).
- **The calendar widget** (`modules/cal.py`): month and week views, navigation, the
  view cache and its pruning, and the weekday header. Python's `datetime` arithmetic is
  modelled on proleptic Gregorian dates (`civil_date.dfy`, `calendar.dfy`).
- **The three-day forecast** (`modules/weather_forecast.py`): periods, grouping of
  the MET Norway timeseries into periods, averaging and the most common symbol code.
  Also the weather code tables and the location choice of `utils/weather.py`
  (`forecast.dfy`, `weather_utils.dfy`).
- **The audio visualiser** (`modules/cavalcade.py`): the `cava` process state machine,
  its FIFO handles and frame reading, silence detection, sample adoption on frame ticks
  and the bar layout (`cavalcade.dfy`).
- **Start-up logic of `main.py`**: the `notify` override that forwards only existing
  properties, and the choice of the monitors that get a bar (`shell_main.dfy`).

`common.dfy` holds shared helpers that follow Python's semantics. `round` rounds half
to even. `int()` of a quotient truncates toward zero. Also `str.lower` on ASCII and
`str` of integers.

Shell commands, GLib timers, threads, the network and the clock are not executed. The
clock is a parameter or a field set from outside. A command's exit is an event with its
output. GLib timers and idle callbacks are recorded in a log of armed callbacks, and the
environment calls the handlers. What a `float` computes is taken over exact rationals
or reals.

## Model

| member | source | states |
|---|---|---|
| CommandQueue.CeilMs | services/brightness.py:19-23 | the table ceilings are whole hundreds of ms within 1000..4000, and a kind missing from the table (`get_force`) falls back to 2000 ms |
| CommandQueue.CeilingDelay | services/brightness.py:420-424 | the internal ceiling armed on dequeue lies between 2800 and 4800 ms |
| CommandQueue.Kept | services/brightness.py:378-396 | filtering never lengthens the queue |
| CommandQueue.DropStale | services/brightness.py:374-396 | the loop of `_run_cmd` keeps exactly the entries `Kept` describes, in order |
| CommandQueue.KeptIsSelection | services/brightness.py:378-396 | the kept queue is the selection of the old queue by the per-entry survival mask |
| CommandQueue.SurvivorMask | services/brightness.py:380-395 | one survival verdict per queued entry |
| CommandQueue.KeptIsSubsequence | services/brightness.py:378-396 | the surviving entries form a subsequence of the old queue: relative order kept |
| CommandQueue.KeptMembers | services/brightness.py:378-396 | an entry is kept iff it was queued and survives the drop rules |
| CommandQueue.EnqueueAppendsLast | services/brightness.py:400-401 | the new command is appended last, behind exactly the survivors |
| CommandQueue.ForceDropsNothing | services/brightness.py:380-382 | enqueueing a `get_force` keeps the whole queue |
| CommandQueue.DroppedExactly | services/brightness.py:376-396 | a non-force enqueue drops exactly the same-kind-same-bus entries, plain reads of a bus about to be written, and plain reads while any write is in flight; `get_force` entries never |
| CommandQueue.ForceEntriesKept | services/brightness.py:380-382 | queued `get_force` entries are never dropped |
| BrightnessMath.Percent | services/brightness.py:188 | `round(cur/mx*100)` with ties to even: within half a step of the exact percentage, and in 0..100 when 0 <= cur <= mx |
| BrightnessMath.RawFor | services/brightness.py:348 | the raw value for a target percentage lies in 0..mx and within half a step of the exact value |
| BrightnessMath.ReadBackOfWrite | services/brightness.py:188 | with a maximum of at least 100 the raw value written for a target reads back as exactly that target (the same at line 348) |
| BrightnessMath.SmallMaxMissesTarget | services/brightness.py:188 | with a maximum of 3, 50 % is written as raw 2 and reads back as 67 % (the same at line 348) |
| BrightnessMath.PercentBounds | services/brightness.py:188 | a percentage within half a step of an in-range reading lies in 0..100 |
| BrightnessMath.RawBounds | services/brightness.py:348 | a raw value within half a step of an in-range target lies in 0..mx |
| BrightnessMath.CeilingBackoff | services/brightness.py:446 | the backoff after a ceiling expiry lies in [900, 2200] ms and is waited+500 inside that range |
| BrightnessMath.WatchdogBackoff | services/brightness.py:147 | the backoff after a stuck write lies in [1400, 3000] ms and is age+400 inside that range |
| BrightnessMath.RetryBump | services/brightness.py:449 | the retry budget after a ceiling expiry is 1 or 2, and b+1 for b in 0..1 |
| BrightnessMath.ConfirmDelay | services/brightness.py:455 | the confirming read waits at least 500 ms and never past the backoff |
| BrightnessMath.Waited | services/brightness.py:445 | no recorded start time counts as no wait |
| DdcText.StripAnsi | services/brightness.py:15 | removing colour sequences never lengthens the text (the same at lines 507-508) |
| DdcText.StripAnsiPlain | services/brightness.py:507-508 | text without an escape character is unchanged |
| DdcText.StripAnsiDropsSgr | services/brightness.py:15 | a leading `ESC [ [0-9;]* m` sequence is removed (the same at lines 507-508) |
| DdcText.StripAnsiOnlyRemoves | services/brightness.py:507-508 | stripping only removes characters: the output is a sub-multiset of the input, so it never holds more escape characters |
| DdcText.LinesFrom | services/brightness.py:28 | no line produced by `splitlines` holds a line break |
| DdcText.ParseDetectOutput | services/brightness.py:26-34 | the loop yields the bus numbers of the lines, each once, in first-appearance order |
| DdcText.DetectOutputShape | services/brightness.py:26-34 | the result has no duplicates and holds exactly the buses some line names |
| DdcText.DedupNoDup | services/brightness.py:32-33 | the `not in` check leaves each bus once |
| DdcText.DedupFirstAppearanceOrder | services/brightness.py:32-33 | buses come out in the order of their first appearance |
| DdcText.FirstDetectLower | services/brightness.py:29 | the `re.I` bus pattern finds the same bus in a line and its lower-case form |
| DdcText.DetectLineRoundTrip | services/brightness.py:29 | an indented `I2C bus:  /dev/i2c-N` line is read back as bus N |
| DdcText.DetectLine | services/brightness.py:29 | the bus pattern matched where an `I2C bus:  /dev/i2c-N` text starts gives N |
| DdcText.Strip | services/brightness.py:37 | `str.strip` leaves no whitespace at either end |
| DdcText.TerseRoundTrip | services/brightness.py:36-40 | the terse line `VCP 10 C cur max` is read back as (cur, max) |
| DdcText.TerseLine | services/brightness.py:38 | the terse pattern at the start of `VCP 10 C cur max` gives (cur, max) |
| DdcText.VerboseRoundTrip | services/brightness.py:41-43 | the verbose `current value = cur, max value = max` is read back as (cur, max) |
| DdcText.VerboseLine | services/brightness.py:41 | the first verbose match in a line shaped like `current value = cur, max value = max` gives (cur, max) |
| DdcText.WrapTimeoutKeepsBase | services/brightness.py:364-370 | the wrapped command ends with the base command unchanged |
| DdcText.WrapTimeoutTable | services/brightness.py:364-370 | with `timeout` present detect/get/set run under 4.0 s/2.0 s/3.2 s, killed 1 s after |
| BrightnessState.WrapKind | services/brightness.py:237-238 | the kind used for the timeout prefix is always in the ceiling table |
| BrightnessState.CommandTexts | services/brightness.py:117-118 | the exact shell text of detect, plain and forced reads, and writes, with and without `timeout` (the same at lines 232-237, 283-288, 364-370) |
| BrightnessState.DetectCommand | services/brightness.py:117-119 | a detect is queued with kind detect and bus -1 |
| BrightnessState.ReadCommand | services/brightness.py:232-239 | a read is `get_force` iff forced and `get` otherwise, for the given bus |
| BrightnessState.SetCommand | services/brightness.py:283-289 | a write is queued with kind set for the given bus |
| BrightnessState.Merged | services/brightness.py:105-111 | the merged bus list is strictly sorted and holds exactly the old and found buses |
| BrightnessState.MergedChangesIffNewBus | services/brightness.py:109-112 | the list changes, hence `displays_changed` fires, iff a new bus was found |
| BrightnessState.PrimariesIsFirst | services/brightness.py:130 | over a list without duplicates, the poller's comprehension is the first bus alone |
| BrightnessState.PrimaryOf | services/brightness.py:61-63 | `primary_bus` is defined iff a bus is known, and is the least known bus |
| BrightnessState.BrightnessEntries | services/brightness.py:243-246 | one entry per known bus in order, with its last percentage or -1 |
| BrightnessState.BrightnessJson | services/brightness.py:243-246 | the JSON text is a bracketed list, `[]` when no bus is known |
| BrightnessState.Advance | services/brightness.py:405-425 | dequeue on a free slot: idle when the queue is empty, else only the front command starts, with start time now and one ceiling at now plus its delay |
| BrightnessState.Submit | services/brightness.py:372-403 | behind a running command the new one is enqueued by the drop rules and the runner is undisturbed; on a free slot it starts at once |
| BrightnessState.RetryWithinBudget | services/brightness.py:342-346 | under the write invariant the retry budget is 0..2, so the `> 2` branch is dead |
| BrightnessState.Fetch | services/brightness.py:167-239 | a plain read is skipped while the bus has a write in flight or backs off; otherwise, and always when forced, a read is submitted |
| BrightnessState.FetchAll | services/brightness.py:114-115 | reading each known bus in turn; behind a running command only the queue changes |
| BrightnessState.FetchAllSkips | services/brightness.py:114-115 | when no listed bus is readable (a write in flight or a backoff on each), nothing is submitted |
| BrightnessState.FetchAllQueue | services/brightness.py:114-115 | behind a running command the queue afterwards holds only what was queued before and plain reads of readable listed buses |
| BrightnessState.DetectDone | services/brightness.py:103-115 | no bus found changes nothing; otherwise the known buses are exactly the old and the found ones, sorted, `displays_changed` is emitted iff the list changed, and every known bus is read |
| BrightnessState.Requested | services/brightness.py:296-298 | `set_percent` records the clamped target and a confirmation window of 1200 ms, keeping the write invariant |
| BrightnessState.WriteRange | services/brightness.py:255-256 | the write range is positive and is the given maximum when that is positive |
| BrightnessState.WriteCommand | services/brightness.py:254-289 | the raw value written is clamped to [0, range] |
| BrightnessState.Reopened | services/brightness.py:335 | the kick reopens the confirmation window for the current target |
| BrightnessState.MarkedInflight | services/brightness.py:349-350 | a started write is in flight from now |
| BrightnessState.StartWrite | services/brightness.py:337-352 | once the maximum is known the write of the target's raw value starts on the free slot and is marked in flight |
| BrightnessState.Kick | services/brightness.py:323-352 | `_kick_set_loop` writes only with a free slot, past the backoff, a target pending, no write in flight and a known maximum; otherwise changes nothing or only reopens the window; targets, budgets and backoffs are untouched |
| BrightnessState.SetDone | services/brightness.py:260-281 | after a write the bus is no longer in flight; without a lock marker a pending target gets a 1000 ms window and its retry budget resets |
| BrightnessState.SetDoneTimers | services/brightness.py:277-281 | a read 360 ms later iff no lock marker, and always a final idle kick |
| BrightnessState.Unstick | services/brightness.py:441-455 | a stuck write is cleared, the bus backs off 900-2200 ms, the budget becomes 1 or 2, and a pending target's window ends 1500 ms after the backoff |
| BrightnessState.StuckIn | services/brightness.py:139-143 | the stuck buses are exactly those in flight for more than 2500 ms |
| BrightnessState.SweptInflight | services/brightness.py:145-146 | the in-flight flags of swept buses are cleared, every other flag kept |
| BrightnessState.SweptBackoff | services/brightness.py:147-148 | swept buses back off 1400-3000 ms from now, other backoffs kept |
| BrightnessState.SweptConfirm | services/brightness.py:149-151 | swept buses with a target get a confirmation window, other windows kept |
| BrightnessState.SweptEmpty | services/brightness.py:139-152 | a sweep with nothing stuck changes nothing |
| BrightnessState.SweptClearsOnlyStuck | services/brightness.py:139-152 | the watchdog clears and backs off (1400-3000 ms) every stuck write and leaves every other bus's entries unchanged |
| BrightnessState.SweptOverOk | services/brightness.py:139-152 | the sweep keeps the write invariant |
| BrightnessState.SweptStep | services/brightness.py:139-152 | sweeping one more bus is one watchdog step on the state swept so far, whatever the order |
| BrightnessState.Sweep | services/brightness.py:139-152 | the loop clears exactly as `SweptOver` says and arms a confirming read for each stuck bus and no other |
| BrightnessState.SweepBus | services/brightness.py:140-152 | one turn of the loop extends the sweep by one bus, clearing it and arming its confirming read exactly when it is stuck |
| BrightnessState.ReadDone | services/brightness.py:187-230 | the maximum is cached; a reading unlike the target is suppressed and kicks the write loop; one held by a live window changes nothing else; any other is published |
| BrightnessState.Published | services/brightness.py:198-230 | a published reading is shown, with `external` only when it changes; target and window end; a reading equal to the wanted value clears budget and backoff, otherwise the loop is kicked |
| BrightnessState.ReadingOf | services/brightness.py:174-186 | an output with a lock marker, an unparsable one, or a maximum of 0 gives no reading |
| BrightnessState.ReadCallback | services/brightness.py:173-230 | without a reading nothing changes; otherwise the callback is `ReadDone` |
| BrightnessState.ConfirmingReadSettles | services/brightness.py:187-230 | the confirming read of the written raw value (maximum >= 100) settles the target: shown, target and window gone, budget and backoff 0, no further kick (the same at line 348) |
| BrightnessState.MismatchNotPublished | services/brightness.py:190-196 | a reading that differs from the pending target is never shown |
| BrightnessService.Brightness.constructor | services/brightness.py:65-98 | without `ddcutil` nothing starts; with it a detect is submitted and the 8 s re-detect, optional poll and 500 ms watchdog timers are armed |
| BrightnessService.Brightness.SetClock | services/brightness.py:510-511 | `_now_ms()` is a field set from outside: the handlers read the given time |
| BrightnessService.Brightness.RunCmd | services/brightness.py:372-403 | the slot becomes `Submit` of the old slot |
| BrightnessService.Brightness.ProcessExited | services/brightness.py:429-433 | the exit removes the ceiling, parks the output and arms `_continue` 40 ms later |
| BrightnessService.Brightness.Continue | services/brightness.py:474-480 | the callback of the finished command's kind runs (detect as `DetectDone`, reads as `ReadCallback`, writes as `SetDone` and `SetDoneTimers`) with the command still holding the slot; then the slot is `Advance` of the queue the callback left, idle or running the next command with a fresh start time and ceiling |
| BrightnessService.Brightness.CeilingFires | services/brightness.py:424-464 | an expired ceiling frees the slot and advances the queue; for a write it also unsticks the bus as `Unstick` says and arms the confirming read inside the backoff, and for any other kind the writes and timers are untouched |
| BrightnessService.Brightness.ForceUnstick | services/brightness.py:437-464 | a stuck write is unstuck as `Unstick` says with a confirming read inside the backoff; other kinds change only the slot, which advances |
| BrightnessService.Brightness.ConfirmAfterCeiling | services/brightness.py:466-472 | a forced read, unless a write is in flight on the bus |
| BrightnessService.Brightness.DetectDisplays | services/brightness.py:102-119 | a detect command is submitted |
| BrightnessService.Brightness.OnDetectDone | services/brightness.py:103-115 | the displays, slot and signals become those of `DetectDone`: with buses found the list becomes the sorted union, `displays_changed` fires iff it changed and every known bus is read; with none nothing changes |
| BrightnessService.Brightness.FetchEach | services/brightness.py:114-115 | the loop submits the reads of the buses in turn, as `FetchAll` says |
| BrightnessService.Brightness.PollAll | services/brightness.py:121-133 | nothing while polling is suspended, a target is pending or no bus is known; otherwise only the primary bus is read; the timer is kept |
| BrightnessService.Brightness.RedetectIfEmpty | services/brightness.py:356-362 | a detect is submitted and the timer kept iff no bus is known |
| BrightnessService.Brightness.WatchdogTick | services/brightness.py:137-163 | stuck writes are swept with a confirming read for exactly the stuck buses; a command busy for more than 5 s without a ceiling is forced off |
| BrightnessService.Brightness.FetchOne | services/brightness.py:167-239 | the slot becomes `Fetch` of the old slot |
| BrightnessService.Brightness.OnReadDone | services/brightness.py:173-230 | records, signals and the kick timer change as `ReadCallback` says |
| BrightnessService.Brightness.SetOneRaw | services/brightness.py:254-289 | the clamped write command is submitted |
| BrightnessService.Brightness.OnSetDone | services/brightness.py:260-281 | the write state and timers change as `SetDone` and `SetDoneTimers` say |
| BrightnessService.Brightness.KickSetLoop | services/brightness.py:323-352 | slot and writes change as `Kick` says |
| BrightnessService.Brightness.SetPercent | services/brightness.py:291-317 | an unknown bus changes nothing; otherwise the clamped target is recorded and shown, `external` fires only on a change, then the bus is read or the write loop kicked |
| BrightnessService.Brightness.SetAllPercent | services/brightness.py:319-321 | every listed known bus (all buses for an empty list) targets and shows the clamped value; other buses' targets are untouched |
| BrightnessService.Brightness.PrimaryBus | services/brightness.py:61-63 | the primary bus of the known displays |
| BrightnessService.Brightness.ExternalBrightnessJson | services/brightness.py:243-246 | the JSON list of the known displays |
| BrightnessService.Brightness.ExternalCount | services/brightness.py:248-250 | the number of JSON entries |
| Debounce.DebouncedSetter.constructor | utils/debounce.py:4-12 | no timer, nothing pending, no write made |
| Debounce.DebouncedSetter.Cancel | utils/debounce.py:14-17 | the armed timer, if any, is removed and none remains |
| Debounce.DebouncedSetter.Push | utils/debounce.py:19-23 | the clamped value is pending and exactly one fresh timer is armed |
| Debounce.DebouncedSetter.Fire | utils/debounce.py:30-36 | a pending value is written once and cleared; without one nothing happens; never repeats |
| Debounce.DebouncedSetter.FlushNow | utils/debounce.py:25-28 | the timer is cancelled and the pending value, if any, written at once |
| Debounce.DebouncedSetter.TimerFires | utils/debounce.py:23-36 | the live timer's expiry writes the pending value and leaves no timer |
| Debounce.DebouncedSetter.PushesThenExpiry | utils/debounce.py:19-36 | a burst of pushes followed by the timer writes only the last value, clamped, once |
| Settings.Merge | config/settings_utils.py:25-39 | the keys are those of target and update; target keys absent from the update keep their values; a non-dictionary update value overwrites; a dictionary in the update stays a dictionary |
| Settings.MergeCovers | config/settings_utils.py:25-39 | after the merge every leaf of the update sits at its path |
| Settings.MergeKeepsNestedKeys | config/settings_utils.py:31-34 | dictionaries met on both sides are merged, so the target's nested keys survive |
| Settings.MergeEmpty | config/settings_utils.py:30 | an empty update changes nothing |
| Settings.MergeSelf | config/settings_utils.py:25-39 | merging a dictionary into itself gives it back |
| Settings.MergeIdempotent | config/settings_utils.py:25-39 | applying the same update twice equals applying it once |
| Settings.CoversSelf | config/settings_utils.py:25-39 | every dictionary holds its own leaves at their paths |
| Settings.DeepUpdate | config/settings_utils.py:25-39 | the loop over the update's entries computes `Merge` |
| Settings.FillMissing | config/settings_utils.py:239-241 | every default subkey is present, existing subkeys keep their values |
| Settings.Repaired | config/settings_utils.py:228-241 | a visibility key the defaults hold becomes a dictionary holding every default subkey and keeping the saved subkeys; other keys are untouched |
| Settings.LoadedVisibility | config/settings_utils.py:205-247 | after loading, each visibility key of the defaults is a dictionary with all default subkeys, and the saved leaves elsewhere are in place |
| Settings.BindVars.Load | config/settings_utils.py:205-247 | `bind_vars` becomes the defaults, merged with the saved configuration when there is one, with both visibility keys repaired |
| Settings.BindVars.constructor | config/settings_utils.py:22 | `bind_vars` starts empty |
| Settings.AddMissing | config/settings_utils.py:239-241 | the loop computes `FillMissing` |
| Settings.AnimationType | config/settings_utils.py:255-257 | "slidefadevert" iff the bar position is Left or Right, else "slidefade" |
| LogConfig.Extracted | config/loguru_config.py:39-61 | no tags iff the message does not open with a tag; then the message is kept; otherwise what is left is a proper suffix |
| LogConfig.ExtractedIdempotent | config/loguru_config.py:42-61 | the cleaned message yields no further tags |
| LogConfig.DotPrefixKept | config/loguru_config.py:39 | a `[.X]` prefix is not a tag: the message is kept whole |
| LogConfig.ExtractedOfBracketed | config/loguru_config.py:39-61 | tags written as brackets, whitespace and a message give back exactly those tags and that message |
| LogConfig.ExtractedExample | config/loguru_config.py:53-54 | "[Audio][Microphone] x" gives the tags Audio, Microphone and the message "x" |
| LogConfig.FiltersComplement | config/loguru_config.py:131-135 | every record goes to exactly one of the two sinks |
| LogConfig.NoisyIgnoresCase | config/loguru_config.py:117-129 | the three lower-cased phrases make messages equal up to case noisy alike |
| LogConfig.Split | config/loguru_config.py:84 | `split(".")` is never empty, no part holds a dot, and joining restores the name |
| LogConfig.Capitalize | config/loguru_config.py:86 | first character upper case, the rest lower case |
| LogConfig.Title | config/loguru_config.py:87 | `str.title` keeps the length; the first character is upper-cased, and each later one lower-cased after a cased character and upper-cased otherwise |
| LogConfig.Underscores | config/loguru_config.py:87 | every underscore becomes a space, nothing else changes |
| LogConfig.DisplayGroup | config/loguru_config.py:84-91 | a top-level script with a tag other than "-" is grouped by its tag; otherwise a root in `GROUP_MAP` gets its group, and an unmapped root is capitalised |
| LogConfig.SplitHead | config/loguru_config.py:84 | the first part of `split(".")` ends at the first dot |
| LogConfig.ServiceGroup | config/loguru_config.py:84-86 | a module under `services` is grouped as "Service" |
| LogConfig.MainGroup | config/loguru_config.py:84-91 | the top-level script is grouped as "Main" under the default tag and by its tag otherwise |
| LogConfig.DisplayName | config/loguru_config.py:93-99 | a bound name other than the module's own wins, else the tag when set, else the component |
| LogConfig.Record.MaybeDemote | config/loguru_config.py:137-146 | a noisy INFO record becomes DEBUG and is marked; any other is unchanged |
| LogConfig.Record.ExtractTags | config/loguru_config.py:42-61 | without leading tags nothing changes; otherwise the tag is the tags joined by "/" and the message what is left |
| LogConfig.Record.Patch | config/loguru_config.py:72-102 | a noisy INFO record is first demoted to DEBUG and marked, any other keeps its level and mark; the bound name is kept; the tag defaults to "-" unless hoisted, the message is cleaned, and the display group and name are set |
| LogConfig.Record.constructor | config/loguru_config.py:66-77 | a record holds the given module name, message, level and extras |
| LogConfig.Verdicts | config/loguru_config.py:64-70 | one verdict per sighting; the first is the limiter's verdict on the current state |
| LogConfig.StreamPrintedOnce | config/loguru_config.py:64-109 | a stream of one message with gaps within the window is printed at most at its start |
| LogConfig.RateLimiter.ShouldEmit | config/loguru_config.py:65-70 | emit iff first sighting or more than the window since the last; the last-seen time is always refreshed |
| LogConfig.RateLimiter.constructor | config/loguru_config.py:64 | no message has been seen |
| LogConfig.GlibLevelName | config/loguru_config.py:215-228 | "UNKNOWN" iff GLib is missing |
| LogConfig.GlibLevelCases | config/loguru_config.py:215-228 | the answer is a loguru level; "TRACE" exactly for levels with only bits above the standard ones; "WARNING" without the warning flag only for levels without level bits |
| CivilDate.DaysInMonth | modules/cal.py:273 | 28 to 31 days, February 29 exactly in leap years |
| CivilDate.Weekday | modules/cal.py:37 | `weekday()` lies in 0..6 |
| CivilDate.OrdinalInjective | modules/cal.py:273-274 | distinct valid dates have distinct ordinals |
| CivilDate.AddDays | modules/cal.py:38 | adding days to a valid date gives a valid date `n` ordinals later (the same at line 296) |
| CivilDate.AddDaysInverse | modules/cal.py:352-370 | going back the days just added returns the same date, and forward the days just taken away |
| CivilDate.WeekLater | modules/cal.py:352-370 | the date a week later or a week earlier falls on the same weekday |
| CivilDate.WeekdayShift | modules/cal.py:37-38 | moving `n` days moves the weekday `n` places round the week |
| CivilDate.AddDaysInMonth | modules/cal.py:293-309 | within four weeks, a date stays in its month exactly while the day number fits |
| CivilDate.NextDay | modules/cal.py:296 | the next day is a valid date one ordinal later |
| CivilDate.PrevDay | modules/cal.py:352 | the previous day is a valid date one ordinal earlier |
| CivilDate.YearLength | modules/cal.py:41 | a year has 366 days iff it is a leap year, else 365 |
| CivilDate.Week1MondayGap | modules/cal.py:41 | ISO week 1 of consecutive years starts 52 or 53 weeks apart (the same at line 207) |
| CivilDate.IsoYearWeek | modules/cal.py:41 | the ISO year is within one of the date's year (the same at line 207) |
| CivilDate.IsoWeekRange | modules/cal.py:41 | ISO weeks are numbered 1 to 53 (the same at line 207) |
| Cal.KeyOfIndexInverse | modules/cal.py:238-243 | the key index is invertible on well-formed keys |
| Cal.KeyOfIndex | modules/cal.py:238-243 | every index names a well-formed key |
| Cal.IndexOrder | modules/cal.py:216-243 | on well-formed keys the index orders keys as Python orders the tuples, and is injective |
| Cal.MonthNavigation | modules/cal.py:341-368 | next and previous month undo each other and move the index by exactly one |
| Cal.WeekNavigation | modules/cal.py:352-370 | a week forward then back returns to the same date, keeping the weekday |
| Cal.WeekStart | modules/cal.py:37-38 | the week start is at most six days back and falls on the first weekday (the same at lines 165-166) |
| Cal.WeekStartOf | modules/cal.py:37-38 | the start of the week is a valid date (the same at lines 165-166) |
| Cal.LocaleFirstWeekday | modules/cal.py:94-101 | the derived first weekday is in 0..6 |
| Cal.LocaleExamples | modules/cal.py:94-101 | the glibc `week-1stday` 1997-11-30 with `first_weekday` 2 gives Monday, with 1 gives Sunday |
| Cal.WeekdayOffsetsPermutation | modules/cal.py:338 | the header's weekdays are 0..6 each once, starting at the first weekday |
| Cal.WeekdayOffsets | modules/cal.py:338 | seven weekday offsets, one per column |
| Cal.InitialsAsWritten | modules/cal.py:338 | as written, seven initials in the locale's letters counted from 2025-01-01 |
| Cal.Initials | modules/cal.py:338 | as intended, seven initials in the locale's letters counted from a Monday |
| Cal.InitialsAsWrittenShifted | modules/cal.py:338 | as written, in every locale column i is labelled with the weekday two places after the intended one; a Monday-first header is the letters rotated by two ("WTFSSMT" in the C locale) |
| Cal.InitialsFollowOffsets | modules/cal.py:338 | as intended, in every locale column i names weekday (first_weekday + i) % 7: the letters themselves for Monday first, Sunday's letter first for Sunday ("MTWTFSS", "SMTWTFS" in the C locale) |
| Cal.MonthCellsLength | modules/cal.py:256-257 | `itermonthdays` gives whole weeks, 28 to 42 cells |
| Cal.MonthDayPlace | modules/cal.py:257 | day d of the month sits in the row and column its weekday offset gives |
| Cal.DayColumn | modules/cal.py:257-338 | the weekday of day d is the header's weekday for its column |
| Cal.MonthRowsCells | modules/cal.py:257 | every non-empty cell of the month rows is a day of the month in its weekday's column |
| Cal.PadRows | modules/cal.py:259-260 | the padding loop gives the rows padded with empty weeks to six |
| Cal.Padded | modules/cal.py:259-260 | the rows kept in front, then empty weeks up to six rows |
| Cal.MonthGridLayout | modules/cal.py:254-286 | each grid cell is empty or a day of the month in its own column, highlighted iff it is today |
| Cal.MonthGridHasDay | modules/cal.py:254-286 | every day of the month appears in the grid |
| Cal.MonthGrid | modules/cal.py:254-286 | six rows of seven cells |
| Cal.CreateMonthView | modules/cal.py:254-286 | the loops build the six-by-seven `MonthGrid` |
| Cal.CreateWeekView | modules/cal.py:288-328 | the loop builds the seven cells of `WeekRow` |
| Cal.WeekRow | modules/cal.py:288-328 | seven cells |
| Cal.WeekDimming | modules/cal.py:293-309 | each cell is a day; the day numbers run on from the first day and wrap past the month's end, and exactly the wrapped days are dimmed |
| Cal.HeaderMatchesGrid | modules/cal.py:257-338 | under the intended header, in every locale, each day sits under its own weekday's initial |
| Cal.HeaderAsWrittenMismatch | modules/cal.py:338 | as written, in a Monday-first January 2025, the 1st (a Wednesday) sits under Friday's letter in every locale ("F" in the C locale) |
| Cal.Pruned | modules/cal.py:237-252 | pruning keeps a subset of the keys and always the centre's view |
| Cal.PrunedSize | modules/cal.py:237-252 | with well-formed keys at most seven views survive pruning |
| Cal.NavSteps | modules/cal.py:341-372 | previous and next undo each other and keep the place consistent; in the month view they move the key by one month |
| Cal.MonthSlides | modules/cal.py:216-219 | in the month view "previous" slides right and "next" slides left (the same at lines 341-368) |
| Cal.StackAfterValid | modules/cal.py:196-235 | after `update_calendar` the key's view is shown and the cache keeps at most seven well-formed keys |
| Cal.StackAfterKeeps | modules/cal.py:196-252 | every kept view lies within the threshold of the shown key; cached views within it are kept unchanged; the transition slides left to a later key, right to an earlier one |
| Cal.Calendar.constructor | modules/cal.py:19-86 | the month or week containing today, with weeks from Monday, the locale's weekday letters, one view cached and no transition |
| Cal.Calendar.UpdateHeader | modules/cal.py:182-194 | the header is the shown month and the weekday initials in the locale's letters |
| Cal.Calendar.UpdateCalendar | modules/cal.py:196-235 | the stack becomes `StackAfter` for the shown key and the header is refreshed |
| Cal.Calendar.ShowCurrent | modules/cal.py:201-228 | the view is built only when its key is not cached, and shown |
| Cal.Calendar.PruneCache | modules/cal.py:237-252 | the stack becomes `PruneStack` of the old stack |
| Cal.Calendar.OnPrevClicked | modules/cal.py:341-357 | the shown place steps back (`PrevNav`), the stack becomes `StackAfter` of the new key and its view, and the header shows the new month with the locale's initials |
| Cal.Calendar.OnNextClicked | modules/cal.py:359-375 | the shown place steps forward (`NextNav`), the stack becomes `StackAfter` of the new key and its view, and the header shows the new month with the locale's initials |
| Cal.Calendar.StepPrev | modules/cal.py:342-354 | the new shown date is `PrevNav` of the old one |
| Cal.Calendar.StepNext | modules/cal.py:360-372 | the new shown date is `NextNav` of the old one |
| Cal.Calendar.OnMidnight | modules/cal.py:152-180 | the new day's month or week is shown with a freshly built view: the cache is that of `update_calendar` after the key's old view is dropped, and the header is refreshed; the callback does not repeat |
| Cal.Calendar.CheckDateChange | modules/cal.py:141-150 | an unchanged date changes nothing; a new one moves to its month or week and rebuilds its view, cache and header as `on_midnight` does; the timer is kept |
| Cal.Calendar.UpdateFirstWeekday | modules/cal.py:109-121 | a new first weekday empties the cache and leaves only the current key's rebuilt view, shown, with the transition kept and the header rebuilt; the same one changes nothing |
| Cal.StaleKeys | modules/cal.py:245-249 | the loop collects exactly the keys more than three indices away |
| Forecast.HourName | modules/weather_forecast.py:31 | `f"{hour:02d}:00"` has five characters |
| Forecast.NearestPeriod | modules/weather_forecast.py:33-43 | outside today's evening the period is a regular one starting at most three hours from the hour |
| Forecast.EveningPeriod | modules/weather_forecast.py:30-31 | today after 18:00 the period is the hour's own name, and distinct hours get distinct names |
| Forecast.HourNameInjective | modules/weather_forecast.py:31 | distinct hours have distinct names |
| Forecast.HourNameOrder | modules/weather_forecast.py:112 | zero-padded names order as their hours do |
| Forecast.RegularSorted | modules/weather_forecast.py:318 | the regular periods are in string order |
| Forecast.ComputeTodayPeriods | modules/weather_forecast.py:309-318 | the loop computes `TodayPeriods` |
| Forecast.TodayPeriodsShape | modules/weather_forecast.py:309-318 | before 18:00 the regular periods; after, at most four next hours not past 23:00, none at 23:00; always sorted |
| Forecast.GroupEntries | modules/weather_forecast.py:320-378 | the loop yields `daily_data` exactly as the entries determine it |
| Forecast.ReadEntry | modules/weather_forecast.py:327-362 | one entry is added to the day tables as `AddEntry` says |
| Forecast.GroupedUnique | modules/weather_forecast.py:320-378 | any table that satisfies the grouping description is the one the entries determine |
| Forecast.CountedEntries | modules/weather_forecast.py:327-362 | nothing outside the window counts; today before 18:00 no past period; today after 18:00 exactly the next four hours; later days always |
| Forecast.CountedEvening | modules/weather_forecast.py:327-362 | today after 18:00 an entry counts exactly when its hour lies in the next four hours |
| Forecast.IgnoredEntry | modules/weather_forecast.py:327-362 | an entry that is not counted leaves every bucket unchanged |
| Forecast.EmptyStays | modules/weather_forecast.py:334-346 | a day with no entry in the window collects nothing |
| Forecast.MeanBounds | modules/weather_forecast.py:396-410 | the period's temperature lies between the lowest and the highest reading |
| Forecast.PickMostCommon | modules/weather_forecast.py:399-400 | the code picked occurs at least as often as any other |
| Forecast.DayCellsOf | modules/weather_forecast.py:388-414 | one cell per reported period, with the mean temperature and the emoji of the most common code, or the thermometer without codes |
| Forecast.ReportedIn | modules/weather_forecast.py:390-391 | a reported period is one of those asked for |
| Forecast.ReportedSorted | modules/weather_forecast.py:112 | reporting keeps the periods' order (the same at line 390) |
| Forecast.WindowDaysInWindow | modules/weather_forecast.py:328-329 | only today and the next two days get a table |
| Forecast.BuildDay | modules/weather_forecast.py:383-418 | a day gets a widget iff one of its periods has a temperature; its cells are exactly the reported periods in string order, each with its bucket's truncated mean and most common code's emoji (the thermometer without codes) |
| Forecast.BuildForecast | modules/weather_forecast.py:382-418 | days in ascending order, every day with data present, each with exactly its reported periods and each cell's mean temperature and emoji |
| WeatherUtils.MissingCodeDefaults | utils/weather.py:16-74 | a missing or empty code gets the thermometer and "Unknown conditions" |
| WeatherUtils.CaseInsensitive | utils/weather.py:16-47 | a code and its lower-case form look up alike |
| WeatherUtils.SameCodes | utils/weather.py:17-73 | both tables know the same non-empty codes |
| WeatherUtils.NoDefaultValues | utils/weather.py:17-73 | no known code maps to a default |
| WeatherUtils.KnownIffDescribed | utils/weather.py:15-74 | a code gets its own emoji iff it is known, iff it gets its own description |
| WeatherUtils.ProviderLocation | utils/weather.py:77-91 | no location iff the request failed; a missing or empty city becomes "Unknown Location" |
| WeatherUtils.CoordinatesPrecedence | utils/weather.py:94-120 | parsed environment coordinates win, then the provider, then New York |
| ShellMain.SepFrom | main.py:31 | the first `::` at or after i, or none |
| ShellMain.LastSegmentShape | main.py:31 | `split("::")[-1]` is a suffix without separator, the whole name when it has none |
| ShellMain.LastSegmentSuffix | main.py:31 | `split("::")[-1]` is a suffix of the name |
| ShellMain.LastSegmentNoSep | main.py:31 | `split("::")[-1]` holds no separator |
| ShellMain.SafeNotify | main.py:27-38 | the loop keeps exactly `Kept`; `notify` is called iff something is kept |
| ShellMain.KeptMembers | main.py:27-38 | a segment is forwarded iff it names a property of the object (any when the listing raises) |
| ShellMain.KeptAllOnError | main.py:35-36 | when the listing raises every name is forwarded, stripped, one for one |
| ShellMain.SelectMonitors | main.py:96-118 | every monitor when none is selected; else the matching ones; all when none match |
| ShellMain.MatchingMembers | main.py:107-110 | a monitor matches iff it is listed and its name is selected |
| ShellMain.MatchingOrder | main.py:107-110 | matching keeps the monitors' order |
| ShellMain.SelectionNonEmpty | main.py:96-118 | the selection is empty only when there is no monitor, and holds only listed monitors |
| ShellMain.ActiveBarIds | main.py:126 | one id per bar monitor when defined |
| ShellMain.SingleBarMode | main.py:127 | single-bar mode iff exactly one bar monitor |
| ShellMain.ActiveBarIdsDefined | main.py:126 | the ids are defined iff every bar monitor has an id, and are those ids in order |
| Cavalcade.FullRun | modules/cavalcade.py:117-129 | the leading reads that are full frames, and the first that is not |
| Cavalcade.ReadLatest | modules/cavalcade.py:114-129 | the newest full frame before the loop stops, and failure iff the stopping read raised other than `EAGAIN` |
| Cavalcade.Sample | modules/cavalcade.py:131-135 | one value per bar in [0, 1], positive iff its 16-bit value is |
| Cavalcade.Cava.constructor | modules/cavalcade.py:45-66 | nothing runs, no handle is open, and the FIFO exists |
| Cavalcade.Cava.StartIoReader | modules/cavalcade.py:81-92 | with the FIFO present both ends open fresh and a watch is attached; without it the open raises and nothing changes |
| Cavalcade.Cava.RunProcess | modules/cavalcade.py:68-79 | a successful launch is running; a failed one changes nothing |
| Cavalcade.Cava.Start | modules/cavalcade.py:146-149 | the reader starts and then the process, running iff both succeed |
| Cavalcade.Cava.Restart | modules/cavalcade.py:151-158 | running becomes restarting and kills a live child; the NONE state starts; restarting and closing change nothing |
| Cavalcade.Cava.OnStop | modules/cavalcade.py:140-144 | restarting starts again, with a fresh reader and a live child when the launch succeeds; running becomes NONE; NONE and closing change nothing (no caller in the source: see Findings) |
| Cavalcade.Cava.Close | modules/cavalcade.py:160-201 | closing: watch removed, both descriptors closed, a live child killed and the FIFO removed |
| Cavalcade.Cava.IoCallback | modules/cavalcade.py:94-138 | on hang-up the handles are released, a restart queued and the watch dropped; otherwise the newest full frame is delivered unless a read failed, which drops the watch |
| Cavalcade.Cava.IdleRestart | modules/cavalcade.py:111-158 | a queued restart runs once as `restart` |
| Cavalcade.Cava.HangUpAsWritten | modules/cavalcade.py:94-158 | as written, a hang-up on a running wrapper ends in RESTARTING with no live child and no reader, and `Restart` keeps that state |
| Cavalcade.Cava.HangUpCorrected | modules/cavalcade.py:94-158 | with `_on_stop` run on the child's exit, the same hang-up ends RUNNING with a live child and a fresh reader when the FIFO is there and the launch succeeds |
| Cavalcade.Cava.ProcessExits | modules/cavalcade.py:155 | a live `cava` child may exit on its own, after which `poll()` no longer reports it alive; the invariant holds |
| Cavalcade.SilentRun | modules/cavalcade.py:240-253 | over silent samples the counter grows by one each, and one zero frame is injected iff the run crosses the limit |
| Cavalcade.SoundResets | modules/cavalcade.py:240-253 | a long silence after any sample injects exactly one zero frame |
| Cavalcade.Layout | modules/cavalcade.py:287-298 | bars and area at least one pixel wide; padding times bars at most 100; with room enough all bars fit |
| Cavalcade.Spectrum.constructor | modules/cavalcade.py:213-238 | no sample yet, counters at their start and the sizes all 3 (the attribute dictionary's default) |
| Cavalcade.Spectrum.IsSilence | modules/cavalcade.py:240-243 | the counter resets on sound and grows on silence; silence iff it exceeds 10 |
| Cavalcade.Spectrum.Update | modules/cavalcade.py:245-253 | the sample becomes the latest; exactly when the counter reaches 11 a zero frame replaces it and a redraw is queued |
| Cavalcade.Spectrum.UpdateAll | modules/cavalcade.py:245-253 | over a stream the counter follows `SilenceAfter` and one redraw is queued per injection |
| Cavalcade.Spectrum.OnTick | modules/cavalcade.py:278-285 | a new non-empty sample is adopted and painted, otherwise nothing changes; the callback stays |
| Cavalcade.Spectrum.SizeUpdate | modules/cavalcade.py:287-298 | the sizes become `Layout` of the allocation |
| Common.RoundDiv | services/brightness.py:188 | Python's `round` of an exact quotient: nearest integer, ties to even (the same at line 348) |
| Common.TruncDiv | modules/cavalcade.py:290-297 | Python's `int(n / d)`: truncation toward zero |
| Common.Trunc | modules/weather_forecast.py:368 | Python's `int(x)`: truncation toward zero |
| Common.Clamp | utils/debounce.py:21 | `max(lo, min(hi, x))` lies in [lo, hi] and is x inside it |

## Left out

- Process spawning, `ddcutil` itself, GLib's main loop, timers and threads: commands are
  values, their exit is an event carrying the output, and armed timers are recorded.
- BrightnessService.Brightness.ProcessExited: the completion of a command that arrives
  after the ceiling already forced it off the slot (services/brightness.py:429-433) is
  not modelled. The model discards the output parked when `ForceUnstick` runs.
- Floating-point rounding: `round`, `int()` and the divisions are taken over exact
  rationals or reals, so binary floating-point error at exact ties is not modelled.
- Settings.BindVars.Load: `DEFAULTS.copy()` is shallow, so the source's merge can alter
  the nested default dictionaries. The model works on values and does not capture that
  aliasing. JSON decoding errors and a missing file are the `None` case.
- Forecast.PickMostCommon: `max(set(codes), key=codes.count)` picks a tie according to
  set iteration order. The contract states only that the code picked is a most common one.
- Forecast.BuildForecast: the widgets and the day names of `create_day_forecast` are
  left out. A day is its offset from today.
- Forecast.GroupEntries: entries are given already decoded (day offset, hour, optional
  temperature and symbol codes). ISO time parsing and the HTTP request are left out.
- UI widgets of every module (GTK boxes, labels, CSS classes) are described by the cells
  and headers they show, not built.
- Cavalcade: the colour file, drawing (`redraw`), the death signal and `get_bars` are
  left out. The bar count is a parameter.
- Cavalcade.Layout: `bars` is a `nat` and must be positive. A value of 0 makes the source
  divide by zero. A negative value from the configuration gives the source a negative
  padding; the `nat` type excludes it, so that case is not modelled.
- Cavalcade.Cava.OnStop: nothing in the source calls `_on_stop`, and no child watch is
  attached. After a hang-up restart the wrapper stays RESTARTING with its child killed
  (see Findings). `OnStop` models a method that the source never reaches as written;
  only `Cava.HangUpCorrected` runs it.
- ShellMain.ActiveBarIds: a monitor without an `id` raises `KeyError` in the source. The
  model returns `None` and does not model the crash.
- WeatherUtils.SameCodes: proves that both tables have the same keys. It does not prove
  that there are exactly 24 of them.
- Cal.Calendar.UpdateHeader: the header uses the corrected `Initials` of the Findings row
  for modules/cal.py:332-338, not `get_weekday_initials` as written. As written, a
  Monday-first header in the C locale reads "WTFSSMT" (`Cal.InitialsAsWritten`,
  `Cal.HeaderAsWrittenMismatch`).
- Common.IsSpace, Common.IsDigit, Common.Lower: these cover ASCII only, while Python's
  `\s`, `\d`, `str.strip()` and `str.lower()` are Unicode-aware. For example, `\s*`
  in `_TAGS_RE` consumes a no-break space (U+00A0), `\d+` accepts any Unicode decimal
  digit, and the Kelvin sign (U+212A) lowers to "k". The members built on them follow
  ASCII only: the `ddcutil` parsers and `DdcText.Strip`, `LogConfig.SkipSpace`,
  `LogConfig.IsNoisy`, `LogConfig.Capitalize`, `LogConfig.Title` and
  `WeatherUtils.CodeKey`.
- Cal.MonthSlides: only the month view's slide direction is proved. The week view's
  (ISO keys increasing by one week) is not.
- Cal.Calendar.constructor: a `view_mode` other than "month" or "week" makes
  `update_calendar` return early. It is not modelled: the mode is an enumeration of the
  two. `current_day` is only written, never read, and is dropped.
- Cal.Calendar.OnMidnight: the clock is the `now` parameter. Dates are unbounded, so
  `datetime`'s range 1..9999 is not checked.
- The locale lookups of `_init_locale_settings_thread` (subprocesses) are left out.
  `LocaleFirstWeekday` takes their results as parameters.
- Cal.DayLetters: `strftime("%a")` follows `LC_TIME`, which GTK sets from the
  environment. The model does not look the abbreviations up. The first letters of the
  locale's abbreviations, upper-cased, are a parameter (`Cal.Calendar.letters`):
  "MDMDFSS" in German and "LMMJVSD" in French. `CLetters` is the C locale's
  "MTWTFSS". The header strings quoted in this README are those of the C locale.
- LogConfig: loguru's sinks, `InterceptHandler`, `setup_logging` and `_capture_glib`
  registration are I/O configuration and are left out. The clock of `_should_emit` is a
  parameter.
- WeatherUtils.CoordinatesPrecedence: `float()` parsing and the HTTP session are
  parameters.
- ShellMain.SafeNotify: GObject's property listing is a parameter, with `None` when it
  raises.

## Findings

| source | as written | input that shows it | evidently intended | confidence | as-written member | corrected member |
|---|---|---|---|---|---|---|
| modules/cal.py:332-338 | weekday initials are counted from 2025-01-01, which the comment calls a Monday but is a Wednesday | first weekday 0 (Monday) in the C locale: the header reads "WTFSSMT", and 2025-01-01 sits under "F" | count from a Monday (e.g. 2025-01-06) so column i names weekday (first_weekday + i) % 7: "MTWTFSS" in the C locale | high; not executed | Cal.InitialsAsWritten, Cal.HeaderAsWrittenMismatch | Cal.Initials, Cal.InitialsFollowOffsets |
| modules/cavalcade.py:140-158 | `_on_stop`, the only way out of RESTARTING, is never called, and `restart` does nothing while RESTARTING | a HUP on the FIFO of a running wrapper: the queued `restart` kills `cava` and sets RESTARTING, and the visualiser stays dead for the rest of the session | run `_on_stop` when the child exits (a child watch), so a restarting wrapper starts again | medium; not executed | Cavalcade.Cava.HangUpAsWritten | Cavalcade.Cava.HangUpCorrected |
