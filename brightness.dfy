/** The `Brightness` service of services/brightness.py: external monitors driven
    through `ddcutil`, one shell command at a time.

    The clock (`_now_ms`), the shell and GLib's main loop are outside the model. The
    clock is the field `now`, set by `SetClock`. A submitted command waits in the slot
    until the environment reports its exit with `ProcessExited`; the 40 ms later
    `_continue` is `Continue`; an expired ceiling is `CeilingFires`. Emitted signals
    are appended to `events`, armed GLib timers and idle callbacks to `scheduled`. */
module BrightnessService {
  import opened Common
  import opened CommandQueue
  import opened DdcText
  import opened BrightnessMath
  import opened BrightnessState

  class Brightness {
    var displays: Displays
    var slot: Slot
    var writes: Writes
    var haveTimeout: bool
    var now: int
    var events: seq<Signal>
    var scheduled: seq<Timer>

    ghost predicate Valid()
      reads this
    {
      DisplaysOk(displays) && SlotOk(slot) && WritesOk(writes)
    }

    /** `__init__`: without `ddcutil` nothing starts; otherwise a detect is submitted
        and the re-detect (8 s), poll (when `pollSeconds` > 0) and watchdog (500 ms)
        timers are armed. */
    constructor (pollSeconds: int, ddcutilPresent: bool, timeoutPresent: bool, clock: int)
      ensures Valid()
      ensures displays == Displays([], map[], map[]) && writes == NoWrites && events == []
      ensures haveTimeout == timeoutPresent && now == clock
      ensures !ddcutilPresent ==> slot == Idle && scheduled == []
      ensures ddcutilPresent ==>
        slot == Submit(Idle, DetectCommand(timeoutPresent), false, clock) &&
        scheduled == [RedetectEvery(8000)] + (if pollSeconds > 0 then [PollEvery(pollSeconds * 1000)] else []) +
          [WatchdogEvery(500)]
    {
      displays := Displays([], map[], map[]);
      slot := Idle;
      writes := NoWrites;
      haveTimeout := timeoutPresent;
      now := clock;
      events := [];
      scheduled := [];
      new;
      if ddcutilPresent {
        DetectDisplays();
        scheduled := scheduled + [RedetectEvery(8000)];
        if pollSeconds > 0 {
          scheduled := scheduled + [PollEvery(pollSeconds * 1000)];
        }
        scheduled := scheduled + [WatchdogEvery(500)];
      }
    }

    /** The wall clock moves to `t`. */
    method SetClock(t: int)
      modifies this`now
      ensures now == t
    {
      now := t;
    }

    // ---------- queue plumbing ----------

    /** `_run_cmd`: the queue is filtered by the drop rules, `c` is appended, and the
        front command starts when the slot is free. */
    method RunCmd(c: Command)
      requires Valid()
      modifies this`slot
      ensures Valid()
      ensures slot == Submit(old(slot), c, WriteInflight(writes.inflight), now)
    {
      var kept := DropStale(slot.queue, c, WriteInflight(writes.inflight));
      slot := slot.(queue := kept + [c]);
      if !slot.busy {
        slot := Advance(slot.queue, now);
      }
    }

    /** The exit of the running command's process: its ceiling is removed and its
        output waits for the `_continue` armed 40 ms later. */
    method ProcessExited(output: string)
      requires Valid() && slot.busy && slot.finished.None?
      modifies this`slot, this`scheduled
      ensures Valid()
      ensures slot == old(slot).(ceiling := None, finished := Some(output))
      ensures scheduled == old(scheduled) + [ContinueAfter(40)]
    {
      slot := slot.(ceiling := None, finished := Some(output));
      scheduled := scheduled + [ContinueAfter(40)];
    }

    /** `_continue`: the callback of the finished command runs on its output while the
        command still holds the slot (so reads it starts are queued), then the slot is
        freed and the front of the queue the callback left, if any, starts. */
    method Continue()
      requires Valid() && slot.finished.Some?
      modifies this`displays, this`slot, this`writes, this`events, this`scheduled
      ensures Valid()
      ensures slot.finished.None?
      ensures slot.busy ==> slot.startedAt == Some(now) && slot.ceiling.Some?
      ensures var c := old(slot).running.value;
        var e := DetectDone(old(displays), old(slot).(finished := None), old(writes), old(slot).finished.value, haveTimeout, now);
        c.kind == Detect ==>
          displays == e.displays && writes == old(writes) && events == old(events) + e.emitted &&
          scheduled == old(scheduled) && slot == Advance(e.slot.queue, now)
      ensures var c := old(slot).running.value;
        var e := ReadCallback(old(displays), old(writes), c.bus, old(slot).finished.value, now);
        c.kind == Get || c.kind == GetForce ==>
          displays == e.displays && writes == e.writes && events == old(events) + e.emitted &&
          scheduled == old(scheduled) + (if e.kick then [KickIdle(c.bus)] else []) &&
          slot == Advance(old(slot).queue, now)
      ensures var c := old(slot).running.value;
        var locked := Locked(old(slot).finished.value);
        c.kind == Set ==>
          displays == old(displays) && events == old(events) &&
          writes == SetDone(old(writes), c.bus, locked, now) &&
          scheduled == old(scheduled) + SetDoneTimers(c.bus, locked) &&
          slot == Advance(old(slot).queue, now)
    {
      var output := slot.finished.value;
      var c := slot.running.value;
      slot := slot.(finished := None);
      match c.kind {
        case Detect => OnDetectDone(output);
        case Get => OnReadDone(c.bus, output);
        case GetForce => OnReadDone(c.bus, output);
        case Set => OnSetDone(c.bus, output);
      }
      slot := Advance(slot.queue, now);
    }

    /** The internal ceiling of the running command expires: `_force_unstick` of the
        running command's kind and bus. */
    method CeilingFires()
      requires Valid() && slot.busy && slot.ceiling.Some?
      modifies this`slot, this`writes, this`scheduled
      ensures Valid()
      ensures slot == Advance(old(slot).queue, now)
      ensures var c := old(slot).running.value;
        c.kind != Set ==> writes == old(writes) && scheduled == old(scheduled)
      ensures var c := old(slot).running.value;
        var waited := Waited(now, old(slot).startedAt);
        c.kind == Set ==>
          writes == Unstick(old(writes), c.bus, waited, now) &&
          scheduled == old(scheduled) + [ConfirmAfter(ConfirmDelay(CeilingBackoff(waited)), c.bus)]
    {
      var c := slot.running.value;
      ForceUnstick(c.kind, c.bus);
    }

    /** `_force_unstick`: for a write, the write is cleared, backed off and its
        retry budget bumped as `Unstick` says, and a confirming read is armed inside
        the backoff; in every case the slot is freed and the queue advances. */
    method ForceUnstick(k: Kind, bus: int)
      requires Valid()
      modifies this`slot, this`writes, this`scheduled
      ensures Valid()
      ensures slot == Advance(old(slot).queue, now)
      ensures k != Set ==> writes == old(writes) && scheduled == old(scheduled)
      ensures k == Set ==>
        var waited := Waited(now, old(slot).startedAt);
        writes == Unstick(old(writes), bus, waited, now) &&
        scheduled == old(scheduled) + [ConfirmAfter(ConfirmDelay(CeilingBackoff(waited)), bus)]
    {
      if k == Set {
        var waited := Waited(now, slot.startedAt);
        var backoff := CeilingBackoff(waited);
        writes := Unstick(writes, bus, waited, now);
        scheduled := scheduled + [ConfirmAfter(ConfirmDelay(backoff), bus)];
      }
      slot := Advance(slot.queue, now);
    }

    /** `_confirm_after_ceiling`: a forced read, unless a new write is in flight. */
    method ConfirmAfterCeiling(bus: int)
      requires Valid()
      modifies this`slot
      ensures Valid()
      ensures GetOr(writes.inflight, bus, false) ==> slot == old(slot)
      ensures !GetOr(writes.inflight, bus, false) ==> slot == Fetch(old(slot), writes, bus, true, haveTimeout, now)
    {
      if GetOr(writes.inflight, bus, false) {
        return;
      }
      FetchOne(bus, true);
    }

    // ---------- detect and poll ----------

    method DetectDisplays()
      requires Valid()
      modifies this`slot
      ensures Valid()
      ensures slot == Submit(old(slot), DetectCommand(haveTimeout), WriteInflight(writes.inflight), now)
    {
      RunCmd(DetectCommand(haveTimeout));
    }

    /** The detect callback, as `DetectDone` says: when buses were found the known
        list becomes the sorted union, `displays_changed` is emitted exactly when it
        changed, and every known bus is read in turn. */
    method OnDetectDone(output: string)
      requires Valid()
      modifies this`displays, this`slot, this`events
      ensures Valid()
      ensures var e := DetectDone(old(displays), old(slot), writes, output, haveTimeout, now);
        displays == e.displays && slot == e.slot && events == old(events) + e.emitted
    {
      var found := DetectedBuses(output);
      if |found| == 0 {
        return;
      }
      var merged := Merged(displays.available, found);
      if merged != displays.available {
        displays := displays.(available := merged);
        events := events + [DisplaysChanged];
      }
      FetchEach(displays.available);
    }

    /** `for b in self._available: self._fetch_one(b)`. */
    method FetchEach(buses: seq<int>)
      requires Valid()
      modifies this`slot
      ensures Valid()
      ensures slot == FetchAll(old(slot), writes, buses, haveTimeout, now)
    {
      for i := 0 to |buses|
        invariant Valid()
        invariant slot == FetchAll(old(slot), writes, buses[..i], haveTimeout, now)
      {
        assert buses[..i + 1][..i] == buses[..i];
        FetchOne(buses[i], false);
      }
      assert buses[..|buses|] == buses;
    }

    /** `_poll_all`: nothing while a target is pending; otherwise only the primary bus
        is read. The timer is always kept. */
    method PollAll() returns (keep: bool)
      requires Valid()
      modifies this`slot
      ensures Valid() && keep
      ensures now < writes.suspendPollUntil || |writes.target| > 0 || |displays.available| == 0 ==> slot == old(slot)
      ensures now >= writes.suspendPollUntil && |writes.target| == 0 && |displays.available| > 0 ==>
        slot == Fetch(old(slot), writes, displays.available[0], false, haveTimeout, now)
    {
      keep := true;
      if now < writes.suspendPollUntil {
        return;
      }
      if |writes.target| > 0 {
        return;
      }
      var primaries := Primaries(displays.available);
      SortedNoDup(displays.available);
      PrimariesIsFirst(displays.available);
      for i := 0 to |primaries|
        invariant Valid()
        invariant i == 0 ==> slot == old(slot)
        invariant i == 1 ==> slot == Fetch(old(slot), writes, displays.available[0], false, haveTimeout, now)
      {
        FetchOne(primaries[i], false);
      }
    }

    /** `_redetect_if_empty`: a detect while no bus is known; the timer stays armed
        exactly until one is. */
    method RedetectIfEmpty() returns (keep: bool)
      requires Valid()
      modifies this`slot
      ensures Valid()
      ensures keep <==> |displays.available| == 0
      ensures keep ==> slot == Submit(old(slot), DetectCommand(haveTimeout), WriteInflight(writes.inflight), now)
      ensures !keep ==> slot == old(slot)
    {
      if |displays.available| == 0 {
        DetectDisplays();
        return true;
      }
      return false;
    }

    /** `_watchdog_tick`: every write stuck for more than 2500 ms is cleared as
        `SweptOver` says, with a confirming read armed at the end of its backoff; and a
        command busy for more than 5 s with no ceiling left is forced off the slot. */
    method WatchdogTick() returns (keep: bool)
      requires Valid()
      modifies this`slot, this`writes, this`scheduled
      ensures Valid() && keep
      ensures |old(scheduled)| <= |scheduled|
      ensures writes == SweptOver(old(writes), old(writes).inflight.Keys, now)
      ensures forall t :: t in scheduled[|old(scheduled)|..] ==> t.ConfirmAfter? && Stuck(old(writes), t.bus, now)
      ensures forall b :: Stuck(old(writes), b, now) ==>
        ConfirmAfter(WatchdogBackoff(Age(old(writes), b, now)), b) in scheduled[|old(scheduled)|..]
      ensures var s := old(slot);
        if s.busy && Waited(now, s.startedAt) > 5000 && s.ceiling.None? then slot == Advance(s.queue, now)
        else slot == s
    {
      keep := true;
      var w, armed := Sweep(writes, now);
      SweptOverOk(writes, writes.inflight.Keys, now);
      writes := w;
      scheduled := scheduled + armed;
      assert scheduled[|old(scheduled)|..] == armed;
      if slot.busy && slot.startedAt.Some? && slot.startedAt.value != 0 {
        var cage := now - slot.startedAt.value;
        if cage > 5000 && slot.ceiling.None? {
          ForceUnstick(Get, -1);
        }
      }
    }

    // ---------- reads ----------

    /** `_fetch_one`. */
    method FetchOne(bus: int, force: bool)
      requires Valid()
      modifies this`slot
      ensures Valid()
      ensures slot == Fetch(old(slot), writes, bus, force, haveTimeout, now)
    {
      if !force {
        if GetOr(writes.inflight, bus, false) || now < GetOr(writes.backoffUntil, bus, 0) {
          return;
        }
      }
      RunCmd(ReadCommand(bus, force, haveTimeout));
    }

    /** The read callback, as `ReadCallback` says. */
    method OnReadDone(bus: int, output: string)
      requires Valid()
      modifies this`displays, this`writes, this`events, this`scheduled
      ensures Valid()
      ensures var e := ReadCallback(old(displays), old(writes), bus, output, now);
        displays == e.displays && writes == e.writes && events == old(events) + e.emitted &&
        scheduled == old(scheduled) + (if e.kick then [KickIdle(bus)] else [])
    {
      var e := ReadCallback(displays, writes, bus, output, now);
      displays, writes, events := e.displays, e.writes, events + e.emitted;
      if e.kick {
        scheduled := scheduled + [KickIdle(bus)];
      }
    }

    // ---------- writes ----------

    /** `_set_one_raw`: the write of `raw`, clamped to the display's range. */
    method SetOneRaw(bus: int, raw: int, mx: Option<int>)
      requires Valid()
      modifies this`slot
      ensures Valid()
      ensures slot == Submit(old(slot), WriteCommand(displays, bus, raw, mx, haveTimeout), WriteInflight(writes.inflight), now)
    {
      RunCmd(WriteCommand(displays, bus, raw, mx, haveTimeout));
    }

    /** The write callback, as `SetDone` and `SetDoneTimers` say. */
    method OnSetDone(bus: int, output: string)
      requires Valid()
      modifies this`writes, this`scheduled
      ensures Valid()
      ensures writes == SetDone(old(writes), bus, Locked(output), now)
      ensures scheduled == old(scheduled) + SetDoneTimers(bus, Locked(output))
    {
      var locked := Locked(output);
      writes := SetDone(writes, bus, locked, now);
      scheduled := scheduled + SetDoneTimers(bus, locked);
    }

    /** `_kick_set_loop`, as `Kick` says. The retry-budget branch of the source is
        dead: the budget never exceeds 2. */
    method KickSetLoop(bus: int)
      requires Valid()
      modifies this`slot, this`writes
      ensures Valid()
      ensures (slot, writes) == Kick(old(slot), displays, old(writes), bus, now, haveTimeout)
    {
      if slot.busy {
        return;
      }
      if now < GetOr(writes.backoffUntil, bus, 0) {
        return;
      }
      if bus !in writes.target || GetOr(writes.inflight, bus, false) {
        return;
      }
      var tgt := writes.target[bus];
      var w := Reopened(writes, bus, now);
      if bus !in displays.maxCache || displays.maxCache[bus] == 0 {
        writes := w;
        return;
      }
      var mx := displays.maxCache[bus];
      RetryWithinBudget(w, bus);
      if GetOr(w.retry, bus, 0) > 2 {
        assert false;
      }
      var raw := RawFor(tgt, mx);
      writes := MarkedInflight(w, bus, now);
      SetOneRaw(bus, raw, Some(mx));
    }

    /** `set_percent`: an unknown bus changes nothing. Otherwise the clamped value
        becomes the target, opens a confirmation window and is shown at once (with an
        `external` signal only when it changes); then the bus is read when its maximum
        is unknown, and the write loop kicked when it is known. */
    method SetPercent(bus: int, percent: int)
      requires Valid()
      modifies this`displays, this`writes, this`events, this`slot
      ensures Valid()
      ensures bus !in old(displays.available) ==>
        displays == old(displays) && writes == old(writes) && events == old(events) && slot == old(slot)
      ensures bus in old(displays.available) ==>
        var p := Clamp(percent, 0, 100);
        var w := Requested(old(writes), bus, percent, now);
        displays == old(displays).(current := old(displays.current)[bus := p]) &&
        events == old(events) + (if bus in old(displays.current) && old(displays.current)[bus] == p then [] else [External(bus, p)]) &&
        (bus !in displays.maxCache ==> writes == w && slot == Fetch(old(slot), w, bus, false, haveTimeout, now)) &&
        (bus in displays.maxCache ==> (slot, writes) == Kick(old(slot), displays, w, bus, now, haveTimeout))
    {
      if bus !in displays.available {
        return;
      }
      var p := Clamp(percent, 0, 100);
      writes := Requested(writes, bus, percent, now);
      var prev := displays.current;
      displays := displays.(current := displays.current[bus := p]);
      if !(bus in prev && prev[bus] == p) {
        events := events + [External(bus, p)];
      }
      if bus !in displays.maxCache {
        FetchOne(bus, false);
      } else {
        KickSetLoop(bus);
      }
    }

    /** `set_all_percent`: `set_percent` on each listed bus, or on every known bus when
        the list is empty. Afterwards every known bus of the list targets and shows the
        clamped value, and the targets of the other buses are untouched. */
    method SetAllPercent(percent: int, buses: seq<int>)
      requires Valid()
      modifies this`displays, this`writes, this`events, this`slot
      ensures Valid()
      ensures displays.available == old(displays.available)
      ensures var list := if |buses| == 0 then old(displays.available) else buses;
        forall b :: b in list && b in displays.available ==>
          b in writes.target && writes.target[b] == Clamp(percent, 0, 100) &&
          b in displays.current && displays.current[b] == Clamp(percent, 0, 100)
      ensures var list := if |buses| == 0 then old(displays.available) else buses;
        forall b :: b !in list ==> GetOr(writes.target, b, -1) == GetOr(old(writes.target), b, -1)
    {
      var list := if |buses| == 0 then displays.available else buses;
      var p := Clamp(percent, 0, 100);
      for i := 0 to |list|
        invariant Valid()
        invariant displays.available == old(displays.available)
        invariant forall b :: b in list[..i] && b in displays.available ==>
          b in writes.target && writes.target[b] == p && b in displays.current && displays.current[b] == p
        invariant forall b :: b !in list[..i] ==> GetOr(writes.target, b, -1) == GetOr(old(writes.target), b, -1)
      {
        SetPercent(list[i], percent);
        assert list[..i + 1] == list[..i] + [list[i]];
      }
      assert list[..|list|] == list;
    }

    // ---------- properties ----------

    function PrimaryBus(): (r: Option<int>)
      reads this
      requires Valid()
      ensures r == PrimaryOf(displays)
    {
      PrimaryOf(displays)
    }

    function ExternalBrightnessJson(): (s: string)
      reads this
      ensures s == BrightnessJson(displays)
    {
      BrightnessJson(displays)
    }

    /** `external_count`: one per entry of the JSON list. */
    function ExternalCount(): (n: nat)
      reads this
      ensures n == |BrightnessEntries(displays)|
    {
      |displays.available|
    }
  }
}
