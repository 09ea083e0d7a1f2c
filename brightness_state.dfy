/** The state of the brightness service of services/brightness.py, as three records,
    and what each of its callbacks does to them, as pure transitions.

    - `Displays`: the known buses, the last percentage and the cached maximum per bus.
    - `Slot`: the single execution slot of the command queue.
    - `Writes`: the per-bus write controller (target, confirmation window, retry
      budget, backoff, in-flight flag and its start time).

    The class in brightness.dfy holds one record of each kind and replaces them
    through the transitions below. */
module BrightnessState {
  import opened Common
  import opened CommandQueue
  import opened DdcText
  import opened BrightnessMath

  /** `CONFIRM_MS`: how long a freshly requested value is held against stale reads. */
  const ConfirmMs := 1200

  /** The two signals of the service. */
  datatype Signal = External(display: int, value: int) | DisplaysChanged

  /** A GLib timer or idle callback armed by the service: what it will call, and after
      how many milliseconds. */
  datatype Timer =
    | RedetectEvery(ms: int)
    | PollEvery(ms: int)
    | WatchdogEvery(ms: int)
    | KickIdle(bus: int)
    | FetchAfter(ms: int, bus: int)
    | ConfirmAfter(ms: int, bus: int)
    | ContinueAfter(ms: int)

  /** `d.get(k, default)`. */
  function GetOr<K, V>(m: map<K, V>, k: K, default: V): V
  {
    if k in m then m[k] else default
  }

  /** `any(self._inflight_set.values())`. */
  predicate WriteInflight(inflight: map<int, bool>)
  {
    exists b | b in inflight :: inflight[b]
  }

  // ---------- the ddcutil command lines ----------

  const DetectBase := "env LC_ALL=C /usr/bin/ddcutil --noverify --brief detect 2>&1"

  const CallPrefix := "env LC_ALL=C /usr/bin/ddcutil --enable-cross-instance-locks --sleep-multiplier=1.0 "

  /** The shell text of a `ddcutil` call, before any `timeout` prefix. */
  function BaseText(l: ShellLine): string
  {
    match l
    case DetectLine => DetectBase
    case GetvcpLine(bus) => CallPrefix + "getvcp 0x10 --bus " + IntToString(bus) + " --terse --noverify 2>&1"
    case SetvcpLine(raw, bus) =>
      CallPrefix + "setvcp 0x10 " + IntToString(raw) + " --bus " + IntToString(bus) + " --noverify 2>&1"
  }

  /** The ceiling-table kind `_wrap_timeout` is called with: a forced read uses the
      read ceiling. */
  function WrapKind(k: Kind): (r: Kind)
    ensures InCeilTable(r)
  {
    if k == GetForce then Get else k
  }

  /** The text handed to `/bin/sh -lc`. */
  function CommandText(c: Command): string
  {
    WrapTimeout(WrapKind(c.kind), c.wrapped, BaseText(c.line))
  }

  /** With `timeout` present the three calls run under 4.0 s, 2.0 s and 3.2 s limits
      (forced reads too under 2.0 s), each killed 1 s after; without it they run bare. */
  lemma CommandTexts(bus: int, raw: int, haveTimeout: bool)
    ensures var pre := if haveTimeout then "/usr/bin/timeout -k 1s 4.0s " else "";
      CommandText(DetectCommand(haveTimeout)) == pre + DetectBase
    ensures var pre := if haveTimeout then "/usr/bin/timeout -k 1s 2.0s " else "";
      CommandText(ReadCommand(bus, false, haveTimeout)) == pre + BaseText(GetvcpLine(bus)) &&
      CommandText(ReadCommand(bus, true, haveTimeout)) == pre + BaseText(GetvcpLine(bus))
    ensures var pre := if haveTimeout then "/usr/bin/timeout -k 1s 3.2s " else "";
      CommandText(SetCommand(bus, raw, haveTimeout)) == pre + BaseText(SetvcpLine(raw, bus))
  {
    WrapTimeoutTable(DetectBase);
    WrapTimeoutTable(BaseText(GetvcpLine(bus)));
    WrapTimeoutTable(BaseText(SetvcpLine(raw, bus)));
    assert "" + DetectBase == DetectBase;
    assert "" + BaseText(GetvcpLine(bus)) == BaseText(GetvcpLine(bus));
    assert "" + BaseText(SetvcpLine(raw, bus)) == BaseText(SetvcpLine(raw, bus));
  }

  function DetectCommand(haveTimeout: bool): (c: Command)
    ensures c.kind == Detect && c.bus == -1
  {
    Command(Detect, -1, DetectLine, haveTimeout)
  }

  /** A read; forced or not, the same `getvcp` call. */
  function ReadCommand(bus: int, force: bool, haveTimeout: bool): (c: Command)
    ensures c.bus == bus && (c.kind == GetForce <==> force) && (c.kind == Get <==> !force)
  {
    Command(if force then GetForce else Get, bus, GetvcpLine(bus), haveTimeout)
  }

  function SetCommand(bus: int, raw: int, haveTimeout: bool): (c: Command)
    ensures c.kind == Set && c.bus == bus
  {
    Command(Set, bus, SetvcpLine(raw, bus), haveTimeout)
  }

  // ---------- known displays ----------

  /** `_available`, `_current` and `_max_cache`. */
  datatype Displays = Displays(available: seq<int>, current: map<int, int>, maxCache: map<int, int>)

  /** The known buses are sorted and distinct, and a cached maximum is never 0. */
  ghost predicate DisplaysOk(d: Displays)
  {
    StrictlySorted(d.available) && forall b :: b in d.maxCache ==> d.maxCache[b] > 0
  }

  /** The buses a detect output lists, each once, in first-appearance order. */
  function DetectedBuses(text: string): seq<nat>
  {
    Dedup(LineBuses(Lines(StripAnsi(text))))
  }

  /** `sorted(set(self._available) | buses)`, left alone when nothing was found. */
  function Merged(available: seq<int>, found: seq<nat>): (r: seq<int>)
    requires StrictlySorted(available)
    ensures StrictlySorted(r)
    ensures forall b :: b in available ==> b in r
    ensures forall b :: b in r <==> b in available || b in found
  {
    if |found| == 0 then available else SortedUnion(available, found)
  }

  /** The known-bus list changes exactly when the detect found a bus it did not hold. */
  lemma MergedChangesIffNewBus(available: seq<int>, found: seq<nat>)
    requires StrictlySorted(available)
    ensures Merged(available, found) != available <==> exists b :: b in found && b !in available
  {
    if |found| > 0 {
      SortedUnionUnchanged(available, found);
    }
  }

  /** `[b for b in self._available if b == self.primary_bus]`. */
  function Primaries(available: seq<int>): seq<int>
  {
    if |available| == 0 then [] else Filter(available, available[0])
  }

  function Filter(s: seq<int>, x: int): (r: seq<int>)
    ensures forall y :: y in r ==> y == x
    decreases |s|
  {
    if |s| == 0 then []
    else Filter(s[..|s| - 1], x) + (if s[|s| - 1] == x then [x] else [])
  }

  lemma {:induction false} FilterAbsent(s: seq<int>, x: int)
    requires x !in s
    ensures Filter(s, x) == []
    decreases |s|
  {
    if |s| > 0 {
      FilterAbsent(s[..|s| - 1], x);
    }
  }

  lemma {:induction false} FilterPrepend(x: int, s: seq<int>)
    ensures Filter([x] + s, x) == [x] + Filter(s, x)
    decreases |s|
  {
    if |s| > 0 {
      var t := [x] + s;
      assert t[..|t| - 1] == [x] + s[..|s| - 1];
      FilterPrepend(x, s[..|s| - 1]);
    } else {
      assert [x] + s == [x];
    }
  }

  /** Over a list without duplicates the poller's comprehension is the first bus alone:
      only the primary display is polled. */
  lemma PrimariesIsFirst(available: seq<int>)
    requires NoDup(available)
    ensures Primaries(available) == if |available| == 0 then [] else [available[0]]
  {
    if |available| > 0 {
      var x := available[0];
      var rest := available[1..];
      assert available == [x] + rest;
      assert x !in rest by {
        forall j | 0 <= j < |rest| ensures rest[j] != x {
          assert rest[j] == available[j + 1];
        }
      }
      FilterAbsent(rest, x);
      FilterPrepend(x, rest);
    }
  }

  /** `primary_bus`: the first, hence least, known bus. */
  function PrimaryOf(d: Displays): (r: Option<int>)
    requires DisplaysOk(d)
    ensures r.Some? <==> |d.available| > 0
    ensures r.Some? ==> r.value in d.available && forall b :: b in d.available ==> r.value <= b
  {
    if |d.available| > 0 then Some(d.available[0]) else None
  }

  /** The entries of `external_brightness_json`: each known bus in order with its last
      percentage, or -1 when none is known. */
  function BrightnessEntries(d: Displays): (r: seq<(int, int)>)
    ensures |r| == |d.available|
    ensures forall i :: 0 <= i < |r| ==>
      r[i].0 == d.available[i] && r[i].1 == (if d.available[i] in d.current then d.current[d.available[i]] else -1)
  {
    seq(|d.available|, i requires 0 <= i < |d.available| => (d.available[i], GetOr(d.current, d.available[i], -1)))
  }

  /** One entry as `json.dumps` writes it. */
  function JsonEntry(e: (int, int)): string
  {
    "{\"display\": " + IntToString(e.0) + ", \"percent\": " + IntToString(e.1) + "}"
  }

  /** `external_brightness_json`, as `json.dumps` writes the list of entries. */
  function BrightnessJson(d: Displays): (s: string)
    ensures |s| >= 2 && s[0] == '[' && s[|s| - 1] == ']'
    ensures |d.available| == 0 ==> s == "[]"
  {
    var es := BrightnessEntries(d);
    "[" + Join(", ", seq(|es|, i requires 0 <= i < |es| => JsonEntry(es[i]))) + "]"
  }

  // ---------- the execution slot ----------

  /** `_busy`, `_queue`, the running command, the output of its exited process while
      the 40 ms `_continue` is pending, `_current_cmd_started_ms` and the due time of
      `_current_timeout_src`. */
  datatype Slot = Slot(busy: bool, queue: seq<Command>, running: Option<Command>,
                       finished: Option<string>, startedAt: Option<int>, ceiling: Option<int>)

  /** Busy exactly while a command holds the slot, with its start time; a free slot
      has no ceiling armed and nothing waiting; an exited process has no ceiling. */
  predicate SlotOk(s: Slot)
  {
    (s.busy <==> s.running.Some?) &&
    (s.busy ==> s.startedAt.Some?) &&
    (!s.busy ==> s.startedAt.None? && s.ceiling.None? && s.finished.None? && |s.queue| == 0) &&
    (s.finished.Some? ==> s.ceiling.None?)
  }

  const Idle := Slot(false, [], None, None, None, None)

  /** `_dequeue` on a freed slot: an empty queue leaves the slot free with no ceiling;
      otherwise only the front command starts, with one ceiling of its soft limit plus
      800 ms. */
  function Advance(q: seq<Command>, now: int): (s: Slot)
    ensures SlotOk(s)
    ensures s.busy <==> |q| > 0
    ensures |q| == 0 ==> s == Idle
    ensures |q| > 0 ==>
      s.running == Some(q[0]) && s.queue == q[1..] && s.finished.None? &&
      s.startedAt == Some(now) && s.ceiling == Some(now + CeilingDelay(q[0].kind))
  {
    if |q| == 0 then Idle
    else Slot(true, q[1..], Some(q[0]), None, Some(now), Some(now + CeilingDelay(q[0].kind)))
  }

  /** `_run_cmd`: behind a running command `c` is enqueued by the drop rules and the
      running command is undisturbed; on a free slot `c` starts at once. */
  function Submit(s: Slot, c: Command, wi: bool, now: int): (t: Slot)
    requires SlotOk(s)
    ensures SlotOk(t) && t.busy
    ensures s.busy ==> t == s.(queue := Enqueue(s.queue, c, wi))
    ensures !s.busy ==>
      t.running == Some(c) && t.queue == [] && t.finished.None? &&
      t.startedAt == Some(now) && t.ceiling == Some(now + CeilingDelay(c.kind))
  {
    if s.busy then s.(queue := Enqueue(s.queue, c, wi))
    else
      assert Enqueue(s.queue, c, wi) == [c];
      Advance(Enqueue(s.queue, c, wi), now)
  }

  // ---------- the write controller ----------

  /** `_target_pct`, `_pending_confirm`, `_set_retry_budget`, `_set_backoff_until_ms`,
      `_inflight_set`, `_inflight_since_ms` and `_suspend_poll_until_ms`. A target of
      None reads the same as an absent key everywhere and is modelled as one. */
  datatype Writes = Writes(target: map<int, int>, pendingConfirm: map<int, (int, int)>,
                           retry: map<int, int>, backoffUntil: map<int, int>,
                           inflight: map<int, bool>, inflightSince: map<int, int>,
                           suspendPollUntil: int)

  /** Targets and confirmation values are percentages; the retry budget is 0, 1 or
      2; a write start time is recorded exactly for the buses with a write in flight;
      poll suspension is only ever set to 0. */
  ghost predicate WritesOk(w: Writes)
  {
    Percents(w.target) && ConfirmPercents(w.pendingConfirm) && Budgets(w.retry) &&
    SinceMatches(w.inflight, w.inflightSince) && w.suspendPollUntil == 0
  }

  /** No write was ever requested. */
  const NoWrites := Writes(map[], map[], map[], map[], map[], map[], 0)

  ghost predicate Percents(m: map<int, int>)
  {
    forall b :: b in m ==> 0 <= m[b] <= 100
  }

  ghost predicate ConfirmPercents(m: map<int, (int, int)>)
  {
    forall b :: b in m ==> 0 <= m[b].0 <= 100
  }

  ghost predicate Budgets(m: map<int, int>)
  {
    forall b :: b in m ==> 0 <= m[b] <= 2
  }

  ghost predicate SinceMatches(inflight: map<int, bool>, since: map<int, int>)
  {
    forall b :: b in since <==> b in inflight && inflight[b]
  }

  /** Under the invariant the `> 2` retry check of `_kick_set_loop` never holds. */
  lemma RetryWithinBudget(w: Writes, bus: int)
    requires WritesOk(w)
    ensures 0 <= GetOr(w.retry, bus, 0) <= 2
  {
  }

  /** `_fetch_one`: a plain read is skipped while a write is in flight on the bus or
      the bus backs off; otherwise (and always when forced) a read is submitted. */
  function Fetch(s: Slot, w: Writes, bus: int, force: bool, haveTimeout: bool, now: int): (t: Slot)
    requires SlotOk(s)
    ensures SlotOk(t)
    ensures !force && (GetOr(w.inflight, bus, false) || now < GetOr(w.backoffUntil, bus, 0)) ==> t == s
    ensures force || (!GetOr(w.inflight, bus, false) && now >= GetOr(w.backoffUntil, bus, 0)) ==>
      t == Submit(s, ReadCommand(bus, force, haveTimeout), WriteInflight(w.inflight), now)
  {
    if !force && (GetOr(w.inflight, bus, false) || now < GetOr(w.backoffUntil, bus, 0)) then s
    else Submit(s, ReadCommand(bus, force, haveTimeout), WriteInflight(w.inflight), now)
  }

  /** A plain read of `bus` goes ahead: no write is in flight on it and it is past
      its backoff. */
  predicate Readable(w: Writes, bus: int, now: int)
  {
    !GetOr(w.inflight, bus, false) && now >= GetOr(w.backoffUntil, bus, 0)
  }

  /** `for b in self._available: self._fetch_one(b)`: a plain read of each bus in
      turn. Behind a running command only the queue changes. */
  function FetchAll(s: Slot, w: Writes, buses: seq<int>, haveTimeout: bool, now: int): (t: Slot)
    requires SlotOk(s)
    ensures SlotOk(t)
    ensures s.busy ==> t == s.(queue := t.queue)
    decreases |buses|
  {
    if |buses| == 0 then s
    else
      Fetch(FetchAll(s, w, buses[..|buses| - 1], haveTimeout, now), w, buses[|buses| - 1], false, haveTimeout, now)
  }

  /** Nothing is read when no listed bus is readable. */
  lemma {:induction false} FetchAllSkips(s: Slot, w: Writes, buses: seq<int>, haveTimeout: bool, now: int)
    requires SlotOk(s)
    requires forall i :: 0 <= i < |buses| ==> !Readable(w, buses[i], now)
    ensures FetchAll(s, w, buses, haveTimeout, now) == s
    decreases |buses|
  {
    if |buses| > 0 {
      FetchAllSkips(s, w, buses[..|buses| - 1], haveTimeout, now);
    }
  }

  /** Behind a running command the queue afterwards holds nothing but what was
      queued before and plain reads of readable listed buses. */
  lemma {:induction false} FetchAllQueue(s: Slot, w: Writes, buses: seq<int>, haveTimeout: bool, now: int, c: Command)
    requires SlotOk(s) && s.busy
    requires c in FetchAll(s, w, buses, haveTimeout, now).queue
    ensures c in s.queue ||
      exists i :: 0 <= i < |buses| && Readable(w, buses[i], now) && c == ReadCommand(buses[i], false, haveTimeout)
    decreases |buses|
  {
    if |buses| > 0 {
      var n := |buses|;
      var front := buses[..n - 1];
      var t0 := FetchAll(s, w, front, haveTimeout, now);
      var r := ReadCommand(buses[n - 1], false, haveTimeout);
      if Readable(w, buses[n - 1], now) && c != r {
        assert FetchAll(s, w, buses, haveTimeout, now).queue == Kept(t0.queue, r, WriteInflight(w.inflight)) + [r];
        KeptMembers(t0.queue, r, WriteInflight(w.inflight), c);
      }
      if c in t0.queue {
        FetchAllQueue(s, w, front, haveTimeout, now, c);
        if !(c in s.queue) {
          var i :| 0 <= i < n - 1 && Readable(w, front[i], now) && c == ReadCommand(front[i], false, haveTimeout);
          assert front[i] == buses[i];
        }
      }
    }
  }

  /** What the detect callback leaves behind. */
  datatype DetectEffect = DetectEffect(displays: Displays, slot: Slot, emitted: seq<Signal>)

  /** The detect callback on the output `text`: when no bus is found nothing
      changes; otherwise the known list becomes the sorted union with the found
      buses, `displays_changed` is emitted exactly when it changed, and every known
      bus is read as `FetchAll` says. */
  function DetectDone(d: Displays, s: Slot, w: Writes, text: string, haveTimeout: bool, now: int): (e: DetectEffect)
    requires DisplaysOk(d) && SlotOk(s)
    ensures DisplaysOk(e.displays) && SlotOk(e.slot)
    ensures e.displays.current == d.current && e.displays.maxCache == d.maxCache
    ensures forall b :: b in e.displays.available <==> b in d.available || b in DetectedBuses(text)
    ensures e.emitted == if e.displays.available == d.available then [] else [DisplaysChanged]
    ensures |DetectedBuses(text)| == 0 ==> e == DetectEffect(d, s, [])
    ensures |DetectedBuses(text)| > 0 ==>
      e.displays.available == Merged(d.available, DetectedBuses(text)) &&
      e.slot == FetchAll(s, w, e.displays.available, haveTimeout, now)
  {
    var found := DetectedBuses(text);
    if |found| == 0 then DetectEffect(d, s, [])
    else
      var merged := Merged(d.available, found);
      DetectEffect(d.(available := merged), FetchAll(s, w, merged, haveTimeout, now),
                   if merged != d.available then [DisplaysChanged] else [])
  }

  /** `set_percent` on a known bus records the clamped target and opens a
      confirmation window for it. */
  function Requested(w: Writes, bus: int, percent: int, now: int): (v: Writes)
    requires WritesOk(w)
    ensures WritesOk(v)
    ensures var p := Clamp(percent, 0, 100);
      v == w.(target := w.target[bus := p], pendingConfirm := w.pendingConfirm[bus := (p, now + ConfirmMs)])
  {
    var p := Max(0, Min(100, percent));
    w.(target := w.target[bus := p], pendingConfirm := w.pendingConfirm[bus := (p, now + ConfirmMs)])
  }

  /** May `_kick_set_loop` go past its early returns? */
  predicate MayKick(s: Slot, w: Writes, bus: int, now: int)
  {
    !s.busy && now >= GetOr(w.backoffUntil, bus, 0) && bus in w.target && !GetOr(w.inflight, bus, false)
  }

  /** The raw value `_set_one_raw` writes: clamped to [0, m], where m is the given
      maximum when positive, else the cached one, else 100. */
  function WriteRange(d: Displays, bus: int, mx: Option<int>): (m: int)
    requires DisplaysOk(d)
    ensures m > 0
    ensures mx.Some? && mx.value > 0 ==> m == mx.value
  {
    if mx.Some? && mx.value > 0 then mx.value else GetOr(d.maxCache, bus, 100)
  }

  /** The write command `_set_one_raw` submits for `raw`, kept within the display's
      range. */
  function WriteCommand(d: Displays, bus: int, raw: int, mx: Option<int>, haveTimeout: bool): (c: Command)
    requires DisplaysOk(d)
    ensures var m := WriteRange(d, bus, mx);
      c == SetCommand(bus, Clamp(raw, 0, m), haveTimeout)
  {
    var m := WriteRange(d, bus, mx);
    SetCommand(bus, Max(0, Min(raw, m)), haveTimeout)
  }

  /** The confirmation window `_kick_set_loop` reopens for the target of `bus`. */
  function Reopened(w: Writes, bus: int, now: int): (v: Writes)
    requires WritesOk(w) && bus in w.target
    ensures WritesOk(v)
    ensures v == w.(pendingConfirm := w.pendingConfirm[bus := (w.target[bus], now + ConfirmMs)])
  {
    w.(pendingConfirm := w.pendingConfirm[bus := (w.target[bus], now + ConfirmMs)])
  }

  /** A write on `bus` marked in flight since `now`. */
  function MarkedInflight(w: Writes, bus: int, now: int): (v: Writes)
    requires WritesOk(w)
    ensures WritesOk(v)
    ensures v == w.(inflight := w.inflight[bus := true], inflightSince := w.inflightSince[bus := now])
  {
    w.(inflight := w.inflight[bus := true], inflightSince := w.inflightSince[bus := now])
  }

  /** The write started by `_kick_set_loop` once the target and the maximum are known:
      the write is marked in flight from now and its command submitted. */
  function StartWrite(s: Slot, d: Displays, w: Writes, bus: int, now: int, haveTimeout: bool): (r: (Slot, Writes))
    requires SlotOk(s) && !s.busy && DisplaysOk(d) && WritesOk(w)
    requires bus in w.target && bus in d.maxCache
    ensures SlotOk(r.0) && WritesOk(r.1)
    ensures r.1 == w.(inflight := w.inflight[bus := true], inflightSince := w.inflightSince[bus := now])
    ensures r.0.busy && r.0.queue == [] && r.0.startedAt == Some(now) &&
      r.0.running == Some(SetCommand(bus, RawFor(w.target[bus], d.maxCache[bus]), haveTimeout))
  {
    var mx := d.maxCache[bus];
    var raw := RawFor(w.target[bus], mx);
    var w1 := MarkedInflight(w, bus, now);
    (Submit(s, WriteCommand(d, bus, raw, Some(mx), haveTimeout), WriteInflight(w1.inflight), now), w1)
  }

  /** `_kick_set_loop`. It writes only when the slot is free, the bus is past its
      backoff, a target is pending, no write is in flight and the maximum is known;
      it then reopens the confirmation window, marks the write in flight and starts
      the write of the target's raw value. Without a known maximum it only reopens
      the window. */
  function Kick(s: Slot, d: Displays, w: Writes, bus: int, now: int, haveTimeout: bool): (r: (Slot, Writes))
    requires SlotOk(s) && DisplaysOk(d) && WritesOk(w)
    ensures SlotOk(r.0) && WritesOk(r.1)
    ensures r.1.target == w.target && r.1.retry == w.retry && r.1.backoffUntil == w.backoffUntil
    ensures !MayKick(s, w, bus, now) ==> r == (s, w)
    ensures MayKick(s, w, bus, now) ==>
      r.1.pendingConfirm == w.pendingConfirm[bus := (w.target[bus], now + ConfirmMs)]
    ensures MayKick(s, w, bus, now) && bus !in d.maxCache ==>
      r.0 == s && r.1.inflight == w.inflight && r.1.inflightSince == w.inflightSince
    ensures MayKick(s, w, bus, now) && bus in d.maxCache ==>
      r.1.inflight == w.inflight[bus := true] && r.1.inflightSince == w.inflightSince[bus := now] &&
      r.0.busy && r.0.queue == [] &&
      r.0.running == Some(SetCommand(bus, RawFor(w.target[bus], d.maxCache[bus]), haveTimeout))
  {
    if !MayKick(s, w, bus, now) then (s, w)
    else
      var w1 := Reopened(w, bus, now);
      if bus !in d.maxCache || d.maxCache[bus] == 0 then (s, w1)
      else StartWrite(s, d, w1, bus, now, haveTimeout)
  }

  /** Does the output of a `ddcutil` call report a lock conflict? */
  predicate Locked(text: string)
  {
    HasLockMarker(StripAnsi(text))
  }

  /** The write callback of `_set_one_raw`. Whatever the output, the write is no
      longer in flight. Without a lock marker the confirmation window of a pending
      target restarts for 1000 ms and its retry budget resets. */
  function SetDone(w: Writes, bus: int, locked: bool, now: int): (v: Writes)
    requires WritesOk(w)
    ensures WritesOk(v)
    ensures !GetOr(v.inflight, bus, false) && bus !in v.inflightSince
    ensures v.inflight == w.inflight[bus := false] && v.inflightSince == w.inflightSince - {bus}
    ensures v.target == w.target && v.backoffUntil == w.backoffUntil
    ensures locked || bus !in w.target ==> v.pendingConfirm == w.pendingConfirm && v.retry == w.retry
    ensures !locked && bus in w.target ==>
      v.pendingConfirm == w.pendingConfirm[bus := (w.target[bus], now + 1000)] &&
      v.retry == w.retry[bus := 0]
  {
    var w1 :=
      if !locked && bus in w.target then
        w.(pendingConfirm := w.pendingConfirm[bus := (w.target[bus], now + 1000)], retry := w.retry[bus := 0])
      else w;
    w1.(inflight := w1.inflight[bus := false], inflightSince := w1.inflightSince - {bus})
  }

  /** The timers armed by the write callback: a read 360 ms later unless the output
      has a lock marker, then always an idle kick. */
  function SetDoneTimers(bus: int, locked: bool): (ts: seq<Timer>)
    ensures |ts| > 0 && ts[|ts| - 1] == KickIdle(bus)
    ensures FetchAfter(360, bus) in ts <==> !locked
  {
    (if locked then [] else [FetchAfter(360, bus)]) + [KickIdle(bus)]
  }

  /** The write part of `_force_unstick` for a stuck write: the in-flight flag is
      cleared, the bus backs off for [900, 2200] ms, the retry budget becomes 1 or
      2, and a pending target's confirmation window is stretched 1500 ms past the
      backoff. */
  function Unstick(w: Writes, bus: int, waited: int, now: int): (v: Writes)
    requires WritesOk(w)
    ensures WritesOk(v)
    ensures v.inflight == w.inflight[bus := false] && v.inflightSince == w.inflightSince - {bus}
    ensures bus in v.backoffUntil && now + 900 <= v.backoffUntil[bus] <= now + 2200
    ensures v.backoffUntil == w.backoffUntil[bus := v.backoffUntil[bus]]
    ensures bus in v.retry && 1 <= v.retry[bus] <= 2
    ensures v.retry == w.retry[bus := v.retry[bus]]
    ensures v.target == w.target
    ensures bus in w.target ==>
      v.pendingConfirm == w.pendingConfirm[bus := (w.target[bus], v.backoffUntil[bus] + 1500)]
    ensures bus !in w.target ==> v.pendingConfirm == w.pendingConfirm
  {
    var backoff := CeilingBackoff(waited);
    w.(inflight := w.inflight[bus := false],
       inflightSince := w.inflightSince - {bus},
       backoffUntil := w.backoffUntil[bus := now + backoff],
       retry := w.retry[bus := RetryBump(GetOr(w.retry, bus, 0))],
       pendingConfirm :=
         if bus in w.target then w.pendingConfirm[bus := (w.target[bus], now + backoff + 1500)]
         else w.pendingConfirm)
  }

  // ---------- the watchdog ----------

  /** How long the write on `b` has been in flight. */
  function Age(w: Writes, b: int, now: int): int
  {
    now - GetOr(w.inflightSince, b, now)
  }

  /** A write in flight for more than 2500 ms. */
  predicate Stuck(w: Writes, b: int, now: int)
  {
    GetOr(w.inflight, b, false) && Age(w, b, now) > 2500
  }

  /** One watchdog step on a stuck bus: the flag clears, the bus backs off for its
      age plus 400 ms within [1400, 3000], and a pending target's confirmation
      window is stretched 1500 ms past the backoff. */
  function ClearStuck(w: Writes, b: int, now: int): Writes
  {
    var backoff := WatchdogBackoff(Age(w, b, now));
    w.(inflight := w.inflight[b := false],
       inflightSince := w.inflightSince - {b},
       backoffUntil := w.backoffUntil[b := now + backoff],
       pendingConfirm :=
         if b in w.target then w.pendingConfirm[b := (w.target[b], now + backoff + 1500)]
         else w.pendingConfirm)
  }

  /** The buses of `done` whose write is stuck. */
  function StuckIn(w: Writes, done: set<int>, now: int): (s: set<int>)
    ensures forall b :: b in s <==> b in done && Stuck(w, b, now)
  {
    set b | b in done && Stuck(w, b, now)
  }

  function SweptInflight(w: Writes, s: set<int>): (m: map<int, bool>)
    ensures m.Keys == w.inflight.Keys
    ensures forall b :: b in m ==> m[b] == (w.inflight[b] && b !in s)
  {
    map b | b in w.inflight :: w.inflight[b] && b !in s
  }

  function SweptBackoff(w: Writes, s: set<int>, now: int): (m: map<int, int>)
    ensures m.Keys == w.backoffUntil.Keys + s
    ensures forall b :: b in m ==>
      m[b] == if b in s then now + WatchdogBackoff(Age(w, b, now)) else w.backoffUntil[b]
  {
    map b | b in w.backoffUntil.Keys + s ::
      if b in s then now + WatchdogBackoff(Age(w, b, now)) else w.backoffUntil[b]
  }

  function SweptConfirm(w: Writes, s: set<int>, now: int): (m: map<int, (int, int)>)
    ensures m.Keys == w.pendingConfirm.Keys + (s * w.target.Keys)
    ensures forall b :: b in m ==>
      m[b] == if b in s && b in w.target then (w.target[b], now + WatchdogBackoff(Age(w, b, now)) + 1500)
              else w.pendingConfirm[b]
  {
    map b | b in w.pendingConfirm.Keys + (s * w.target.Keys) ::
      if b in s && b in w.target then (w.target[b], now + WatchdogBackoff(Age(w, b, now)) + 1500)
      else w.pendingConfirm[b]
  }

  /** The watchdog's treatment of the buses of `done`: every stuck one takes a
      `ClearStuck` step, measured on the state before the sweep. */
  function SweptOver(w: Writes, done: set<int>, now: int): Writes
  {
    var s := StuckIn(w, done, now);
    w.(inflight := SweptInflight(w, s),
       inflightSince := w.inflightSince - s,
       backoffUntil := SweptBackoff(w, s, now),
       pendingConfirm := SweptConfirm(w, s, now))
  }

  /** After a sweep over all in-flight buses, every stuck write is cleared and backed
      off for [1400, 3000] ms, with a pending target confirmed 1500 ms after the
      backoff; every other bus keeps its entries. */
  lemma SweptClearsOnlyStuck(w: Writes, b: int, now: int)
    ensures var v := SweptOver(w, w.inflight.Keys, now);
      if Stuck(w, b, now) then
        !GetOr(v.inflight, b, false) && b !in v.inflightSince && b in v.backoffUntil &&
        now + 1400 <= v.backoffUntil[b] <= now + 3000 &&
        (b in w.target ==> b in v.pendingConfirm && v.pendingConfirm[b] == (w.target[b], v.backoffUntil[b] + 1500))
      else
        GetOr(v.inflight, b, false) == GetOr(w.inflight, b, false) &&
        GetOr(v.inflightSince, b, -1) == GetOr(w.inflightSince, b, -1) &&
        GetOr(v.backoffUntil, b, -1) == GetOr(w.backoffUntil, b, -1) &&
        (b in v.pendingConfirm <==> b in w.pendingConfirm) &&
        (b in v.pendingConfirm ==> v.pendingConfirm[b] == w.pendingConfirm[b])
  {
  }

  /** The watchdog's sweep keeps the write invariant. */
  lemma SweptOverOk(w: Writes, done: set<int>, now: int)
    requires WritesOk(w)
    ensures WritesOk(SweptOver(w, done, now))
  {
    var v := SweptOver(w, done, now);
    assert SinceMatches(v.inflight, v.inflightSince) by {
      forall b ensures b in v.inflightSince <==> b in v.inflight && v.inflight[b] {
        assert b in w.inflightSince <==> b in w.inflight && w.inflight[b];
      }
    }
    assert ConfirmPercents(v.pendingConfirm) by {
      forall b | b in v.pendingConfirm ensures 0 <= v.pendingConfirm[b].0 <= 100 {
        if !(b in StuckIn(w, done, now) && b in w.target) {
          assert b in w.pendingConfirm;
        }
      }
    }
  }

  lemma SweptEmpty(w: Writes, now: int)
    ensures SweptOver(w, {}, now) == w
  {
    var v := SweptOver(w, {}, now);
    assert StuckIn(w, {}, now) == {};
    assert v.inflight == w.inflight;
    assert v.backoffUntil == w.backoffUntil;
    assert v.pendingConfirm == w.pendingConfirm;
    assert v.inflightSince == w.inflightSince;
  }

  lemma SweptInflightStep(w: Writes, s: set<int>, b: int)
    requires b in w.inflight
    ensures SweptInflight(w, s + {b}) == SweptInflight(w, s)[b := false]
  {
    var m1, m0 := SweptInflight(w, s + {b}), SweptInflight(w, s);
    assert m1.Keys == m0[b := false].Keys;
    forall k | k in m1 ensures m1[k] == m0[b := false][k] {
    }
  }

  lemma SweptBackoffStep(w: Writes, s: set<int>, b: int, now: int)
    requires b !in s
    ensures SweptBackoff(w, s + {b}, now) == SweptBackoff(w, s, now)[b := now + WatchdogBackoff(Age(w, b, now))]
  {
    var m1, m0 := SweptBackoff(w, s + {b}, now), SweptBackoff(w, s, now);
    var m2 := m0[b := now + WatchdogBackoff(Age(w, b, now))];
    assert m1.Keys == m2.Keys;
    forall k | k in m1 ensures m1[k] == m2[k] {
    }
  }

  lemma SweptConfirmStep(w: Writes, s: set<int>, b: int, now: int)
    requires b !in s
    ensures SweptConfirm(w, s + {b}, now) ==
      if b in w.target then SweptConfirm(w, s, now)[b := (w.target[b], now + WatchdogBackoff(Age(w, b, now)) + 1500)]
      else SweptConfirm(w, s, now)
  {
    var m1, m0 := SweptConfirm(w, s + {b}, now), SweptConfirm(w, s, now);
    var m2 := if b in w.target then m0[b := (w.target[b], now + WatchdogBackoff(Age(w, b, now)) + 1500)] else m0;
    assert m1.Keys == m2.Keys;
    forall k | k in m1 ensures m1[k] == m2[k] {
    }
  }

  /** Sweeping one more bus `b` is one watchdog step on the state swept so far. */
  lemma SweptStep(w: Writes, done: set<int>, b: int, now: int)
    requires b !in done
    ensures var u := SweptOver(w, done, now);
      Stuck(u, b, now) == Stuck(w, b, now) && Age(u, b, now) == Age(w, b, now) &&
      SweptOver(w, done + {b}, now) == if Stuck(w, b, now) then ClearStuck(u, b, now) else u
  {
    var s := StuckIn(w, done, now);
    var u := SweptOver(w, done, now);
    assert b !in s;
    assert GetOr(u.inflightSince, b, now) == GetOr(w.inflightSince, b, now);
    assert Age(u, b, now) == Age(w, b, now);
    assert GetOr(u.inflight, b, false) == GetOr(w.inflight, b, false);
    if Stuck(w, b, now) {
      assert StuckIn(w, done + {b}, now) == s + {b};
      SweptInflightStep(w, s, b);
      SweptBackoffStep(w, s, b, now);
      SweptConfirmStep(w, s, b, now);
      assert w.inflightSince - (s + {b}) == (w.inflightSince - s) - {b};
      SweptFields(w, done + {b}, now, ClearStuck(u, b, now));
    } else {
      assert StuckIn(w, done + {b}, now) == s;
    }
  }

  /** A state is the sweep's when its four touched fields are, and the rest are
      those of the state before. */
  lemma SweptFields(w: Writes, done: set<int>, now: int, v: Writes)
    requires var s := StuckIn(w, done, now);
      v.inflight == SweptInflight(w, s) && v.inflightSince == w.inflightSince - s &&
      v.backoffUntil == SweptBackoff(w, s, now) && v.pendingConfirm == SweptConfirm(w, s, now) &&
      v.target == w.target && v.retry == w.retry && v.suspendPollUntil == w.suspendPollUntil
    ensures SweptOver(w, done, now) == v
  {
  }

  /** One turn of the sweep's loop, seen from the state swept so far: the bus is
      still flagged, the loop's test is `Stuck` on the state before the sweep, and
      the step it takes is the one `SweptOver` takes for that bus. */
  lemma SweepBody(w0: Writes, done: set<int>, b: int, now: int, w: Writes)
    requires b !in done && b in w0.inflight && w == SweptOver(w0, done, now)
    ensures b in w.inflight && Age(w, b, now) == Age(w0, b, now)
    ensures (w.inflight[b] && Age(w, b, now) > 2500) == Stuck(w0, b, now)
    ensures SweptOver(w0, done + {b}, now) == if Stuck(w0, b, now) then ClearStuck(w, b, now) else w
  {
    SweptStep(w0, done, b, now);
  }

  /** The confirming reads armed for the buses of `done`: each is for a stuck bus,
      at the end of its backoff, and every stuck bus of `done` has one. */
  predicate ArmedFor(w0: Writes, now: int, done: set<int>, armed: seq<Timer>)
  {
    (forall t :: t in armed ==>
       t.ConfirmAfter? && Stuck(w0, t.bus, now) && t.ms == WatchdogBackoff(Age(w0, t.bus, now))) &&
    (forall b :: b in done && Stuck(w0, b, now) ==> ConfirmAfter(WatchdogBackoff(Age(w0, b, now)), b) in armed)
  }

  /** Sweeping one more bus arms its confirming read exactly when it is stuck. */
  lemma ArmedStep(w0: Writes, now: int, done: set<int>, armed: seq<Timer>, b: int)
    requires ArmedFor(w0, now, done, armed)
    ensures Stuck(w0, b, now) ==>
      ArmedFor(w0, now, done + {b}, armed + [ConfirmAfter(WatchdogBackoff(Age(w0, b, now)), b)])
    ensures !Stuck(w0, b, now) ==> ArmedFor(w0, now, done + {b}, armed)
  {
  }

  /** One turn of the loop of `_watchdog_tick`, on bus `b`: a write in flight for
      more than 2500 ms is cleared and its confirming read armed. Seen from the state
      swept so far, it extends the sweep by `b`. */
  method SweepBus(w0: Writes, now: int, ghost done: set<int>, w: Writes, armed: seq<Timer>, b: int)
    returns (w': Writes, armed': seq<Timer>)
    requires b !in done && b in w0.inflight && w == SweptOver(w0, done, now)
    requires ArmedFor(w0, now, done, armed)
    ensures w' == SweptOver(w0, done + {b}, now)
    ensures ArmedFor(w0, now, done + {b}, armed')
  {
    SweepBody(w0, done, b, now, w);
    ArmedStep(w0, now, done, armed, b);
    w', armed' := w, armed;
    if w.inflight[b] && Age(w, b, now) > 2500 {
      armed' := armed + [ConfirmAfter(WatchdogBackoff(Age(w, b, now)), b)];
      w' := ClearStuck(w, b, now);
    }
  }

  /** The loop of `_watchdog_tick` over a snapshot of the in-flight flags, in any
      order: every stuck write is cleared as `SweptOver` says, and a confirming read
      is armed at the end of its backoff, for stuck buses only. */
  method Sweep(w0: Writes, now: int) returns (w: Writes, armed: seq<Timer>)
    ensures w == SweptOver(w0, w0.inflight.Keys, now)
    ensures forall t :: t in armed ==>
      t.ConfirmAfter? && Stuck(w0, t.bus, now) && t.ms == WatchdogBackoff(Age(w0, t.bus, now))
    ensures forall b :: Stuck(w0, b, now) ==> ConfirmAfter(WatchdogBackoff(Age(w0, b, now)), b) in armed
  {
    w := w0;
    armed := [];
    var todo := w0.inflight.Keys;
    ghost var done: set<int> := {};
    SweptEmpty(w0, now);
    while exists x :: x in todo
      invariant todo + done == w0.inflight.Keys && todo * done == {}
      invariant w == SweptOver(w0, done, now)
      invariant ArmedFor(w0, now, done, armed)
      decreases todo
    {
      var b :| b in todo;
      todo := todo - {b};
      w, armed := SweepBus(w0, now, done, w, armed, b);
      done := done + {b};
    }
    assert done == w0.inflight.Keys;
  }

  // ---------- the read callback ----------

  /** What the read callback does: the new records, the signals it emits and whether
      it arms an idle kick of the write loop. */
  datatype ReadEffect = ReadEffect(displays: Displays, writes: Writes, emitted: seq<Signal>, kick: bool)

  /** The reading differs from the requested target. */
  predicate Suppressed(w: Writes, bus: int, pct: int)
  {
    bus in w.target && w.target[bus] != pct
  }

  /** The reading is not suppressed, but a live confirmation window expects another
      value. */
  predicate Held(w: Writes, bus: int, pct: int, now: int)
  {
    !Suppressed(w, bus, pct) && bus in w.pendingConfirm &&
    now < w.pendingConfirm[bus].1 && pct != w.pendingConfirm[bus].0
  }

  /** The value a published reading is compared with: the confirmation window's
      value when there is one, else the target. */
  function Wanted(w: Writes, bus: int): Option<int>
  {
    if bus in w.pendingConfirm then Some(w.pendingConfirm[bus].0)
    else if bus in w.target then Some(w.target[bus])
    else None
  }

  /** The read callback of `_fetch_one` once a reading `cur` of `mx` (not 0) was
      parsed. The maximum is always cached. A reading that differs from the target is
      not published, changes nothing else and kicks the write loop; one held back by a
      live confirmation window changes nothing else; any other is published. */
  function ReadDone(d: Displays, w: Writes, bus: int, cur: nat, mx: nat, now: int): (e: ReadEffect)
    requires mx > 0 && DisplaysOk(d) && WritesOk(w)
    ensures DisplaysOk(e.displays) && WritesOk(e.writes)
    ensures e.displays.available == d.available && e.displays.maxCache == d.maxCache[bus := mx]
    ensures var pct := Percent(cur, mx);
      Suppressed(w, bus, pct) || Held(w, bus, pct, now) ==>
        e.displays.current == d.current && e.writes == w && e.emitted == [] &&
        e.kick == Suppressed(w, bus, pct)
    ensures var pct := Percent(cur, mx);
      !Suppressed(w, bus, pct) && !Held(w, bus, pct, now) ==>
        e == Published(d.(maxCache := d.maxCache[bus := mx]), w, bus, pct, now)
  {
    var d1 := d.(maxCache := d.maxCache[bus := mx]);
    var pct := Percent(cur, mx);
    if Suppressed(w, bus, pct) then ReadEffect(d1, w, [], true)
    else if Held(w, bus, pct, now) then ReadEffect(d1, w, [], false)
    else Published(d1, w, bus, pct, now)
  }

  /** The rest of the read callback, once the reading `pct` is neither suppressed
      nor held. It is shown (with an `external` signal only when the shown value
      changes); the target and the confirmation window of the bus end; when the
      reading equals the wanted value the retry budget, the backoff and the poll
      suspension clear, otherwise the write loop is kicked. */
  function Published(d: Displays, w: Writes, bus: int, pct: int, now: int): (e: ReadEffect)
    requires DisplaysOk(d) && WritesOk(w)
    requires !Suppressed(w, bus, pct) && !Held(w, bus, pct, now)
    ensures DisplaysOk(e.displays) && WritesOk(e.writes)
    ensures e.displays == d.(current := d.current[bus := pct])
    ensures e.emitted == if bus in d.current && d.current[bus] == pct then [] else [External(bus, pct)]
    ensures e.writes.target == w.target - {bus} && e.writes.pendingConfirm == w.pendingConfirm - {bus}
    ensures e.writes.inflight == w.inflight && e.writes.inflightSince == w.inflightSince
    ensures Wanted(w, bus) == Some(pct) ==>
      e.writes.retry == w.retry[bus := 0] && e.writes.backoffUntil == w.backoffUntil[bus := 0] && !e.kick
    ensures Wanted(w, bus) != Some(pct) ==>
      e.writes.retry == w.retry && e.writes.backoffUntil == w.backoffUntil && e.kick == Wanted(w, bus).Some?
  {
    var tgt0: Option<int> := if bus in w.target then Some(w.target[bus]) else None;
    var hold: Option<(int, int)> := if bus in w.pendingConfirm then Some(w.pendingConfirm[bus]) else None;
    // from here on the value compared with is the window's, when there is one
    var tgt := if hold.Some? then Some(hold.value.0) else tgt0;
    var pc1 :=
      if hold.Some? && (now >= hold.value.1 || pct == hold.value.0) then w.pendingConfirm - {bus}
      else w.pendingConfirm;
    var settle := tgt.Some? && pct == tgt.value;
    var w1 :=
      if settle then
        w.(pendingConfirm := pc1, target := w.target - {bus}, retry := w.retry[bus := 0],
           backoffUntil := w.backoffUntil[bus := 0], suspendPollUntil := 0)
      else w.(pendingConfirm := pc1);
    var emitted := if bus in d.current && d.current[bus] == pct then [] else [External(bus, pct)];
    var w2 :=
      if bus in w1.target && w1.target[bus] == pct then
        w1.(target := w1.target - {bus}, pendingConfirm := w1.pendingConfirm - {bus})
      else w1;
    ReadEffect(d.(current := d.current[bus := pct]), w2, emitted, tgt.Some? && tgt.value != pct)
  }

  /** The reading a read callback acts on: none when the output has a lock marker,
      does not parse, or reports a maximum of 0. */
  function ReadingOf(text: string): (r: Option<Reading>)
    ensures Locked(text) ==> r.None?
    ensures r.Some? ==> r.value.max > 0 && r == ParseGetvcp(StripAnsi(text))
    ensures !Locked(text) && ParseGetvcp(StripAnsi(text)).Some? && ParseGetvcp(StripAnsi(text)).value.max > 0 ==> r.Some?
  {
    var out := StripAnsi(text);
    if HasLockMarker(out) then None
    else
      var r := ParseGetvcp(out);
      if r.None? || r.value.max == 0 then None else r
  }

  /** The whole read callback: an output with a lock marker, one that does not parse
      or one reporting a maximum of 0 changes nothing; any other is handled as
      `ReadDone` says. */
  function ReadCallback(d: Displays, w: Writes, bus: int, text: string, now: int): (e: ReadEffect)
    requires DisplaysOk(d) && WritesOk(w)
    ensures DisplaysOk(e.displays) && WritesOk(e.writes)
    ensures ReadingOf(text).None? ==> e == ReadEffect(d, w, [], false)
    ensures Locked(text) ==> e == ReadEffect(d, w, [], false)
    ensures ReadingOf(text).Some? ==>
      e == ReadDone(d, w, bus, ReadingOf(text).value.cur, ReadingOf(text).value.max, now)
  {
    var r := ReadingOf(text);
    if r.None? then ReadEffect(d, w, [], false)
    else ReadDone(d, w, bus, r.value.cur, r.value.max, now)
  }

  /** The write-and-confirm loop closes: when the confirming read of a display whose
      maximum is at least 100 returns the raw value written for the target, the
      reading is published as the target, the target and its window end, the retry
      budget and the backoff clear, and no further write is kicked. */
  lemma ConfirmingReadSettles(d: Displays, w: Writes, bus: int, mx: nat, now: int)
    requires DisplaysOk(d) && WritesOk(w) && mx >= 100
    requires bus in w.target
    requires bus in w.pendingConfirm ==> w.pendingConfirm[bus].0 == w.target[bus]
    ensures 0 <= w.target[bus] <= 100
    ensures var e := ReadDone(d, w, bus, RawFor(w.target[bus], mx), mx, now);
      bus in e.displays.current && e.displays.current[bus] == w.target[bus] &&
      bus !in e.writes.target && bus !in e.writes.pendingConfirm &&
      GetOr(e.writes.retry, bus, -1) == 0 && GetOr(e.writes.backoffUntil, bus, -1) == 0 && !e.kick
  {
    var t := w.target[bus];
    ReadBackOfWrite(t, mx);
    var raw := RawFor(t, mx);
    assert Percent(raw, mx) == t;
    assert Wanted(w, bus) == Some(t);
  }

  /** A reading that differs from the pending target is never shown. */
  lemma MismatchNotPublished(d: Displays, w: Writes, bus: int, cur: nat, mx: nat, now: int)
    requires DisplaysOk(d) && WritesOk(w) && mx > 0
    requires bus in w.target && Percent(cur, mx) != w.target[bus]
    ensures var e := ReadDone(d, w, bus, cur, mx, now);
      e.displays.current == d.current && e.emitted == [] && e.writes == w && e.kick
  {
  }
}
