/** `DebouncedSetter` of utils/debounce.py: a slider's values are coalesced, and only
    the latest one is written once the slider has been idle for `delayMs`
    (240 ms for the brightness slider of modules/controls.py).

    GLib's timer sources are modelled by the ids handed out (`nextId`) and the set
    of timers still armed (`live`); the environment fires an armed timer with
    `TimerFires`. The write action `do_set` is recorded in `calls`. */
module Debounce {
  import opened Common

  class DebouncedSetter {
    const delayMs: int
    /** `_src`: the id of the armed timer. */
    var src: Option<nat>
    /** `_pending`: the latest value not yet written. */
    var pending: Option<int>
    var nextId: nat
    var live: set<nat>
    /** The values passed to `do_set`, in order. */
    var calls: seq<int>

    /** At most one timer is armed, it is the one `src` names, and it is armed only
        while a value is pending; every value pending or written is a percentage. */
    ghost predicate Valid()
      reads this
    {
      (src.Some? ==> pending.Some? && src.value < nextId) &&
      live == (if src.Some? then {src.value} else {}) &&
      (pending.Some? ==> 0 <= pending.value <= 100) &&
      (forall i :: 0 <= i < |calls| ==> 0 <= calls[i] <= 100)
    }

    constructor (delay: int)
      ensures Valid()
      ensures delayMs == delay && src.None? && pending.None? && live == {} && calls == []
    {
      delayMs := delay;
      src := None;
      pending := None;
      nextId := 0;
      live := {};
      calls := [];
    }

    /** `_cancel`: the armed timer, if any, is removed. */
    method Cancel()
      requires Valid()
      modifies this`src, this`live
      ensures Valid()
      ensures src.None? && live == {}
    {
      if src.Some? {
        live := live - {src.value};
        src := None;
      }
    }

    /** `push`: the clamped value becomes pending, and the timer restarts: the old one
        is removed and exactly one new one is armed. */
    method Push(value: int)
      requires Valid()
      modifies this`src, this`live, this`pending, this`nextId
      ensures Valid()
      ensures pending == Some(Clamp(value, 0, 100))
      ensures src == Some(old(nextId)) && live == {old(nextId)}
    {
      pending := Some(Max(0, Min(100, value)));
      Cancel();
      src := Some(nextId);
      live := live + {nextId};
      nextId := nextId + 1;
    }

    /** `_fire`: the pending value, if any, is written once and cleared. Always
        answers false, so GLib drops the timer that called it. */
    method Fire() returns (again: bool)
      requires Valid() || (live == {} && (src.Some? ==> pending.Some?) &&
        (pending.Some? ==> 0 <= pending.value <= 100) && (forall i :: 0 <= i < |calls| ==> 0 <= calls[i] <= 100))
      modifies this`src, this`pending, this`calls
      ensures !again
      ensures old(pending).None? ==> pending.None? && src == old(src) && calls == old(calls)
      ensures old(pending).Some? ==> pending.None? && src.None? && calls == old(calls) + [old(pending).value]
      ensures old(live) == {} ==> Valid()
    {
      if pending.Some? {
        var v := pending.value;
        pending := None;
        src := None;
        calls := calls + [v];
      }
      again := false;
    }

    /** `flush_now`: no timer remains armed, and the pending value, if any, is
        written at once; a second flush writes nothing. */
    method FlushNow() returns (again: bool)
      requires Valid()
      modifies this`src, this`live, this`pending, this`calls
      ensures Valid() && !again
      ensures src.None? && live == {} && pending.None?
      ensures calls == old(calls) + (if old(pending).Some? then [old(pending).value] else [])
    {
      Cancel();
      again := Fire();
    }

    /** The armed timer expires: GLib calls `_fire`. */
    method TimerFires(id: nat)
      requires Valid() && id in live
      modifies this`src, this`live, this`pending, this`calls
      ensures Valid()
      ensures src.None? && live == {} && pending.None?
      ensures calls == old(calls) + [old(pending).value]
    {
      live := live - {id};
      var _ := Fire();
    }

    /** Coalescing: any number of pushes followed by the expiry of the armed timer
        make exactly one write, of the last value pushed, clamped. */
    method PushesThenExpiry(values: seq<int>)
      requires Valid() && |values| > 0
      modifies this`src, this`live, this`pending, this`calls, this`nextId
      ensures Valid()
      ensures calls == old(calls) + [Clamp(values[|values| - 1], 0, 100)]
      ensures src.None? && live == {} && pending.None?
    {
      for i := 0 to |values|
        invariant Valid() && calls == old(calls)
        invariant i > 0 ==> pending == Some(Clamp(values[i - 1], 0, 100)) && src.Some?
      {
        Push(values[i]);
      }
      TimerFires(src.value);
    }
  }
}
