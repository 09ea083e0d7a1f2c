/** The audio visualiser of modules/cavalcade.py: `Cava` runs the `cava` process,
    reads its frames from a FIFO and hands the newest one to `Spectrum`, which
    tracks silence, picks the sample to paint on each frame tick and lays out the
    bars.

    The process, the FIFO and GLib are modelled by their handles: file descriptors
    and watch ids handed out by counters, the descriptors still open (`openFds`),
    the watches still attached (`sources`), and the restarts queued with
    `idle_add` (`pendingRestarts`). Whether a launch succeeds, and what each read
    of the FIFO returns, are parameters. Drawing, the colour file and the
    `prctl` death signal are left out. */
module Cavalcade {
  import opened Common

  // ---------------------------------------------------------------------------
  // Frames

  /** A byte read from the FIFO. */
  type Byte = x: int | 0 <= x < 256

  /** What one `os.read(fd, frame_size)` gives: some bytes, `EAGAIN` (nothing to
      read now) or another `OSError`. */
  datatype ReadResult = Chunk(data: seq<Byte>) | WouldBlock | ReadError

  /** A read that the loop accepts: exactly one full, non-empty frame. */
  predicate Full(r: ReadResult, frameSize: nat)
  {
    r.Chunk? && |r.data| > 0 && |r.data| == frameSize
  }

  /** The number of full frames read before the first read that stops the loop. */
  function FullRun(results: seq<ReadResult>, frameSize: nat): (k: nat)
    ensures k <= |results|
    ensures forall j :: 0 <= j < k ==> Full(results[j], frameSize)
    ensures k < |results| ==> !Full(results[k], frameSize)
  {
    if |results| == 0 || !Full(results[0], frameSize) then 0
    else 1 + FullRun(results[1..], frameSize)
  }

  /** The read loop of `_io_callback` (lines 114-129). Reads past the end of
      `results` give `EAGAIN`. It keeps the last full frame read before the first
      read that is not one, and reports whether that read failed with an error
      other than `EAGAIN`, in which case the callback returns at once. */
  method ReadLatest(results: seq<ReadResult>, frameSize: nat) returns (latest: Option<seq<Byte>>, failed: bool)
    ensures var k := FullRun(results, frameSize);
      latest == (if k == 0 then None else Some(results[k - 1].data))
    ensures failed <==> FullRun(results, frameSize) < |results| && results[FullRun(results, frameSize)].ReadError?
    ensures latest.Some? ==> |latest.value| == frameSize > 0
  {
    latest := None;
    failed := false;
    var i := 0;
    while i < |results|
      invariant 0 <= i <= |results|
      invariant forall j :: 0 <= j < i ==> Full(results[j], frameSize)
      invariant latest == (if i == 0 then None else Some(results[i - 1].data))
      invariant !failed
    {
      match results[i]
      case WouldBlock =>
        break;
      case ReadError =>
        failed := true;
        break;
      case Chunk(data) =>
        if |data| == 0 || |data| != frameSize {
          break;
        }
        latest := Some(data);
        i := i + 1;
    }
    assert i == FullRun(results, frameSize);
  }

  /** `struct.unpack("H" * bars, frame)` on a little-endian host, each value divided
      by 65535. */
  function Sample(frame: seq<Byte>, bars: nat): (r: seq<real>)
    requires |frame| == 2 * bars
    ensures |r| == bars
    ensures forall i :: 0 <= i < bars ==> 0.0 <= r[i] <= 1.0
    ensures forall i :: 0 <= i < bars ==> (r[i] > 0.0 <==> frame[2 * i] > 0 || frame[2 * i + 1] > 0)
  {
    seq(bars, i requires 0 <= i < bars => (frame[2 * i] as int + 256 * (frame[2 * i + 1] as int)) as real / 65535.0)
  }

  // ---------------------------------------------------------------------------
  // The process wrapper

  /** `Cava.NONE`, `RUNNING`, `RESTARTING` and `CLOSING`. */
  datatype CavaState = NoState | Running | Restarting | Closing

  /** The `cava` child: never launched, running (`poll()` is `None`), killed, or
      exited on its own. A killed child is taken to be gone at once. */
  datatype Proc = NoProcess | Alive | Killed | Exited

  class Cava {
    /** `bars`, read from the configuration, and the frame size of 16-bit values. */
    const bars: nat
    const frameSize: nat
    var state: CavaState
    var process: Proc
    /** Whether the FIFO exists on disk. */
    var fifoExists: bool
    var fifoFd: Option<nat>
    var fifoDummyFd: Option<nat>
    var ioWatchId: Option<nat>
    var nextFd: nat
    var nextWatch: nat
    var openFds: set<nat>
    var sources: set<nat>
    var pendingRestarts: nat
    /** The samples handed to `Spectrum.update` with `idle_add`, in order. */
    var delivered: seq<seq<real>>

    /** The reader's two descriptors and its watch are held together, the
        descriptors are open and distinct, and every handle was handed out; a child
        exists once the state has left `NONE` for a running one. */
    ghost predicate Valid()
      reads this
    {
      frameSize == 2 * bars && nextWatch > 0 &&
      (fifoFd.Some? <==> fifoDummyFd.Some?) && (fifoFd.Some? <==> ioWatchId.Some?) &&
      (fifoFd.Some? ==> fifoFd.value in openFds && fifoDummyFd.value in openFds && fifoFd.value != fifoDummyFd.value) &&
      (forall fd :: fd in openFds ==> fd < nextFd) &&
      (forall w :: w in sources ==> 0 < w < nextWatch) &&
      (ioWatchId.Some? ==> 0 < ioWatchId.value < nextWatch) &&
      ((state.Running? || state.Restarting?) ==> !process.NoProcess?) &&
      (forall k :: 0 <= k < |delivered| ==> |delivered[k]| == bars)
    }

    /** `__init__`: nothing runs yet, and the FIFO is created if it is missing. */
    constructor (configuredBars: nat)
      ensures Valid()
      ensures bars == configuredBars && state == NoState && process == NoProcess && fifoExists
      ensures fifoFd.None? && fifoDummyFd.None? && ioWatchId.None?
      ensures openFds == {} && sources == {} && pendingRestarts == 0 && delivered == []
    {
      bars := configuredBars;
      frameSize := 2 * configuredBars;
      state := NoState;
      process := NoProcess;
      fifoExists := true;
      fifoFd := None;
      fifoDummyFd := None;
      ioWatchId := None;
      nextFd := 0;
      nextWatch := 1;
      openFds := {};
      sources := {};
      pendingRestarts := 0;
      delivered := [];
    }

    /** `_start_io_reader`: both ends of the FIFO are opened and a watch is
        attached; the handles held before are not released. Opening raises, and
        nothing changes, when the FIFO has been removed. */
    method StartIoReader() returns (ok: bool)
      requires Valid()
      modifies this`fifoFd, this`fifoDummyFd, this`ioWatchId, this`nextFd, this`nextWatch, this`openFds, this`sources
      ensures Valid()
      ensures ok == fifoExists
      ensures !ok ==> unchanged(this)
      ensures ok ==> (fifoFd.Some? && ioWatchId.Some? && fifoFd.value !in old(openFds) &&
        fifoDummyFd.value !in old(openFds) && ioWatchId.value !in old(sources) &&
        openFds == old(openFds) + {fifoFd.value, fifoDummyFd.value} && sources == old(sources) + {ioWatchId.value})
    {
      if !fifoExists {
        return false;
      }
      fifoFd := Some(nextFd);
      fifoDummyFd := Some(nextFd + 1);
      openFds := openFds + {nextFd, nextFd + 1};
      nextFd := nextFd + 2;
      ioWatchId := Some(nextWatch);
      sources := sources + {nextWatch};
      nextWatch := nextWatch + 1;
      ok := true;
    }

    /** `_run_process`: the state becomes `RUNNING` only when the launch succeeds;
        a failed launch is logged and changes nothing. */
    method RunProcess(launched: bool)
      requires Valid()
      modifies this`process, this`state
      ensures Valid()
      ensures launched ==> process == Alive && state == Running
      ensures !launched ==> process == old(process) && state == old(state)
    {
      if launched {
        process := Alive;
        state := Running;
      }
    }

    /** `start`: the reader, then the process; the process is not launched when
        opening the FIFO raises. */
    method Start(launched: bool)
      requires Valid()
      modifies this`fifoFd, this`fifoDummyFd, this`ioWatchId, this`nextFd, this`nextWatch, this`openFds, this`sources,
        this`process, this`state
      ensures Valid()
      ensures state == (if fifoExists && launched then Running else old(state))
      ensures fifoExists ==> fifoFd.Some? && ioWatchId.Some? && ioWatchId.value in sources
      ensures fifoExists && launched ==> process == Alive
      ensures !fifoExists ==> unchanged(this)
    {
      var ok := StartIoReader();
      if ok {
        RunProcess(launched);
      }
    }

    /** `restart`: a running child is killed and the state becomes `RESTARTING`;
        from `NONE` the wrapper starts; `RESTARTING` and `CLOSING` are left as
        they are. */
    method Restart(launched: bool)
      requires Valid()
      modifies this`fifoFd, this`fifoDummyFd, this`ioWatchId, this`nextFd, this`nextWatch, this`openFds, this`sources,
        this`process, this`state
      ensures Valid()
      ensures old(state) == Running ==>
        state == Restarting && process == (if old(process) == Alive then Killed else old(process)) &&
        unchanged(this`fifoFd, this`ioWatchId)
      ensures old(state) == NoState ==> state == (if fifoExists && launched then Running else NoState)
      ensures old(state) == Restarting || old(state) == Closing ==> unchanged(this)
    {
      if state == Running {
        state := Restarting;
        if process == Alive {
          process := Killed;
        }
      } else if state == NoState {
        Start(launched);
      }
    }

    /** `_on_stop`: a restarting wrapper starts again (and stays `RESTARTING` if the
        launch fails); a running one goes to `NONE`; other states are kept. */
    method OnStop(launched: bool)
      requires Valid()
      modifies this`fifoFd, this`fifoDummyFd, this`ioWatchId, this`nextFd, this`nextWatch, this`openFds, this`sources,
        this`process, this`state
      ensures Valid()
      ensures old(state) == Restarting ==> state == (if fifoExists && launched then Running else Restarting)
      ensures old(state) == Restarting && fifoExists ==>
        fifoFd.Some? && ioWatchId.Some? && ioWatchId.value in sources && (launched ==> process == Alive)
      ensures old(state) == Running ==> state == NoState && unchanged(this`process, this`fifoFd, this`ioWatchId)
      ensures old(state) == NoState || old(state) == Closing ==> unchanged(this)
    {
      if state == Restarting {
        Start(launched);
      } else if state == Running {
        state := NoState;
      }
    }

    /** `close`: the state is `CLOSING`, the watch is removed, both descriptors are
        closed and forgotten, a running child is killed and the FIFO is removed. */
    method Close()
      requires Valid()
      modifies this`state, this`ioWatchId, this`sources, this`fifoFd, this`fifoDummyFd, this`openFds,
        this`process, this`fifoExists
      ensures Valid()
      ensures state == Closing && ioWatchId.None? && fifoFd.None? && fifoDummyFd.None? && !fifoExists
      ensures sources == old(sources) - (if old(ioWatchId).Some? then {old(ioWatchId).value} else {})
      ensures openFds == old(openFds) - (if old(fifoFd).Some? then {old(fifoFd).value, old(fifoDummyFd).value} else {})
      ensures process == (if old(process) == Alive then Killed else old(process))
    {
      state := Closing;
      if ioWatchId.Some? {
        sources := sources - {ioWatchId.value};
        ioWatchId := None;
      }
      if fifoFd.Some? {
        openFds := openFds - {fifoFd.value};
        fifoFd := None;
      }
      if fifoDummyFd.Some? {
        openFds := openFds - {fifoDummyFd.value};
        fifoDummyFd := None;
      }
      if process == Alive {
        process := Killed;
      }
      fifoExists := false;
    }

    /** The child exits on its own. */
    method ProcessExits()
      requires Valid() && process == Alive
      modifies this`process
      ensures Valid() && process == Exited
    {
      process := Exited;
    }

    /** `_io_callback`, called by GLib through an attached watch. On HUP or ERR the
        watch is removed, both descriptors are closed and forgotten, a restart is
        queued and the callback asks to be dropped. Otherwise the newest full frame
        read, if any, is delivered, unless a read failed, which drops the callback
        and delivers nothing. */
    method IoCallback(watch: nat, hangUp: bool, results: seq<ReadResult>) returns (keep: bool)
      requires Valid() && watch in sources && fifoFd.Some?
      modifies this`ioWatchId, this`sources, this`fifoFd, this`fifoDummyFd, this`openFds, this`pendingRestarts,
        this`delivered
      ensures Valid()
      ensures hangUp ==> (!keep && ioWatchId.None? && fifoFd.None? && fifoDummyFd.None? &&
        pendingRestarts == old(pendingRestarts) + 1 && delivered == old(delivered) &&
        openFds == old(openFds) - {old(fifoFd).value, old(fifoDummyFd).value} &&
        sources == old(sources) - {old(ioWatchId).value, watch})
      ensures !hangUp ==> unchanged(this`ioWatchId, this`fifoFd, this`fifoDummyFd, this`openFds, this`pendingRestarts)
      ensures !hangUp ==> var k := FullRun(results, frameSize);
        var failed := k < |results| && results[k].ReadError?;
        keep == !failed && sources == old(sources) - (if failed then {watch} else {}) &&
        delivered == old(delivered) + (if !failed && k > 0 then [Sample(results[k - 1].data, bars)] else [])
    {
      if hangUp {
        sources := sources - {ioWatchId.value};
        ioWatchId := None;
        openFds := openFds - {fifoFd.value};
        fifoFd := None;
        openFds := openFds - {fifoDummyFd.value};
        fifoDummyFd := None;
        pendingRestarts := pendingRestarts + 1;
        sources := sources - {watch};
        return false;
      }
      var latest, failed := ReadLatest(results, frameSize);
      if failed {
        sources := sources - {watch};
        return false;
      }
      if latest.Some? {
        delivered := delivered + [Sample(latest.value, bars)];
      }
      keep := true;
    }

    /** A restart queued by a hang-up runs; `restart` returns nothing, so it runs
        once. */
    method IdleRestart(launched: bool)
      requires Valid() && pendingRestarts > 0
      modifies this`fifoFd, this`fifoDummyFd, this`ioWatchId, this`nextFd, this`nextWatch, this`openFds, this`sources,
        this`process, this`state, this`pendingRestarts
      ensures Valid()
      ensures pendingRestarts == old(pendingRestarts) - 1
      ensures old(state) == Running ==>
        state == Restarting && process == (if old(process) == Alive then Killed else old(process)) &&
        unchanged(this`fifoFd, this`ioWatchId)
      ensures old(state) == NoState ==> state == (if fifoExists && launched then Running else NoState)
      ensures old(state) == Restarting || old(state) == Closing ==> state == old(state) && unchanged(this`process, this`fifoFd, this`ioWatchId)
    {
      pendingRestarts := pendingRestarts - 1;
      Restart(launched);
    }

    /** A hang-up on a running wrapper, as written: the callback closes the reader
        and queues `restart`, which kills the child and enters `RESTARTING`. Nothing
        attaches `_on_stop` to the child's exit, so nothing leaves `RESTARTING`: a
        further `restart` or queued restart keeps the state (`Restart`,
        `IdleRestart`), and the visualiser stays without a child and without a
        reader. */
    method HangUpAsWritten(launched: bool) returns (keep: bool)
      requires Valid() && state == Running && ioWatchId.Some? && ioWatchId.value in sources
      modifies this`fifoFd, this`fifoDummyFd, this`ioWatchId, this`nextFd, this`nextWatch, this`openFds, this`sources,
        this`process, this`state, this`pendingRestarts, this`delivered
      ensures Valid() && !keep
      ensures state == Restarting && process != Alive && fifoFd.None? && ioWatchId.None?
      ensures pendingRestarts == old(pendingRestarts)
    {
      keep := IoCallback(ioWatchId.value, true, []);
      IdleRestart(launched);
    }

    /** The same hang-up with `_on_stop` attached to the child's exit, as the method
        is written for: once the killed child is gone, the wrapper starts again, with
        a fresh reader and a running child when the FIFO is there and the launch
        succeeds. */
    method HangUpCorrected(launched: bool) returns (keep: bool)
      requires Valid() && state == Running && ioWatchId.Some? && ioWatchId.value in sources
      modifies this`fifoFd, this`fifoDummyFd, this`ioWatchId, this`nextFd, this`nextWatch, this`openFds, this`sources,
        this`process, this`state, this`pendingRestarts, this`delivered
      ensures Valid() && !keep
      ensures fifoExists && launched ==>
        state == Running && process == Alive && fifoFd.Some? && ioWatchId.Some? && ioWatchId.value in sources
      ensures !(fifoExists && launched) ==> state == Restarting
      ensures pendingRestarts == old(pendingRestarts)
    {
      keep := IoCallback(ioWatchId.value, true, []);
      IdleRestart(launched);
      OnStop(launched);
    }
  }

  // ---------------------------------------------------------------------------
  // Silence detection

  /** `Spectrum.silence`: more than this many silent samples in a row is silence. */
  const SilenceLimit: nat := 10

  /** The silence counter after a sample whose first value is `v`. */
  function NextSilence(c: nat, v: real): nat
  {
    if v > 0.0 then 0 else c + 1
  }

  /** The counter after a run of samples with the given first values. */
  function SilenceAfter(c: nat, firsts: seq<real>): nat
    decreases |firsts|
  {
    if |firsts| == 0 then c else SilenceAfter(NextSilence(c, firsts[0]), firsts[1..])
  }

  /** How many times a zero frame is injected along the run: once for each sample
      that brings the counter to exactly one past the limit. */
  function Injections(c: nat, firsts: seq<real>): nat
    decreases |firsts|
  {
    if |firsts| == 0 then 0
    else
      var c' := NextSilence(c, firsts[0]);
      (if c' == SilenceLimit + 1 then 1 else 0) + Injections(c', firsts[1..])
  }

  /** Along a run of silent samples the counter only grows, and the zero frame is
      injected once, when the run first exceeds the limit, never again however
      long the silence lasts. */
  lemma {:induction false} SilentRun(c: nat, firsts: seq<real>)
    requires forall i :: 0 <= i < |firsts| ==> firsts[i] <= 0.0
    ensures SilenceAfter(c, firsts) == c + |firsts|
    ensures Injections(c, firsts) == if c <= SilenceLimit < c + |firsts| then 1 else 0
    decreases |firsts|
  {
    if |firsts| > 0 {
      SilentRun(c + 1, firsts[1..]);
    }
  }

  /** A sample with sound resets the counter, so the next silent run injects its
      zero frame again. */
  lemma SoundResets(c: nat, v: real, silence: seq<real>)
    requires v > 0.0
    requires |silence| > SilenceLimit
    requires forall i :: 0 <= i < |silence| ==> silence[i] <= 0.0
    ensures Injections(c, [v] + silence) == 1
  {
    assert ([v] + silence)[1..] == silence;
    SilentRun(0, silence);
  }

  // ---------------------------------------------------------------------------
  // The spectrum

  /** `Spectrum.sizes`: the bar count, padding and zero level, and the area's and
      a bar's width and height. */
  datatype Sizes = Sizes(number: int, padding: int, zero: int, areaWidth: int, areaHeight: int,
                         barWidth: int, barHeight: int)

  /** The sizes before the first `size_update`: `AttributeDict` answers 3 for every
      missing attribute. */
  const DefaultSizes: Sizes := Sizes(3, 3, 3, 3, 3, 3, 3)

  /** `size_update` for an allocation of `width` by `height`: the area and each bar
      are at least one pixel wide, the padding times the bar count is at most 100,
      and when the area has room for the bars they all fit in it. */
  function Layout(bars: nat, width: int, height: int): (s: Sizes)
    requires bars > 0
    ensures s.number == bars && s.zero == 0 && s.areaHeight == height - 2 && s.barHeight == s.areaHeight
    ensures s.areaWidth >= 1 && s.barWidth >= 1 && s.padding >= 0 && s.padding * bars <= 100
    ensures width >= bars + s.padding * (bars - 1) ==>
      s.areaWidth == width && bars * s.barWidth + s.padding * (bars - 1) <= s.areaWidth
  {
    var padding := TruncDiv(100, bars);
    var areaWidth := Max(1, width);
    var tw := areaWidth - padding * (bars - 1);
    var w := TruncDiv(tw, bars);
    assert bars * padding == padding * bars;
    Sizes(bars, padding, 0, areaWidth, height - 2, Max(w, 1), height - 2)
  }

  class Spectrum {
    /** The bar count of the configuration. */
    const bars: nat
    var silenceValue: nat
    /** `_latest_sample`: `None` until the first sample. */
    var latestSample: Option<seq<real>>
    var sampleSeq: nat
    var lastPaintedSeq: int
    var audioSample: seq<real>
    var sizes: Sizes
    /** The number of `queue_draw` calls. */
    var draws: nat

    constructor (configuredBars: nat)
      ensures bars == configuredBars && silenceValue == 0 && latestSample.None? && sampleSeq == 0
      ensures lastPaintedSeq == -1 && audioSample == [] && sizes == DefaultSizes && draws == 0
    {
      bars := configuredBars;
      silenceValue := 0;
      latestSample := None;
      sampleSeq := 0;
      lastPaintedSeq := -1;
      audioSample := [];
      sizes := DefaultSizes;
      draws := 0;
    }

    /** `is_silence`: the counter resets on a positive value and grows otherwise;
        silence is more than `SilenceLimit` in a row. */
    method IsSilence(value: real) returns (silent: bool)
      modifies this`silenceValue
      ensures silenceValue == NextSilence(old(silenceValue), value)
      ensures silent <==> silenceValue > SilenceLimit
    {
      silenceValue := if value > 0.0 then 0 else silenceValue + 1;
      silent := silenceValue > SilenceLimit;
    }

    /** `update`: the sample becomes the latest; when it brings the silence counter
        to exactly one past the limit, a frame of zeros replaces it and a redraw is
        queued. */
    method Update(data: seq<real>)
      requires |data| > 0
      modifies this`silenceValue, this`latestSample, this`sampleSeq, this`draws
      ensures silenceValue == NextSilence(old(silenceValue), data[0])
      ensures silenceValue == SilenceLimit + 1 ==>
        latestSample == Some(seq(Max(0, sizes.number), _ => 0.0)) && sampleSeq == old(sampleSeq) + 2 &&
        draws == old(draws) + 1
      ensures silenceValue != SilenceLimit + 1 ==>
        latestSample == Some(data) && sampleSeq == old(sampleSeq) + 1 && draws == old(draws)
    {
      latestSample := Some(data);
      sampleSeq := sampleSeq + 1;
      var silent := IsSilence(data[0]);
      if silent && silenceValue == SilenceLimit + 1 {
        latestSample := Some(seq(Max(0, sizes.number), _ => 0.0));
        sampleSeq := sampleSeq + 1;
        draws := draws + 1;
      }
    }

    /** A stream of samples: the silence counter follows `SilenceAfter`, and one
        redraw is queued per injected zero frame. */
    method UpdateAll(samples: seq<seq<real>>)
      requires forall k :: 0 <= k < |samples| ==> |samples[k]| > 0
      modifies this`silenceValue, this`latestSample, this`sampleSeq, this`draws
      ensures var firsts := seq(|samples|, k requires 0 <= k < |samples| => samples[k][0]);
        silenceValue == SilenceAfter(old(silenceValue), firsts) &&
        draws == old(draws) + Injections(old(silenceValue), firsts)
    {
      var firsts := seq(|samples|, k requires 0 <= k < |samples| => samples[k][0]);
      for i := 0 to |samples|
        invariant SilenceAfter(old(silenceValue), firsts) == SilenceAfter(silenceValue, firsts[i..])
        invariant old(draws) + Injections(old(silenceValue), firsts) == draws + Injections(silenceValue, firsts[i..])
      {
        assert firsts[i..][1..] == firsts[i + 1..];
        Update(samples[i]);
      }
    }

    /** `_on_tick`: a new, non-empty sample is adopted and painted; otherwise
        nothing changes. The tick callback always stays. */
    method OnTick() returns (again: bool)
      modifies this`audioSample, this`lastPaintedSeq, this`draws
      ensures again
      ensures var adopt := sampleSeq != old(lastPaintedSeq) && latestSample.Some? && |latestSample.value| > 0;
        (adopt ==> audioSample == latestSample.value && lastPaintedSeq == sampleSeq && draws == old(draws) + 1) &&
        (!adopt ==> unchanged(this`audioSample, this`lastPaintedSeq, this`draws))
    {
      if sampleSeq != lastPaintedSeq && latestSample.Some? && |latestSample.value| > 0 {
        audioSample := latestSample.value;
        lastPaintedSeq := sampleSeq;
        draws := draws + 1;
      }
      again := true;
    }

    /** `size_update` for the area's new allocation. */
    method SizeUpdate(width: int, height: int)
      requires bars > 0
      modifies this`sizes
      ensures sizes == Layout(bars, width, height)
      ensures sizes.areaWidth >= 1 && sizes.barWidth >= 1
    {
      sizes := Layout(bars, width, height);
    }
  }
}
