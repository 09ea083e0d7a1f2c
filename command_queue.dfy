/** The command queue of the brightness service: what a queued `ddcutil` call is, the
    soft ceilings per kind, and the rules that decide which queued calls survive when a
    new one is enqueued (services/brightness.py, `CEIL_MS` and `_run_cmd`). */
module CommandQueue {

  /** The kind tag that travels with every queued command. */
  datatype Kind = Detect | Get | GetForce | Set

  /** The `ddcutil` call a command runs. */
  datatype ShellLine = DetectLine | GetvcpLine(bus: int) | SetvcpLine(raw: int, bus: int)

  /** One shell command waiting for, or holding, the single execution slot. `bus` is -1
      for a detect; `wrapped` says whether the call runs under `timeout`. The callback
      the source attaches is determined by kind and bus. */
  datatype Command = Command(kind: Kind, bus: int, line: ShellLine, wrapped: bool)

  /** `CEIL_MS` holds the three kinds other than `get_force`. */
  predicate InCeilTable(k: Kind) { k != GetForce }

  /** `CEIL_MS.get(k, 2000)`: the soft ceiling of a kind, in milliseconds. */
  function CeilMs(k: Kind): (ms: int)
    ensures InCeilTable(k) ==> ms % 100 == 0 && 1000 <= ms <= 4000
    ensures !InCeilTable(k) ==> ms == 2000
  {
    match k
    case Detect => 4000
    case Get => 2000
    case Set => 3200
    case GetForce => 2000
  }

  /** Delay of the internal ceiling armed by `_dequeue`: the soft ceiling plus 800 ms. */
  function CeilingDelay(k: Kind): (ms: int)
    ensures 2800 <= ms <= 4800
  {
    CeilMs(k) + 800
  }

  /** Does the queued entry `e` stay in the queue when `c` is enqueued while
      `writeInflight` says whether any bus has a write in flight? */
  predicate Survives(e: Command, c: Command, writeInflight: bool)
  {
    if c.kind == GetForce || e.kind == GetForce then true
    else if e.kind == c.kind && e.bus == c.bus then false
    else if c.kind == Set && e.kind == Get && e.bus == c.bus then false
    else if writeInflight && e.kind == Get then false
    else true
  }

  /** The queued entries that survive the enqueue of `c`, in their original order. */
  function Kept(q: seq<Command>, c: Command, writeInflight: bool): (r: seq<Command>)
    ensures |r| <= |q|
    decreases |q|
  {
    if |q| == 0 then []
    else
      var front := Kept(q[..|q| - 1], c, writeInflight);
      if Survives(q[|q| - 1], c, writeInflight) then front + [q[|q| - 1]] else front
  }

  /** The queue after `_run_cmd` has filtered it and appended `c`. */
  function Enqueue(q: seq<Command>, c: Command, writeInflight: bool): seq<Command>
  {
    Kept(q, c, writeInflight) + [c]
  }

  /** The entries of `b` whose flag in `keep` is set, in order. */
  function Select<T>(b: seq<T>, keep: seq<bool>): seq<T>
    requires |keep| == |b|
    decreases |b|
  {
    if |b| == 0 then []
    else Select(b[..|b| - 1], keep[..|b| - 1]) + (if keep[|b| - 1] then [b[|b| - 1]] else [])
  }

  /** `a` is `b` with some entries removed, the rest in their order. */
  ghost predicate Subsequence<T>(a: seq<T>, b: seq<T>)
  {
    exists keep :: |keep| == |b| && Select(b, keep) == a
  }

  /** The filtering loop of `_run_cmd`: walk the queue in order and keep each entry
      that survives the drop rules. */
  method DropStale(q: seq<Command>, c: Command, writeInflight: bool) returns (kept: seq<Command>)
    ensures kept == Kept(q, c, writeInflight)
  {
    kept := [];
    var i := 0;
    while i < |q|
      invariant 0 <= i <= |q|
      invariant kept == Kept(q[..i], c, writeInflight)
    {
      var e := q[i];
      assert q[..i + 1][..i] == q[..i];
      if c.kind == GetForce || e.kind == GetForce {
        kept := kept + [e];
      } else if e.kind == c.kind && e.bus == c.bus {
        // a stale command of the same kind for the same bus
      } else if c.kind == Set && e.kind == Get && e.bus == c.bus {
        // a read of the bus about to be written
      } else if writeInflight && e.kind == Get {
        // reads are shed while any write is in flight
      } else {
        kept := kept + [e];
      }
      i := i + 1;
    }
    assert q[..i] == q;
  }

  /** Which queued entries survive, position by position. */
  function SurvivorMask(q: seq<Command>, c: Command, wi: bool): (m: seq<bool>)
    ensures |m| == |q|
  {
    seq(|q|, i requires 0 <= i < |q| => Survives(q[i], c, wi))
  }

  lemma {:induction false} KeptIsSelection(q: seq<Command>, c: Command, wi: bool)
    ensures Kept(q, c, wi) == Select(q, SurvivorMask(q, c, wi))
    decreases |q|
  {
    if |q| > 0 {
      var front := q[..|q| - 1];
      KeptIsSelection(front, c, wi);
      assert SurvivorMask(q, c, wi)[..|q| - 1] == SurvivorMask(front, c, wi);
    }
  }

  /** Enqueue keeps the surviving entries in their relative order: they form a
      subsequence of the old queue. */
  lemma KeptIsSubsequence(q: seq<Command>, c: Command, wi: bool)
    ensures Subsequence(Kept(q, c, wi), q)
  {
    KeptIsSelection(q, c, wi);
  }

  /** An entry is kept exactly when it was queued and survives the rules. */
  lemma {:induction false} KeptMembers(q: seq<Command>, c: Command, wi: bool, e: Command)
    ensures e in Kept(q, c, wi) <==> e in q && Survives(e, c, wi)
    decreases |q|
  {
    if |q| > 0 {
      var front := q[..|q| - 1];
      KeptMembers(front, c, wi, e);
      assert q == front + [q[|q| - 1]];
    }
  }

  /** The new command is always appended last, after every survivor. */
  lemma EnqueueAppendsLast(q: seq<Command>, c: Command, wi: bool)
    ensures |Enqueue(q, c, wi)| > 0
    ensures Enqueue(q, c, wi)[|Enqueue(q, c, wi)| - 1] == c
    ensures Enqueue(q, c, wi)[..|Enqueue(q, c, wi)| - 1] == Kept(q, c, wi)
  {
  }

  /** A new `get_force` drops nothing. */
  lemma {:induction false} ForceDropsNothing(q: seq<Command>, c: Command, wi: bool)
    requires c.kind == GetForce
    ensures Kept(q, c, wi) == q
    decreases |q|
  {
    if |q| > 0 {
      ForceDropsNothing(q[..|q| - 1], c, wi);
      assert q[..|q| - 1] + [q[|q| - 1]] == q;
    }
  }

  /** What enqueue removes, for a command that is not a `get_force`: exactly the queued
      entries other than `get_force` that repeat its (kind, bus), the plain reads of
      its bus when it is a write, and every plain read while a write is in flight. */
  lemma DroppedExactly(q: seq<Command>, c: Command, wi: bool, e: Command)
    requires c.kind != GetForce && e in q
    ensures e !in Kept(q, c, wi) <==>
      e.kind != GetForce &&
      ((e.kind == c.kind && e.bus == c.bus) ||
       (c.kind == Set && e.kind == Get && e.bus == c.bus) ||
       (wi && e.kind == Get))
  {
    KeptMembers(q, c, wi, e);
  }

  /** Queued `get_force` entries are never dropped. */
  lemma ForceEntriesKept(q: seq<Command>, c: Command, wi: bool, e: Command)
    requires e in q && e.kind == GetForce
    ensures e in Kept(q, c, wi)
  {
    KeptMembers(q, c, wi, e);
  }
}
