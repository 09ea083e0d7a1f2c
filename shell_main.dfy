/** The start-up logic of main.py that can be stated on values: the `notify`
    override that forwards only the names of existing properties, and the choice of
    the monitors that get a bar.

    GObject's property listing is a parameter: the set of property names of the
    object, or `None` when listing them raises. */
module ShellMain {
  import opened Common

  // ---------------------------------------------------------------------------
  // _safe_notify

  /** A separator `::` starts at `j`. */
  predicate SepAt(s: string, j: int)
  {
    0 <= j && j + 1 < |s| && s[j] == ':' && s[j + 1] == ':'
  }

  /** The index of the first `::` at or after `i`, scanning left to right. */
  function SepFrom(s: string, i: nat): (k: Option<nat>)
    ensures k.Some? ==> i <= k.value && SepAt(s, k.value)
    ensures k.None? ==> forall j :: i <= j ==> !SepAt(s, j)
    ensures k.Some? ==> forall j :: i <= j < k.value ==> !SepAt(s, j)
    decreases |s| - i
  {
    if i + 1 >= |s| then None
    else if s[i] == ':' && s[i + 1] == ':' then Some(i)
    else SepFrom(s, i + 1)
  }

  /** `prop.split("::")[-1]`: what follows the last separator that `str.split`
      finds scanning from the left (so `"a:::b"` gives `":b"`). */
  function LastSegment(s: string): (r: string)
    decreases |s|
  {
    match SepFrom(s, 0)
    case None => s
    case Some(k) => LastSegment(s[k + 2..])
  }

  /** No `::` occurs in `s`. */
  predicate NoSep(s: string)
  {
    forall j :: 0 <= j < |s| ==> !SepAt(s, j)
  }

  /** The segment is a suffix of the property name that holds no separator, and a
      name without a separator is kept whole. */
  lemma LastSegmentShape(s: string)
    ensures |LastSegment(s)| <= |s| && LastSegment(s) == s[|s| - |LastSegment(s)|..]
    ensures NoSep(LastSegment(s))
    ensures NoSep(s) ==> LastSegment(s) == s
  {
    LastSegmentSuffix(s);
    LastSegmentNoSep(s);
    if NoSep(s) {
      assert SepFrom(s, 0).None?;
    }
  }

  lemma {:induction false} LastSegmentSuffix(s: string)
    ensures |LastSegment(s)| <= |s| && LastSegment(s) == s[|s| - |LastSegment(s)|..]
    decreases |s|
  {
    match SepFrom(s, 0)
    case None =>
      assert s[0..] == s;
    case Some(k) =>
      var t := s[k + 2..];
      LastSegmentSuffix(t);
      var r := LastSegment(t);
      assert LastSegment(s) == r;
      assert s[|s| - |r|..] == t[|t| - |r|..];
  }

  lemma {:induction false} LastSegmentNoSep(s: string)
    ensures NoSep(LastSegment(s))
    decreases |s|
  {
    match SepFrom(s, 0)
    case None =>
    case Some(k) =>
      LastSegmentNoSep(s[k + 2..]);
  }

  /** A name is forwarded when the object has a property of that name, or when the
      listing of its properties raises. */
  predicate Forwarded(name: string, props: Option<set<string>>)
  {
    props.None? || name in props.value
  }

  /** The names `_safe_notify` forwards, in the order given. */
  function Kept(names: seq<string>, props: Option<set<string>>): seq<string>
  {
    if |names| == 0 then []
    else
      var p := LastSegment(names[|names| - 1]);
      Kept(names[..|names| - 1], props) + (if Forwarded(p, props) then [p] else [])
  }

  /** `_safe_notify`: the names that survive, and whether the original `notify` is
      called with them; it is called exactly when one survives. */
  method SafeNotify(names: seq<string>, props: Option<set<string>>) returns (valid: seq<string>, notified: bool)
    ensures valid == Kept(names, props)
    ensures notified <==> |valid| > 0
  {
    valid := [];
    for i := 0 to |names|
      invariant valid == Kept(names[..i], props)
    {
      assert names[..i + 1][..i] == names[..i];
      var p := LastSegment(names[i]);
      if props.None? {
        valid := valid + [p];
      } else if p in props.value {
        valid := valid + [p];
      }
    }
    assert names[..|names|] == names;
    notified := |valid| > 0;
  }

  /** What is forwarded: the last segment of a name exactly when the object has that
      property; everything, stripped, when listing raises. */
  lemma {:induction false} KeptMembers(names: seq<string>, props: Option<set<string>>, x: string)
    ensures x in Kept(names, props) <==>
      Forwarded(x, props) && exists i :: 0 <= i < |names| && LastSegment(names[i]) == x
  {
    var n := |names|;
    if n > 0 {
      var front := names[..n - 1];
      KeptMembers(front, props, x);
      if exists i :: 0 <= i < n - 1 && LastSegment(front[i]) == x {
        var i :| 0 <= i < n - 1 && LastSegment(front[i]) == x;
        assert names[i] == front[i];
      }
      if exists i :: 0 <= i < n && LastSegment(names[i]) == x {
        var i :| 0 <= i < n && LastSegment(names[i]) == x;
        if i < n - 1 {
          assert front[i] == names[i];
        }
      }
    }
  }

  /** When the listing raises every name is forwarded, one for one. */
  lemma {:induction false} KeptAllOnError(names: seq<string>)
    ensures |Kept(names, None)| == |names|
    ensures forall i :: 0 <= i < |names| ==> Kept(names, None)[i] == LastSegment(names[i])
  {
    var n := |names|;
    if n > 0 {
      KeptAllOnError(names[..n - 1]);
    }
  }

  // ---------------------------------------------------------------------------
  // Monitor selection

  /** A monitor as the monitor manager reports it: its `id` and `name` keys, each
      possibly missing. */
  datatype Monitor = Monitor(id: Option<int>, name: Option<string>)

  /** `monitor.get('name', f'monitor-{monitor.get("id", 0)}')`. */
  function MonitorName(m: Monitor): string
  {
    if m.name.Some? then m.name.value
    else "monitor-" + IntToString(if m.id.Some? then m.id.value else 0)
  }

  /** The monitors whose name is selected, in their original order. */
  function Matching(all: seq<Monitor>, selected: seq<string>): seq<Monitor>
  {
    if |all| == 0 then []
    else
      var m := all[|all| - 1];
      Matching(all[..|all| - 1], selected) + (if MonitorName(m) in selected then [m] else [])
  }

  /** The filter of lines 96-118: every monitor when none is selected, else those
      whose name is selected, falling back to every monitor when none matches. */
  method SelectMonitors(all: seq<Monitor>, selected: seq<string>) returns (monitors: seq<Monitor>)
    ensures |selected| == 0 ==> monitors == all
    ensures |selected| > 0 && Matching(all, selected) != [] ==> monitors == Matching(all, selected)
    ensures |selected| > 0 && Matching(all, selected) == [] ==> monitors == all
  {
    if |selected| == 0 {
      return all;
    }
    monitors := [];
    var names := set x | x in selected;
    for i := 0 to |all|
      invariant monitors == Matching(all[..i], selected)
    {
      assert all[..i + 1][..i] == all[..i];
      if MonitorName(all[i]) in names {
        monitors := monitors + [all[i]];
      }
    }
    assert all[..|all|] == all;
    if |monitors| == 0 {
      monitors := all;
    }
  }

  /** The monitors that match are exactly those of the list whose name is
      selected. */
  lemma {:induction false} MatchingMembers(all: seq<Monitor>, selected: seq<string>, m: Monitor)
    ensures m in Matching(all, selected) <==> m in all && MonitorName(m) in selected
  {
    var n := |all|;
    if n > 0 {
      MatchingMembers(all[..n - 1], selected, m);
      assert all == all[..n - 1] + [all[n - 1]];
    }
  }

  /** `pos` lists increasing positions of `all` holding the monitors of `ms`, in
      order. */
  predicate PicksOf(all: seq<Monitor>, ms: seq<Monitor>, pos: seq<nat>)
  {
    |pos| == |ms| &&
    (forall k :: 0 <= k < |pos| ==> pos[k] < |all| && all[pos[k]] == ms[k]) &&
    (forall k, l :: 0 <= k < l < |pos| ==> pos[k] < pos[l])
  }

  /** Positions picked from a prefix are positions of the whole list, and the last
      monitor may be picked after them. */
  lemma PicksExtend(all: seq<Monitor>, ms: seq<Monitor>, pos: seq<nat>)
    requires |all| > 0 && PicksOf(all[..|all| - 1], ms, pos)
    ensures PicksOf(all, ms, pos)
    ensures PicksOf(all, ms + [all[|all| - 1]], pos + [|all| - 1])
  {
    var n := |all|;
    assert forall k :: 0 <= k < |pos| ==> all[pos[k]] == all[..n - 1][pos[k]];
  }

  /** Matching keeps the original order: its monitors are those of a set of
      increasing positions of the list. */
  lemma {:induction false} MatchingOrder(all: seq<Monitor>, selected: seq<string>)
    ensures exists pos: seq<nat> :: PicksOf(all, Matching(all, selected), pos)
  {
    var n := |all|;
    if n == 0 {
      assert PicksOf(all, Matching(all, selected), []);
    } else {
      var front := all[..n - 1];
      MatchingOrder(front, selected);
      var pos: seq<nat> :| PicksOf(front, Matching(front, selected), pos);
      PicksExtend(all, Matching(front, selected), pos);
      if MonitorName(all[n - 1]) in selected {
        assert Matching(all, selected) == Matching(front, selected) + [all[n - 1]];
        assert PicksOf(all, Matching(all, selected), pos + [n - 1]);
      } else {
        assert Matching(all, selected) == Matching(front, selected);
        assert PicksOf(all, Matching(all, selected), pos);
      }
    }
  }

  /** The bars go somewhere: the selection is empty only when there is no monitor,
      and it never holds a monitor that is not in the list. */
  lemma {:induction false} SelectionNonEmpty(all: seq<Monitor>, selected: seq<string>, monitors: seq<Monitor>)
    requires |selected| == 0 ==> monitors == all
    requires |selected| > 0 && Matching(all, selected) != [] ==> monitors == Matching(all, selected)
    requires |selected| > 0 && Matching(all, selected) == [] ==> monitors == all
    ensures |monitors| == 0 <==> |all| == 0
    ensures forall m :: m in monitors ==> m in all
  {
    if |selected| > 0 && Matching(all, selected) != [] {
      forall m | m in monitors
        ensures m in all
      {
        MatchingMembers(all, selected, m);
      }
    }
  }

  /** `[m['id'] for m in bar_monitors]`, which raises (`None` here) when a monitor
      has no id. */
  function ActiveBarIds(monitors: seq<Monitor>): (r: Option<seq<int>>)
    ensures r.Some? ==> |r.value| == |monitors|
  {
    if |monitors| == 0 then Some([])
    else
      match ActiveBarIds(monitors[..|monitors| - 1])
      case None => None
      case Some(ids) =>
        var m := monitors[|monitors| - 1];
        if m.id.None? then None else Some(ids + [m.id.value])
  }

  /** `single_bar_mode`: exactly one bar monitor; `None` when an id is missing. */
  function SingleBarMode(monitors: seq<Monitor>): (r: Option<bool>)
    ensures r.Some? ==> (r.value <==> |monitors| == 1)
  {
    match ActiveBarIds(monitors)
    case None => None
    case Some(ids) => Some(|ids| == 1)
  }

  /** The ids are computed, and the mode decided, exactly when every bar monitor has
      an id. */
  lemma {:induction false} ActiveBarIdsDefined(monitors: seq<Monitor>)
    ensures ActiveBarIds(monitors).Some? <==> forall i :: 0 <= i < |monitors| ==> monitors[i].id.Some?
    ensures ActiveBarIds(monitors).Some? ==>
      forall i :: 0 <= i < |monitors| ==> ActiveBarIds(monitors).value[i] == monitors[i].id.value
  {
    var n := |monitors|;
    if n > 0 {
      ActiveBarIdsDefined(monitors[..n - 1]);
      assert forall i :: 0 <= i < n - 1 ==> monitors[..n - 1][i] == monitors[i];
    }
  }
}
