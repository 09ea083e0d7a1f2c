/** The configuration dictionaries of config/settings_utils.py: the recursive merge
    `deep_update`, the loading of the key-binding variables with the repair of the two
    metric-visibility sub-dictionaries, and the choice of the window animation from
    the bar position.

    A JSON value is a dictionary, a string, or any other value kept by its JSON text;
    Python's dictionaries become maps from their keys. */
module Settings {
  import opened Common

  datatype Value = Dict(entries: map<string, Value>) | Str(s: string) | Other(json: string)

  /** `deep_update(target, update)`: a dictionary met on both sides is merged
      recursively, every other value of `update` overwrites, and the keys of `target`
      absent from `update` stay as they were. */
  function Merge(target: map<string, Value>, update: map<string, Value>): (r: map<string, Value>)
    ensures r.Keys == target.Keys + update.Keys
    ensures forall k :: k in target && k !in update ==> r[k] == target[k]
    ensures forall k :: k in update && update[k].Dict? ==> r[k].Dict?
    ensures forall k :: k in update && !update[k].Dict? ==> r[k] == update[k]
    decreases Dict(update), 1
  {
    map k | k in target.Keys + update.Keys :: if k in update then MergedAt(target, update, k) else target[k]
  }

  /** The value `deep_update` leaves under a key of the update. */
  function MergedAt(target: map<string, Value>, update: map<string, Value>, k: string): Value
    requires k in update
    decreases Dict(update), 0
  {
    if update[k].Dict? && k in target && target[k].Dict? then
      Dict(Merge(target[k].entries, update[k].entries))
    else update[k]
  }

  /** Every non-dictionary value of `u`, at any depth, sits at the same path of `r`,
      and every dictionary of `u` is a dictionary in `r`. */
  ghost predicate Covers(r: map<string, Value>, u: map<string, Value>)
    decreases Dict(u)
  {
    forall k :: k in u ==>
      k in r &&
      (u[k].Dict? ==> r[k].Dict? && Covers(r[k].entries, u[k].entries)) &&
      (!u[k].Dict? ==> r[k] == u[k])
  }

  lemma {:induction false} CoversSelf(u: map<string, Value>)
    ensures Covers(u, u)
    decreases Dict(u)
  {
    forall k | k in u && u[k].Dict?
      ensures Covers(u[k].entries, u[k].entries)
    {
      CoversSelf(u[k].entries);
    }
  }

  /** The update wins: after `deep_update`, everything the update sets is in place. */
  lemma {:induction false} MergeCovers(t: map<string, Value>, u: map<string, Value>)
    ensures Covers(Merge(t, u), u)
    decreases Dict(u)
  {
    var r := Merge(t, u);
    forall k | k in u && u[k].Dict?
      ensures Covers(r[k].entries, u[k].entries)
    {
      assert r[k] == MergedAt(t, u, k);
      if k in t && t[k].Dict? {
        MergeCovers(t[k].entries, u[k].entries);
      } else {
        CoversSelf(u[k].entries);
      }
    }
  }

  /** Two dictionaries are merged, not replaced: every key of the target's
      sub-dictionary survives beside those of the update. */
  lemma MergeKeepsNestedKeys(t: map<string, Value>, u: map<string, Value>, k: string)
    requires k in t && k in u && t[k].Dict? && u[k].Dict?
    ensures Merge(t, u)[k].Dict?
    ensures Merge(t, u)[k].entries.Keys == t[k].entries.Keys + u[k].entries.Keys
  {
  }

  /** An empty update changes nothing. */
  lemma MergeEmpty(t: map<string, Value>)
    ensures Merge(t, map[]) == t
  {
  }

  /** Merging a dictionary into itself gives it back. */
  lemma {:induction false} MergeSelf(x: map<string, Value>)
    ensures Merge(x, x) == x
    decreases Dict(x)
  {
    forall k | k in x
      ensures Merge(x, x)[k] == x[k]
    {
      if x[k].Dict? {
        MergeSelf(x[k].entries);
      }
    }
  }

  /** Applying the same update twice equals applying it once. */
  lemma {:induction false} MergeIdempotent(t: map<string, Value>, u: map<string, Value>)
    ensures Merge(Merge(t, u), u) == Merge(t, u)
    decreases Dict(u)
  {
    var m := Merge(t, u);
    forall k | k in m
      ensures Merge(m, u)[k] == m[k]
    {
      if k in u && u[k].Dict? {
        assert m[k] == MergedAt(t, u, k) && Merge(m, u)[k] == MergedAt(m, u, k);
        if k in t && t[k].Dict? {
          MergeIdempotent(t[k].entries, u[k].entries);
        } else {
          MergeSelf(u[k].entries);
        }
      }
    }
  }

  /** `deep_update` as the source writes it: one pass over the update's entries,
      recursing into a dictionary met on both sides. */
  method DeepUpdate(target: map<string, Value>, update: map<string, Value>) returns (r: map<string, Value>)
    ensures r == Merge(target, update)
    decreases Dict(update)
  {
    r := target;
    var todo := update.Keys;
    while exists x :: x in todo
      invariant todo <= update.Keys
      invariant r.Keys == target.Keys + (update.Keys - todo)
      invariant forall k :: k in r ==> r[k] == if k in update && k !in todo then MergedAt(target, update, k) else target[k]
      decreases todo
    {
      var key :| key in todo;
      var value := update[key];
      var v := value;
      if value.Dict? && key in r && r[key].Dict? {
        var sub := DeepUpdate(r[key].entries, value.entries);
        v := Dict(sub);
      }
      assert v == MergedAt(target, update, key);
      r := r[key := v];
      todo := todo - {key};
    }
    assert forall k :: k in r ==> r[k] == Merge(target, update)[k];
  }

  /** The two sub-dictionaries whose structure loading restores. */
  const VisKeys: seq<string> := ["metrics_visible", "metrics_small_visible"]

  /** The defaults give a dictionary for each visibility key they hold. */
  ghost predicate Shaped(defaults: map<string, Value>)
  {
    forall i :: 0 <= i < |VisKeys| && VisKeys[i] in defaults ==> defaults[VisKeys[i]].Dict?
  }

  /** Each default subkey missing from `cur` is added with its default value. */
  function FillMissing(cur: map<string, Value>, d: map<string, Value>): (r: map<string, Value>)
    ensures r.Keys == cur.Keys + d.Keys
    ensures forall k :: k in cur ==> r[k] == cur[k]
  {
    map k | k in cur.Keys + d.Keys :: if k in cur then cur[k] else d[k]
  }

  /** The repair of one visibility key: a value that is not a dictionary is replaced
      by the default, a dictionary gets the default subkeys it lacks. */
  function Repaired(vars: map<string, Value>, defaults: map<string, Value>, vis: string): (r: map<string, Value>)
    requires vis in defaults ==> defaults[vis].Dict?
    ensures r.Keys == vars.Keys + (if vis in defaults then {vis} else {})
    ensures forall k :: k in vars && k != vis ==> r[k] == vars[k]
    ensures vis in defaults ==> r[vis].Dict? && defaults[vis].entries.Keys <= r[vis].entries.Keys
    ensures vis in defaults && vis in vars && vars[vis].Dict? ==>
      forall k :: k in vars[vis].entries ==> k in r[vis].entries && r[vis].entries[k] == vars[vis].entries[k]
  {
    if vis !in defaults then vars
    else if vis in vars && vars[vis].Dict? then
      vars[vis := Dict(FillMissing(vars[vis].entries, defaults[vis].entries))]
    else vars[vis := defaults[vis]]
  }

  /** The variables after `load_bind_vars`: the defaults, merged with the saved
      configuration when one was read as a JSON object, and then repaired. A missing
      or undecodable file (`saved` none) or a saved value that is not an object
      (which the merge rejects) leaves the defaults. */
  function Loaded(defaults: map<string, Value>, saved: Option<Value>): map<string, Value>
    requires Shaped(defaults)
  {
    if saved.Some? && saved.value.Dict? then
      var merged := Merge(defaults, saved.value.entries);
      Repaired(Repaired(merged, defaults, VisKeys[0]), defaults, VisKeys[1])
    else defaults
  }

  /** After loading, each visibility key the defaults hold is a dictionary with every
      default subkey; the subkeys the user saved keep their values, and a saved value
      that is not a dictionary gives way to the default. */
  lemma LoadedVisibility(defaults: map<string, Value>, saved: Option<Value>, vis: string)
    requires Shaped(defaults) && vis in VisKeys && vis in defaults
    ensures vis in Loaded(defaults, saved) && Loaded(defaults, saved)[vis].Dict?
    ensures defaults[vis].entries.Keys <= Loaded(defaults, saved)[vis].entries.Keys
    ensures saved.Some? && saved.value.Dict? && vis in saved.value.entries && saved.value.entries[vis].Dict? ==>
      Covers(Loaded(defaults, saved)[vis].entries, saved.value.entries[vis].entries)
    ensures saved.Some? && saved.value.Dict? && vis in saved.value.entries && !saved.value.entries[vis].Dict? ==>
      Loaded(defaults, saved)[vis] == defaults[vis]
  {
    assert defaults[vis].Dict? by {
      assert VisKeys[0] == vis || VisKeys[1] == vis;
    }
    if saved.Some? && saved.value.Dict? {
      var u := saved.value.entries;
      var merged := Merge(defaults, u);
      MergeCovers(defaults, u);
      if vis in u && u[vis].Dict? {
        var m := Merge(defaults[vis].entries, u[vis].entries);
        assert merged[vis] == MergedAt(defaults, u, vis) == Dict(m);
        assert Loaded(defaults, saved)[vis] == Dict(FillMissing(m, defaults[vis].entries));
        assert Covers(m, u[vis].entries);
        CoversExtended(m, FillMissing(m, defaults[vis].entries), u[vis].entries);
      }
    }
  }

  /** Adding keys never undoes coverage. */
  lemma CoversExtended(m: map<string, Value>, r: map<string, Value>, u: map<string, Value>)
    requires Covers(m, u)
    requires forall k :: k in m ==> k in r && r[k] == m[k]
    ensures Covers(r, u)
  {
  }

  /** The global `bind_vars` of config/settings_utils.py. */
  class BindVars {
    var vars: map<string, Value>

    constructor ()
      ensures vars == map[]
    {
      vars := map[];
    }

    /** `load_bind_vars`: reset to the defaults, merge the saved configuration, then
        restore the structure of the visibility sub-dictionaries. */
    method Load(defaults: map<string, Value>, saved: Option<Value>)
      requires Shaped(defaults)
      modifies this`vars
      ensures vars == Loaded(defaults, saved)
    {
      vars := defaults;
      if saved.Some? && saved.value.Dict? {
        vars := DeepUpdate(vars, saved.value.entries);
        for i := 0 to |VisKeys|
          invariant vars == (if i == 0 then Merge(defaults, saved.value.entries)
            else if i == 1 then Repaired(Merge(defaults, saved.value.entries), defaults, VisKeys[0])
            else Loaded(defaults, saved))
        {
          var vis := VisKeys[i];
          if vis in defaults {
            var sub := defaults[vis];
            if !(vis in vars && vars[vis].Dict?) {
              vars := vars[vis := sub];
            } else {
              var cur := AddMissing(vars[vis].entries, sub.entries);
              vars := vars[vis := Dict(cur)];
            }
          }
        }
      }
    }
  }

  /** The inner loop of the repair: each default subkey not present is added. */
  method AddMissing(cur: map<string, Value>, d: map<string, Value>) returns (r: map<string, Value>)
    ensures r == FillMissing(cur, d)
  {
    r := cur;
    var todo := d.Keys;
    while exists x :: x in todo
      invariant todo <= d.Keys
      invariant r.Keys == cur.Keys + (d.Keys - todo)
      invariant forall k :: k in r ==> r[k] == if k in cur then cur[k] else d[k]
      decreases todo
    {
      var key :| key in todo;
      if key !in r {
        r := r[key := d[key]];
      }
      todo := todo - {key};
    }
  }

  /** The bar position, "Top" when unset. */
  function BarPosition(vars: map<string, Value>): Value
  {
    if "bar_position" in vars then vars["bar_position"] else Str("Top")
  }

  /** The animation of `generate_hyprconf`: the vertical slide exactly for a bar on
      the left or right edge; an unset position counts as the top. */
  function AnimationType(vars: map<string, Value>): (name: string)
    ensures name == "slidefadevert" || name == "slidefade"
    ensures name == "slidefadevert" <==> BarPosition(vars) == Str("Left") || BarPosition(vars) == Str("Right")
    ensures "bar_position" !in vars ==> name == "slidefade"
  {
    var position := BarPosition(vars);
    if position == Str("Left") || position == Str("Right") then "slidefadevert" else "slidefade"
  }
}
