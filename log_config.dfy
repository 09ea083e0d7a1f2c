/** The log-record helpers of config/loguru_config.py: leading `[Tag]` prefixes are
    hoisted out of a message, repeated messages are rate limited, noisy Fabric
    messages are demoted and routed to the debug sink, GLib levels are mapped to
    loguru's, and each record gets a display group and name.

    Python's regular expressions and string methods are written out over `string`;
    letters are cased in ASCII only. */
module LogConfig {
  import opened Common

  // ---------- leading tags ----------

  /** The first `]` at or after `j`. */
  function CloseFrom(s: string, j: nat): (k: Option<nat>)
    ensures k.Some? ==> j <= k.value < |s|
    decreases |s| - j
  {
    if j >= |s| then None
    else if s[j] == ']' then Some(j)
    else CloseFrom(s, j + 1)
  }

  /** A tag as `\[(?!\.)[^]]+]` admits its contents: non-empty, free of `]` and not
      starting with `.`. */
  predicate ValidTag(t: string)
  {
    |t| > 0 && ']' !in t && t[0] != '.'
  }

  /** The tag `[c]` opening at `i`, if one does: the index just past its `]`. */
  function TagEnd(s: string, i: nat): (e: Option<nat>)
    ensures e.Some? ==> i + 3 <= e.value <= |s|
  {
    if i + 1 < |s| && s[i] == '[' && s[i + 1] != '.' && s[i + 1] != ']' then
      match CloseFrom(s, i + 1)
      case None => None
      case Some(k) => Some(k + 1)
    else None
  }

  /** The run of tags starting at `i`: their contents, in order, and the index just
      past the last one. */
  function TagRun(s: string, i: nat): (r: (seq<string>, nat))
    requires i <= |s|
    ensures i <= r.1 <= |s|
    ensures |r.0| == 0 <==> TagEnd(s, i).None?
    ensures |r.0| == 0 ==> r.1 == i
    decreases |s| - i
  {
    match TagEnd(s, i)
    case None => ([], i)
    case Some(e) =>
      var rest := TagRun(s, e);
      ([s[i + 1 .. e - 1]] + rest.0, rest.1)
  }

  /** The index past the whitespace (`\s*`) starting at `i`. */
  function SkipSpace(s: string, i: nat): (j: nat)
    requires i <= |s|
    ensures i <= j <= |s|
    decreases |s| - i
  {
    if i < |s| && IsSpace(s[i]) then SkipSpace(s, i + 1) else i
  }

  /** `_TAGS_RE.match` on what is left of the message from `i`: the tags of the
      leading run and the end of the whole match, the run with the whitespace after
      it; none when no tag opens at `i`. The contents that `re.findall` collects from
      the matched prefix are those of the run. */
  function MatchAt(s: string, i: nat): (m: Option<(seq<string>, nat)>)
    requires i <= |s|
    ensures m.None? <==> TagEnd(s, i).None?
    ensures m.Some? ==> |m.value.0| > 0 && i < m.value.1 <= |s|
  {
    if TagEnd(s, i).None? then None
    else
      var run := TagRun(s, i);
      Some((run.0, SkipSpace(s, run.1)))
  }

  /** Repeated matching from `i`: the tags collected and where the message left
      over starts, at which no tag opens. */
  function ExtractFrom(s: string, i: nat): (r: (seq<string>, nat))
    requires i <= |s|
    ensures i <= r.1 <= |s|
    ensures |r.0| == 0 <==> TagEnd(s, i).None?
    ensures |r.0| == 0 ==> r.1 == i
    ensures TagEnd(s, r.1).None?
    decreases |s| - i
  {
    match MatchAt(s, i)
    case None => ([], i)
    case Some(m) =>
      var rest := ExtractFrom(s, m.1);
      (m.0 + rest.0, rest.1)
  }

  /** The tags pulled off the front of a message, and what is left: the message
      itself when it does not start with a tag, and otherwise a proper suffix of it. */
  function Extracted(s: string): (r: (seq<string>, string))
    ensures |r.0| == 0 <==> TagEnd(s, 0).None?
    ensures |r.0| == 0 ==> r.1 == s
    ensures |r.0| > 0 ==> |r.1| < |s| && r.1 == s[|s| - |r.1|..]
  {
    var r := ExtractFrom(s, 0);
    (r.0, s[r.1..])
  }

  /** Where a tag opens does not depend on what comes before. */
  lemma {:induction false} CloseFromShift(s: string, j: nat, m: nat)
    requires j <= |s|
    ensures CloseFrom(s[j..], m) ==
      (match CloseFrom(s, j + m) case None => None case Some(k) => Some(k - j))
    decreases |s| - j - m
  {
    if j + m < |s| {
      assert s[j..][m] == s[j + m];
      CloseFromShift(s, j, m + 1);
    }
  }

  lemma TagEndShift(s: string, j: nat)
    requires j <= |s|
    ensures TagEnd(s[j..], 0).None? <==> TagEnd(s, j).None?
  {
    CloseFromShift(s, j, 1);
    if j + 1 < |s| {
      assert s[j..][0] == s[j] && s[j..][1] == s[j + 1];
    }
  }

  /** Extraction is idempotent: the cleaned message yields no further tags. */
  lemma ExtractedIdempotent(s: string)
    ensures Extracted(Extracted(s).1) == ([], Extracted(s).1)
  {
    var r := ExtractFrom(s, 0);
    TagEndShift(s, r.1);
  }

  /** A prefix such as `[.KSL]` is not a tag: the message is kept whole. */
  lemma DotPrefixKept(s: string)
    requires |s| >= 2 && s[0] == '[' && s[1] == '.'
    ensures Extracted(s) == ([], s)
  {
  }

  /** The tags written as a prefix, `[t1][t2]...`. */
  function Bracketed(tags: seq<string>): (b: string)
    ensures |tags| > 0 ==> |b| > 0 && b[0] == '['
  {
    if |tags| == 0 then "" else "[" + tags[0] + "]" + Bracketed(tags[1..])
  }

  lemma {:induction false} CloseFromAt(s: string, j: nat, k: nat)
    requires j <= k < |s| && s[k] == ']' && ']' !in s[j..k]
    ensures CloseFrom(s, j) == Some(k)
    decreases k - j
  {
    if j < k {
      assert s[j] == s[j..k][0];
      assert s[j + 1..k] == s[j..k][1..];
      CloseFromAt(s, j + 1, k);
    }
  }

  /** One written bracket `[t]` at `i` is a tag with contents `t`. */
  lemma OneBracket(s: string, i: nat, t: string)
    requires ValidTag(t) && i + |t| + 2 <= |s| && s[i..i + |t| + 2] == "[" + t + "]"
    ensures TagEnd(s, i) == Some(i + |t| + 2) && s[i + 1..i + |t| + 1] == t
  {
    var w := s[i..i + |t| + 2];
    assert s[i] == w[0] && s[i + 1] == w[1] && s[i + |t| + 1] == w[|t| + 1];
    assert w[1..|t| + 1] == t;
    forall k | 0 <= k < |t|
      ensures s[i + 1..i + |t| + 1][k] == t[k]
    {
      assert s[i + 1 + k] == w[1 + k];
    }
    CloseFromAt(s, i + 1, i + |t| + 1);
  }

  lemma SliceSplit(s: string, i: nat, x: string, y: string)
    requires i + |x| + |y| <= |s| && s[i..i + |x| + |y|] == x + y
    ensures s[i..i + |x|] == x && s[i + |x|..i + |x| + |y|] == y
  {
    assert s[i..i + |x|] == s[i..i + |x| + |y|][..|x|];
    assert s[i + |x|..i + |x| + |y|] == s[i..i + |x| + |y|][|x|..];
  }

  /** Written brackets start with the first tag's bracket, followed by those of the
      other tags. */
  lemma FirstBracket(s: string, i: nat, tags: seq<string>)
    requires |tags| > 0 && ValidTag(tags[0])
    requires i + |Bracketed(tags)| <= |s| && s[i..i + |Bracketed(tags)|] == Bracketed(tags)
    ensures var e := i + |tags[0]| + 2;
      TagEnd(s, i) == Some(e) && s[i + 1..e - 1] == tags[0] &&
      e + |Bracketed(tags[1..])| == i + |Bracketed(tags)| &&
      s[e..e + |Bracketed(tags[1..])|] == Bracketed(tags[1..])
  {
    var t, more := tags[0], tags[1..];
    var head, tail := "[" + t + "]", Bracketed(more);
    assert Bracketed(tags) == head + tail;
    assert |head| == |t| + 2 && |Bracketed(tags)| == |t| + 2 + |tail|;
    SliceSplit(s, i, head, tail);
    OneBracket(s, i, t);
  }

  /** The tags `tags` open one after the other from `i`, and no tag follows them. */
  ghost predicate TagsAt(s: string, i: nat, tags: seq<string>)
    decreases |tags|
  {
    i <= |s| &&
    if |tags| == 0 then TagEnd(s, i).None?
    else
      var e := i + |tags[0]| + 2;
      e <= |s| && TagEnd(s, i) == Some(e) && s[i + 1..e - 1] == tags[0] && TagsAt(s, e, tags[1..])
  }

  /** Reading a run whose first tag is `t`, ending at `e`. */
  lemma TagRunStep(s: string, i: nat, e: nat, t: string)
    requires i <= |s| && TagEnd(s, i) == Some(e) && s[i + 1..e - 1] == t
    ensures TagRun(s, i) == ([t] + TagRun(s, e).0, TagRun(s, e).1)
  {
  }

  /** The run read from tags that open one after the other is those tags. */
  lemma {:induction false} TagRunAt(s: string, i: nat, tags: seq<string>)
    requires TagsAt(s, i, tags)
    ensures TagRun(s, i) == (tags, i + |Bracketed(tags)|)
    decreases |tags|
  {
    if |tags| > 0 {
      var t, more := tags[0], tags[1..];
      var e := i + |t| + 2;
      TagRunAt(s, e, more);
      TagRunStep(s, i, e, t);
      assert Bracketed(tags) == "[" + t + "]" + Bracketed(more);
      assert tags == [t] + more;
    }
  }

  /** Written brackets, with no tag after them, open one after the other. */
  lemma {:induction false} WrittenTagsAt(s: string, i: nat, tags: seq<string>)
    requires forall n :: 0 <= n < |tags| ==> ValidTag(tags[n])
    requires i + |Bracketed(tags)| <= |s| && s[i..i + |Bracketed(tags)|] == Bracketed(tags)
    requires TagEnd(s, i + |Bracketed(tags)|).None?
    ensures TagsAt(s, i, tags)
    decreases |tags|
  {
    if |tags| > 0 {
      var more := tags[1..];
      FirstBracket(s, i, tags);
      assert forall n :: 0 <= n < |more| ==> ValidTag(more[n]) by {
        forall n | 0 <= n < |more| ensures ValidTag(more[n]) {
          assert more[n] == tags[n + 1];
        }
      }
      WrittenTagsAt(s, i + |tags[0]| + 2, more);
    } else {
      assert Bracketed(tags) == "";
    }
  }

  /** The run of tags read from written brackets gives back those tags. */
  lemma TagRunOf(s: string, i: nat, tags: seq<string>)
    requires forall n :: 0 <= n < |tags| ==> ValidTag(tags[n])
    requires i + |Bracketed(tags)| <= |s| && s[i..i + |Bracketed(tags)|] == Bracketed(tags)
    requires TagEnd(s, i + |Bracketed(tags)|).None?
    ensures TagRun(s, i) == (tags, i + |Bracketed(tags)|)
  {
    WrittenTagsAt(s, i, tags);
    TagRunAt(s, i, tags);
  }

  lemma {:induction false} SkipSpaceOver(s: string, i: nat, n: nat)
    requires i + n <= |s|
    requires forall m :: i <= m < i + n ==> IsSpace(s[m])
    requires i + n < |s| ==> !IsSpace(s[i + n])
    ensures SkipSpace(s, i) == i + n
    decreases n
  {
    if n > 0 {
      SkipSpaceOver(s, i + 1, n - 1);
    }
  }

  /** Round trip: tags written as brackets, then whitespace, then a message that
      starts with neither a space nor a tag, give back exactly those tags and that
      message. */
  lemma ExtractedOfBracketed(tags: seq<string>, ws: string, rest: string)
    requires |tags| > 0 && forall n :: 0 <= n < |tags| ==> ValidTag(tags[n])
    requires forall n :: 0 <= n < |ws| ==> IsSpace(ws[n])
    requires |rest| > 0 ==> !IsSpace(rest[0])
    requires TagEnd(rest, 0).None?
    ensures Extracted(Bracketed(tags) + ws + rest) == (tags, rest)
  {
    ThreeParts(Bracketed(tags), ws, rest);
    ExtractedOfParts(Bracketed(tags) + ws + rest, tags, ws, rest);
  }

  lemma ThreeParts(a: string, b: string, c: string)
    ensures (a + b + c)[0..|a|] == a && (a + b + c)[|a|..|a| + |b|] == b && (a + b + c)[|a| + |b|..] == c
  {
  }

  lemma ExtractedOfParts(s: string, tags: seq<string>, ws: string, rest: string)
    requires |tags| > 0 && forall n :: 0 <= n < |tags| ==> ValidTag(tags[n])
    requires forall n :: 0 <= n < |ws| ==> IsSpace(ws[n])
    requires |rest| > 0 ==> !IsSpace(rest[0])
    requires TagEnd(rest, 0).None?
    requires |Bracketed(tags)| + |ws| <= |s|
    requires s[0..|Bracketed(tags)|] == Bracketed(tags)
    requires s[|Bracketed(tags)|..|Bracketed(tags)| + |ws|] == ws
    requires s[|Bracketed(tags)| + |ws|..] == rest
    ensures Extracted(s) == (tags, rest)
  {
    var b := |Bracketed(tags)|;
    var e := b + |ws|;
    TagEndShift(s, e);
    RunOfParts(s, tags, ws);
    SpacesOfParts(s, b, ws, rest);
    MatchOfRun(s, tags, b, e);
    assert ExtractFrom(s, e) == ([], e);
    assert tags + [] == tags;
  }

  lemma RunOfParts(s: string, tags: seq<string>, ws: string)
    requires forall n :: 0 <= n < |tags| ==> ValidTag(tags[n])
    requires |ws| > 0 ==> IsSpace(ws[0])
    requires |Bracketed(tags)| + |ws| <= |s|
    requires s[0..|Bracketed(tags)|] == Bracketed(tags)
    requires s[|Bracketed(tags)|..|Bracketed(tags)| + |ws|] == ws
    requires TagEnd(s, |Bracketed(tags)| + |ws|).None?
    ensures TagRun(s, 0) == (tags, |Bracketed(tags)|)
  {
    if |ws| > 0 {
      assert s[|Bracketed(tags)|] == ws[0];
    }
    TagRunOf(s, 0, tags);
  }

  lemma SpacesOfParts(s: string, b: nat, ws: string, rest: string)
    requires forall n :: 0 <= n < |ws| ==> IsSpace(ws[n])
    requires |rest| > 0 ==> !IsSpace(rest[0])
    requires b + |ws| <= |s| && s[b..b + |ws|] == ws && s[b + |ws|..] == rest
    ensures SkipSpace(s, b) == b + |ws|
  {
    forall m | b <= m < b + |ws|
      ensures IsSpace(s[m])
    {
      assert s[m] == s[b..b + |ws|][m - b];
    }
    if b + |ws| < |s| {
      assert s[b + |ws|] == rest[0];
    }
    SkipSpaceOver(s, b, |ws|);
  }

  lemma MatchOfRun(s: string, tags: seq<string>, b: nat, e: nat)
    requires b <= |s| && TagRun(s, 0) == (tags, b) && |tags| > 0 && SkipSpace(s, b) == e
    ensures MatchAt(s, 0) == Some((tags, e))
  {
  }

  /** "[Audio][Microphone] x" thus gives the tag "Audio/Microphone" and the message
      "x". */
  lemma ExtractedExample()
    ensures Extracted("[Audio][Microphone] x") == (["Audio", "Microphone"], "x")
  {
    var tags := ["Audio", "Microphone"];
    assert Bracketed(tags) == "[Audio][Microphone]" by {
      assert tags[1..] == ["Microphone"] && tags[1..][1..] == [];
    }
    assert "[Audio][Microphone] x" == Bracketed(tags) + " " + "x";
    ExtractedOfBracketed(tags, " ", "x");
  }

  // ---------- the record ----------

  /** The `extra` dictionary of a record, by the keys the helpers use. */
  datatype Extra = Extra(boundName: Option<string>, tag: Option<string>, demoted: bool,
                         displayGroup: Option<string>, displayName: Option<string>)

  const InfoNo := 20
  const DebugNo := 10

  /** `_is_noisy_fabric`: three phrases matched in any case, and one matched as
      written. */
  predicate IsNoisy(msg: string)
  {
    var low := Lower(msg);
    Contains(low, "adding stream ") || Contains(low, "changing default speaker to") ||
    Contains(low, "changing default microphone to") || Contains(msg, "Activated window ")
  }

  /** `_info_sink_filter`. */
  predicate InfoSinkFilter(msg: string) { !IsNoisy(msg) }

  /** `_debug_only_fabric_filter`. */
  predicate DebugOnlyFabricFilter(msg: string) { IsNoisy(msg) }

  /** Every record goes to exactly one of the two sinks. */
  lemma FiltersComplement(msg: string)
    ensures InfoSinkFilter(msg) != DebugOnlyFabricFilter(msg)
  {
  }

  /** The three phrases ignore case: messages equal up to case are noisy alike,
      unless one of them holds "Activated window ". */
  lemma NoisyIgnoresCase(m1: string, m2: string)
    requires Lower(m1) == Lower(m2)
    requires !Contains(m1, "Activated window ") && !Contains(m2, "Activated window ")
    ensures IsNoisy(m1) == IsNoisy(m2)
  {
  }

  /** The first of the `.`-separated parts of a name, `name.split(".")[0]`. */
  function FirstIndex(s: string, c: char): (i: nat)
    requires c in s
    ensures i < |s| && s[i] == c && c !in s[..i]
  {
    if s[0] == c then 0
    else
      assert s[1..][..FirstIndex(s[1..], c)] == s[1..FirstIndex(s[1..], c) + 1];
      FirstIndex(s[1..], c) + 1
  }

  /** `s.split(sep)` for a one-character separator: never empty, no part holds the
      separator, and joining the parts with it gives `s` back. */
  function Split(s: string, sep: char): (parts: seq<string>)
    ensures |parts| >= 1
    ensures forall i :: 0 <= i < |parts| ==> sep !in parts[i]
    ensures Join([sep], parts) == s
    decreases |s|
  {
    if sep !in s then [s]
    else
      var i := FirstIndex(s, sep);
      var rest := Split(s[i + 1..], sep);
      assert s == s[..i] + [sep] + s[i + 1..];
      [s[..i]] + rest
  }

  predicate IsCased(c: char) { IsAsciiUpper(c) || IsAsciiLower(c) }

  /** `str.capitalize()`: the first character upper case, the rest lower case. */
  function Capitalize(s: string): (r: string)
    ensures |r| == |s|
    ensures |s| > 0 ==> r[0] == UpperChar(s[0]) && r[1..] == Lower(s[1..])
  {
    if |s| == 0 then "" else [UpperChar(s[0])] + Lower(s[1..])
  }

  /** `str.title()`: a cased character is upper case when no cased character comes
      right before it, and lower case otherwise. */
  function Title(s: string): (r: string)
    ensures |r| == |s|
    ensures |s| > 0 ==> r[0] == UpperChar(s[0])
    ensures forall i :: 0 < i < |s| ==> r[i] == (if IsCased(s[i - 1]) then LowerChar(s[i]) else UpperChar(s[i]))
  {
    TitleFrom(s, false)
  }

  function TitleFrom(s: string, afterCased: bool): (r: string)
    ensures |r| == |s|
    ensures |s| > 0 ==> r[0] == (if afterCased then LowerChar(s[0]) else UpperChar(s[0]))
    ensures forall i :: 0 < i < |s| ==> r[i] == (if IsCased(s[i - 1]) then LowerChar(s[i]) else UpperChar(s[i]))
    decreases |s|
  {
    if |s| == 0 then ""
    else [if afterCased then LowerChar(s[0]) else UpperChar(s[0])] + TitleFrom(s[1..], IsCased(s[0]))
  }

  /** `s.replace("_", " ")`. */
  function Underscores(s: string): (r: string)
    ensures |r| == |s| && '_' !in r
    ensures forall i :: 0 <= i < |s| && s[i] != '_' ==> r[i] == s[i]
  {
    seq(|s|, i requires 0 <= i < |s| => if s[i] == '_' then ' ' else s[i])
  }

  /** `GROUP_MAP`. */
  function GroupOf(root: string): Option<string>
  {
    if root == "widgets" then Some("Widget")
    else if root == "services" then Some("Service")
    else if root == "fabric" then Some("Fabric")
    else if root == "config" then Some("Config")
    else if root == "logging" then Some("Logging")
    else if root == "__main__" then Some("Main")
    else None
  }

  /** The display group: the tag for a top-level script that carries one, else the
      group of the module's first part, else that part capitalised. */
  function DisplayGroup(name: string, tag: string): (g: string)
    ensures Split(name, '.')[0] == "__main__" && tag != "-" ==> g == tag
    ensures !(Split(name, '.')[0] == "__main__" && tag != "-") && GroupOf(Split(name, '.')[0]).Some? ==>
      g == GroupOf(Split(name, '.')[0]).value
    ensures GroupOf(Split(name, '.')[0]).None? ==> g == Capitalize(Split(name, '.')[0])
  {
    var root := Split(name, '.')[0];
    if root == "__main__" && tag != "-" then tag
    else match GroupOf(root)
      case Some(g) => g
      case None => Capitalize(root)
  }

  /** The first part of a split ends at the first separator. */
  lemma SplitHead(s: string, sep: char, i: nat)
    requires i < |s| && s[i] == sep && sep !in s[..i]
    ensures Split(s, sep)[0] == s[..i]
  {
    var j := FirstIndex(s, sep);
    assert forall k | 0 <= k < j :: s[..j][k] == s[k];
  }

  /** A mapped root gets its group (line 86): a service module shows "Service". */
  lemma ServiceGroup()
    ensures DisplayGroup("services.brightness", "-") == "Service"
  {
    var a := "services.brightness";
    assert a[..8] == "services";
    SplitHead(a, '.', 8);
  }

  /** The top-level script shows its tag unless the tag is the default "-"
      (lines 86 and 90-91). */
  lemma MainGroup()
    ensures DisplayGroup("__main__", "-") == "Main"
    ensures DisplayGroup("__main__", "Audio") == "Audio"
  {
    assert '.' !in "__main__";
  }

  /** The component: the module's second part, or its only part, in title case with
      underscores as spaces. */
  function Component(name: string): string
  {
    var parts := Split(name, '.');
    Title(Underscores(if |parts| > 1 then parts[1] else parts[|parts| - 1]))
  }

  /** The display name: a bound name that is not the module's own, else the tag when
      there is one, else the component. */
  function DisplayName(name: string, boundName: Option<string>, tag: string): (d: string)
    ensures boundName.Some? && boundName.value != "" && boundName.value != name ==> d == boundName.value
    ensures !(boundName.Some? && boundName.value != "" && boundName.value != name) ==>
      d == (if tag != "-" then tag else Component(name))
  {
    if boundName.Some? && boundName.value != "" && boundName.value != name then boundName.value
    else if tag != "-" then tag
    else Component(name)
  }

  /** A record as the patcher sees it. */
  class Record {
    const name: string
    var message: string
    var levelName: string
    var levelNo: int
    var extra: Extra

    constructor (name: string, message: string, levelName: string, levelNo: int, extra: Extra)
      ensures this.name == name && this.message == message && this.levelName == levelName
      ensures this.levelNo == levelNo && this.extra == extra
    {
      this.name := name;
      this.message := message;
      this.levelName := levelName;
      this.levelNo := levelNo;
      this.extra := extra;
    }

    /** `_maybe_demote_info_to_debug`: a noisy INFO record becomes DEBUG and is marked;
        any other record is left alone. */
    method MaybeDemote()
      modifies this`levelName, this`levelNo, this`extra
      ensures old(levelNo) == InfoNo && IsNoisy(message) ==>
        levelName == "DEBUG" && levelNo == DebugNo && extra == old(extra).(demoted := true)
      ensures !(old(levelNo) == InfoNo && IsNoisy(message)) ==>
        levelName == old(levelName) && levelNo == old(levelNo) && extra == old(extra)
    {
      if levelNo == InfoNo && IsNoisy(message) {
        levelName := "DEBUG";
        levelNo := DebugNo;
        extra := extra.(demoted := true);
      }
    }

    /** `_extract_tags_and_clean_message`: while the message starts with tags, they
        are collected and the matched prefix dropped; when any were found, they become
        the tag, joined with "/", and the message is what is left. */
    method ExtractTags()
      modifies this`message, this`extra
      ensures |Extracted(old(message)).0| == 0 ==> message == old(message) && extra == old(extra)
      ensures |Extracted(old(message)).0| > 0 ==>
        message == Extracted(old(message)).1 &&
        extra == old(extra).(tag := Some(Join("/", Extracted(old(message)).0)))
    {
      var pos := 0;
      var tags: seq<string> := [];
      var m := MatchAt(message, pos);
      assert [] + ExtractFrom(message, 0).0 == ExtractFrom(message, 0).0;
      while m.Some?
        invariant pos <= |message| && m == MatchAt(message, pos)
        invariant ExtractFrom(message, 0) == (tags + ExtractFrom(message, pos).0, ExtractFrom(message, pos).1)
        invariant |tags| == 0 ==> pos == 0
        invariant message == old(message) && extra == old(extra)
        decreases |message| - pos
      {
        assert tags + (m.value.0 + ExtractFrom(message, m.value.1).0) ==
          (tags + m.value.0) + ExtractFrom(message, m.value.1).0;
        tags := tags + m.value.0;
        pos := m.value.1;
        m := MatchAt(message, pos);
      }
      assert tags + [] == tags;
      if |tags| > 0 {
        extra := extra.(tag := Some(Join("/", tags)));
        message := message[pos..];
      }
    }

    /** `_patch`: demote, default the tag to "-", hoist leading tags, then set the
        display group and name from the module name, the bound name and the tag. */
    method Patch()
      modifies this`levelName, this`levelNo, this`extra, this`message
      ensures old(levelNo) == InfoNo && IsNoisy(old(message)) ==>
        levelName == "DEBUG" && levelNo == DebugNo && extra.demoted
      ensures !(old(levelNo) == InfoNo && IsNoisy(old(message))) ==>
        levelName == old(levelName) && levelNo == old(levelNo) && extra.demoted == old(extra).demoted
      ensures extra.boundName == old(extra).boundName
      ensures extra.tag.Some?
      ensures extra.tag.value == (if |Extracted(old(message)).0| > 0 then Join("/", Extracted(old(message)).0)
        else if old(extra).tag.Some? then old(extra).tag.value else "-")
      ensures message == Extracted(old(message)).1
      ensures extra.displayGroup == Some(DisplayGroup(name, extra.tag.value))
      ensures extra.displayName == Some(DisplayName(name, old(extra).boundName, extra.tag.value))
    {
      MaybeDemote();
      if extra.tag.None? {
        extra := extra.(tag := Some("-"));
      }
      ExtractTags();
      var tag := extra.tag.value;
      extra := extra.(displayGroup := Some(DisplayGroup(name, tag)),
                      displayName := Some(DisplayName(name, extra.boundName, tag)));
    }
  }

  // ---------- the rate limiter ----------

  /** The call site and text of a record: the key of `_LAST_SEEN`. */
  datatype Site = Site(moduleName: string, functionName: string, line: int, message: string)

  /** `_should_emit`'s verdict: a first sighting, or one more than the window after
      the last sighting of the same key. */
  predicate Admits(lastSeen: map<Site, int>, key: Site, now: int, windowMs: int)
  {
    key !in lastSeen || now - lastSeen[key] > windowMs
  }

  /** The verdicts on a run of sightings of one key at the given times; every sighting
      updates the last-seen time, suppressed or not. */
  function Verdicts(lastSeen: map<Site, int>, key: Site, times: seq<int>, windowMs: int): (v: seq<bool>)
    ensures |v| == |times|
    ensures |times| > 0 ==> v[0] == Admits(lastSeen, key, times[0], windowMs)
    decreases |times|
  {
    if |times| == 0 then []
    else
      var first := Admits(lastSeen, key, times[0], windowMs);
      [first] + Verdicts(lastSeen[key := times[0]], key, times[1..], windowMs)
  }

  /** A steady stream of one message, each no more than the window after the one
      before, is printed at most once, at its start: suppressed sightings still
      refresh the last-seen time. */
  lemma {:induction false} StreamPrintedOnce(lastSeen: map<Site, int>, key: Site, times: seq<int>, windowMs: int)
    requires forall i :: 0 < i < |times| ==> times[i] - times[i - 1] <= windowMs
    ensures forall i :: 0 < i < |times| ==> !Verdicts(lastSeen, key, times, windowMs)[i]
    decreases |times|
  {
    if |times| > 1 {
      var rest := times[1..];
      StreamPrintedOnce(lastSeen[key := times[0]], key, rest, windowMs);
      var v := Verdicts(lastSeen, key, times, windowMs);
      assert v == [Admits(lastSeen, key, times[0], windowMs)] + Verdicts(lastSeen[key := times[0]], key, rest, windowMs);
      assert !v[1];
    }
  }

  /** `_LAST_SEEN` and `_should_emit`; the clock is the `now` parameter. */
  class RateLimiter {
    var lastSeen: map<Site, int>

    constructor ()
      ensures lastSeen == map[]
    {
      lastSeen := map[];
    }

    method ShouldEmit(key: Site, now: int, windowMs: int) returns (emit: bool)
      modifies this`lastSeen
      ensures emit == Admits(old(lastSeen), key, now, windowMs)
      ensures lastSeen == old(lastSeen)[key := now]
    {
      var last: Option<int> := if key in lastSeen then Some(lastSeen[key]) else None;
      lastSeen := lastSeen[key := now];
      emit := last.None? || now - last.value > windowMs;
    }
  }

  // ---------- GLib levels ----------

  const LevelError: bv32 := 4
  const LevelCritical: bv32 := 8
  const LevelWarning: bv32 := 16
  const LevelMessage: bv32 := 32
  const LevelInfo: bv32 := 64
  const LevelDebug: bv32 := 128
  /** Every level bit, without the recursion and fatal flags. */
  const LevelMask: bv32 := 0xFFFF_FFFC

  /** `_glib_level_to_loguru`: the first level flag set, from the most severe;
      "UNKNOWN" without GLib. */
  function GlibLevelName(haveGlib: bool, level: bv32): (name: string)
    ensures !haveGlib <==> name == "UNKNOWN"
  {
    if !haveGlib then "UNKNOWN"
    else if level & LevelError != 0 then "ERROR"
    else if level & LevelCritical != 0 then "CRITICAL"
    else if level & LevelWarning != 0 then "WARNING"
    else if level & LevelMessage != 0 then "INFO"
    else if level & LevelInfo != 0 then "INFO"
    else if level & LevelDebug != 0 then "DEBUG"
    else if level & LevelMask != 0 then "TRACE"
    else "WARNING"
  }

  /** With GLib present the answer is a loguru level; "TRACE" is given exactly to
      levels that carry only bits above the standard ones, and "WARNING" without the
      warning flag only to levels with no level bit at all. */
  lemma GlibLevelCases(level: bv32)
    ensures GlibLevelName(true, level) in {"ERROR", "CRITICAL", "WARNING", "INFO", "DEBUG", "TRACE"}
    ensures GlibLevelName(true, level) == "TRACE" <==> level & 0xFC == 0 && level >= 256
    ensures GlibLevelName(true, level) == "WARNING" && level & LevelWarning == 0 ==> level < 4
  {
  }
}
