/** The text helpers of the brightness service (services/brightness.py): removing ANSI
    colour sequences, reading bus numbers out of `ddcutil detect`, reading the current
    and maximum brightness out of `ddcutil getvcp` in its two layouts, and prefixing a
    command with coreutils `timeout`.

    The regular expressions of the source are written out as deterministic matchers.
    Each greedy run in them (`\s*`, `\s+`, `\d+`, `[0-9;]*`) is followed by a character
    the run cannot take, so backtracking never changes the match, and every matcher
    below takes the longest run. `\s` and `\d` are restricted to ASCII. */
module DdcText {
  import opened Common
  import opened CommandQueue

  // ---------- runs of characters ----------

  /** Index just past the longest run of characters satisfying `p` from `i` on. */
  function SpanEnd(s: string, i: nat, p: char -> bool): (j: nat)
    requires i <= |s|
    ensures i <= j <= |s|
    ensures forall k :: i <= k < j ==> p(s[k])
    ensures j < |s| ==> !p(s[j])
    decreases |s| - i
  {
    if i == |s| || !p(s[i]) then i else SpanEnd(s, i + 1, p)
  }

  /** The run end is the only index with those properties. */
  lemma SpanEndUnique(s: string, i: nat, p: char -> bool, j: nat)
    requires i <= j <= |s|
    requires forall k :: i <= k < j ==> p(s[k])
    requires j < |s| ==> !p(s[j])
    ensures SpanEnd(s, i, p) == j
  {
    var e := SpanEnd(s, i, p);
  }

  function Spaces(s: string, i: nat): (j: nat)
    requires i <= |s|
    ensures i <= j <= |s|
  {
    SpanEnd(s, i, IsSpace)
  }

  function DigitsEnd(s: string, i: nat): (j: nat)
    requires i <= |s|
    ensures i <= j <= |s| && AllDigits(s[i..j])
  {
    var j := SpanEnd(s, i, IsDigit);
    assert forall k :: 0 <= k < j - i ==> s[i..j][k] == s[i + k];
    j
  }

  /** The decimal number written at `s[i..]`, with the index just past it. */
  function NumberAt(s: string, i: nat): Option<(nat, nat)>
    requires i <= |s|
  {
    var j := DigitsEnd(s, i);
    if j == i then None else Some((j, ParseNat(s[i..j])))
  }

  /** A non-empty run of ASCII digits, as `str` writes a natural number. */
  predicate IsNumeral(w: string) { |w| > 0 && AllDigits(w) }

  lemma LiteralAt(pre: string, lit: string, post: string)
    ensures (pre + lit + post)[|pre|..|pre| + |lit|] == lit
    ensures forall k :: 0 <= k < |lit| ==> (pre + lit + post)[|pre| + k] == lit[k]
  {
  }

  /** A numeral standing at `s[i..]` and not followed by a digit is read as one
      number. */
  lemma NumberAtSlice(s: string, i: nat, w: string)
    requires IsNumeral(w) && i + |w| <= |s| && s[i..i + |w|] == w
    requires i + |w| < |s| ==> !IsDigit(s[i + |w|])
    ensures NumberAt(s, i) == Some((i + |w|, ParseNat(w)))
  {
    assert forall k :: i <= k < i + |w| ==> s[k] == w[k - i];
    SpanEndUnique(s, i, IsDigit, i + |w|);
  }

  /** A numeral followed by a non-digit is read back whole. */
  lemma NumberAtWritten(pre: string, w: string, post: string)
    requires IsNumeral(w)
    requires |post| == 0 || !IsDigit(post[0])
    ensures NumberAt(pre + w + post, |pre|) == Some((|pre| + |w|, ParseNat(w)))
  {
    LiteralAt(pre, w, post);
    NumberAtSlice(pre + w + post, |pre|, w);
  }

  /** `s[i..]` starts with `lit`. */
  predicate LitAt(s: string, i: nat, lit: string)
  {
    i + |lit| <= |s| && s[i..i + |lit|] == lit
  }

  /** `s[i..]` starts with the lower-case `lit`, ignoring ASCII case (`re.I`). */
  predicate LitAtIgnoreCase(s: string, i: nat, lit: string)
  {
    i + |lit| <= |s| && Lower(s[i..i + |lit|]) == lit
  }

  lemma LowerOfLower(s: string)
    requires forall k :: 0 <= k < |s| ==> !IsAsciiUpper(s[k])
    ensures Lower(s) == s
  {
  }

  // ---------- _strip_ansi ----------

  const Esc: char := '\U{1B}'

  predicate IsSgrParam(c: char) { IsDigit(c) || c == ';' }

  /** Length of the colour sequence `ESC [ [0-9;]* m` that starts `s`, or 0. */
  function SgrLength(s: string): (n: nat)
    ensures n == 0 || 3 <= n <= |s|
  {
    if |s| >= 2 && s[0] == Esc && s[1] == '[' then
      var j := SpanEnd(s, 2, IsSgrParam);
      if j < |s| && s[j] == 'm' then j + 1 else 0
    else 0
  }

  /** `ANSI_RE.sub("", s)`: every colour sequence removed, scanning left to right. */
  function StripAnsi(s: string): (r: string)
    ensures |r| <= |s|
    decreases |s|
  {
    if |s| == 0 then ""
    else
      var n := SgrLength(s);
      if n > 0 then StripAnsi(s[n..]) else [s[0]] + StripAnsi(s[1..])
  }

  /** Text without an escape character passes through unchanged. */
  lemma {:induction false} StripAnsiPlain(s: string)
    requires forall k :: 0 <= k < |s| ==> s[k] != Esc
    ensures StripAnsi(s) == s
    decreases |s|
  {
    if |s| > 0 {
      StripAnsiPlain(s[1..]);
      assert [s[0]] + s[1..] == s;
    }
  }

  /** A colour sequence in front of the text is removed. */
  lemma StripAnsiDropsSgr(params: string, t: string)
    requires forall k :: 0 <= k < |params| ==> IsSgrParam(params[k])
    ensures StripAnsi([Esc, '['] + params + ['m'] + t) == StripAnsi(t)
  {
    var s := [Esc, '['] + params + ['m'] + t;
    var j := 2 + |params|;
    assert forall k :: 0 <= k < |params| ==> s[2 + k] == params[k];
    assert s[j] == 'm';
    SpanEndUnique(s, 2, IsSgrParam, j);
    assert s[j + 1..] == t;
  }

  /** Stripping only removes characters: every character of the result, escape
      characters included, occurs at least as often in the input. */
  lemma {:induction false} StripAnsiOnlyRemoves(s: string)
    ensures multiset(StripAnsi(s)) <= multiset(s)
    ensures multiset(StripAnsi(s))[Esc] <= multiset(s)[Esc]
    decreases |s|
  {
    if |s| > 0 {
      var n := SgrLength(s);
      if n > 0 {
        StripAnsiOnlyRemoves(s[n..]);
        assert s == s[..n] + s[n..];
      } else {
        StripAnsiOnlyRemoves(s[1..]);
        assert s == [s[0]] + s[1..];
      }
    }
  }

  // ---------- lock markers ----------

  /** The three phrases `ddcutil` prints when it could not take the bus lock. */
  predicate HasLockMarker(out: string)
  {
    Contains(out, "flock()") || Contains(out, "Flock diagnostics") || Contains(out, "Max wait time")
  }

  // ---------- _parse_detect_output ----------

  /** The characters `str.splitlines` breaks at. */
  predicate IsLineBreak(c: char)
  {
    c == '\n' || c == '\r' || c == '\U{B}' || c == '\U{C}' || '\U{1C}' <= c <= '\U{1E}' ||
    c == '\U{85}' || c == '\U{2028}' || c == '\U{2029}'
  }

  predicate NotLineBreak(c: char) { !IsLineBreak(c) }

  /** `s[i..].splitlines()`: a trailing break ends the last line, `\r\n` is one break. */
  function LinesFrom(s: string, i: nat): (ls: seq<string>)
    requires i <= |s|
    ensures forall l :: l in ls ==> forall k :: 0 <= k < |l| ==> !IsLineBreak(l[k])
    decreases |s| - i
  {
    if i == |s| then []
    else
      var e := SpanEnd(s, i, NotLineBreak);
      var line := s[i..e];
      assert forall k :: 0 <= k < |line| ==> line[k] == s[i + k];
      if e == |s| then [line]
      else
        var next := if s[e] == '\r' && e + 1 < |s| && s[e + 1] == '\n' then e + 2 else e + 1;
        [line] + LinesFrom(s, next)
  }

  function Lines(s: string): seq<string> { LinesFrom(s, 0) }

  // The bus pattern `I2C\s+bus:\s*` then `/dev/i2c-(\d+)`, ignoring case, matched
  // stage by stage.

  /** `/dev/i2c-(\d+)` at `s[b..]`. */
  function DevNumber(s: string, b: nat): Option<nat>
    requires b <= |s|
  {
    if !LitAtIgnoreCase(s, b, "/dev/i2c-") then None
    else match NumberAt(s, b + 9)
      case None => None
      case Some((_, n)) => Some(n)
  }

  /** `\s+bus:\s*` and the device path, at `s[x..]`. */
  function BusField(s: string, x: nat): Option<nat>
    requires x <= |s|
  {
    var a := Spaces(s, x);
    if a == x || !LitAtIgnoreCase(s, a, "bus:") then None else DevNumber(s, Spaces(s, a + 4))
  }

  /** The whole bus pattern at `s[i..]`: the bus number. */
  function DetectAt(s: string, i: nat): Option<nat>
    requires i <= |s|
  {
    if !LitAtIgnoreCase(s, i, "i2c") then None else BusField(s, i + 3)
  }

  /** `re.search`: the leftmost match at or after `i`. */
  function FirstDetect(s: string, i: nat): Option<nat>
    requires i <= |s|
    decreases |s| - i
  {
    var here := DetectAt(s, i);
    if here.Some? || i == |s| then here else FirstDetect(s, i + 1)
  }

  /** The bus number found on each line, in line order; lines without one add nothing. */
  function LineBuses(lines: seq<string>): seq<nat>
    decreases |lines|
  {
    if |lines| == 0 then []
    else
      var front := LineBuses(lines[..|lines| - 1]);
      match FirstDetect(lines[|lines| - 1], 0)
      case None => front
      case Some(b) => front + [b]
  }

  /** Keeps the first occurrence of every value, in order. */
  function Dedup(s: seq<nat>): seq<nat>
    decreases |s|
  {
    if |s| == 0 then []
    else
      var d := Dedup(s[..|s| - 1]);
      if s[|s| - 1] in d then d else d + [s[|s| - 1]]
  }

  /** `_parse_detect_output`. */
  method ParseDetectOutput(out: string) returns (buses: seq<nat>)
    ensures buses == Dedup(LineBuses(Lines(out)))
  {
    var lines := Lines(out);
    buses := [];
    var i := 0;
    while i < |lines|
      invariant 0 <= i <= |lines|
      invariant buses == Dedup(LineBuses(lines[..i]))
    {
      var m := FirstDetect(lines[i], 0);
      LineBusesStep(lines, i);
      if m.Some? {
        DedupStep(LineBuses(lines[..i]), m.value);
      }
      if m.Some? && m.value !in buses {
        buses := buses + [m.value];
      }
      i := i + 1;
    }
    assert lines[..i] == lines;
  }

  lemma LineBusesStep(lines: seq<string>, i: nat)
    requires i < |lines|
    ensures LineBuses(lines[..i + 1]) ==
      match FirstDetect(lines[i], 0)
      case None => LineBuses(lines[..i])
      case Some(b) => LineBuses(lines[..i]) + [b]
  {
    assert lines[..i + 1][..i] == lines[..i];
  }

  lemma DedupStep(s: seq<nat>, x: nat)
    ensures Dedup(s + [x]) == if x in Dedup(s) then Dedup(s) else Dedup(s) + [x]
  {
    assert (s + [x])[..|s|] == s;
  }

  lemma {:induction false} DedupMembers(s: seq<nat>, x: nat)
    ensures x in Dedup(s) <==> x in s
    decreases |s|
  {
    if |s| > 0 {
      DedupMembers(s[..|s| - 1], x);
      assert s == s[..|s| - 1] + [s[|s| - 1]];
    }
  }

  /** Each bus is listed once. */
  lemma {:induction false} DedupNoDup(s: seq<nat>)
    ensures NoDup(Dedup(s))
    decreases |s|
  {
    if |s| > 0 {
      DedupNoDup(s[..|s| - 1]);
    }
  }

  /** Index of the first occurrence of `x`. */
  function FirstIndex(s: seq<nat>, x: nat): (i: nat)
    requires x in s
    ensures i < |s| && s[i] == x
    ensures forall k :: 0 <= k < i ==> s[k] != x
  {
    if s[0] == x then 0 else 1 + FirstIndex(s[1..], x)
  }

  lemma FirstIndexSnoc(s: seq<nat>, y: nat, x: nat)
    requires x in s
    ensures FirstIndex(s + [y], x) == FirstIndex(s, x)
  {
    var i := FirstIndex(s, x);
    assert (s + [y])[i] == x;
  }

  /** The buses come out in the order of their first appearance. */
  lemma {:induction false} DedupFirstAppearanceOrder(s: seq<nat>, i: nat, j: nat)
    requires i < j < |Dedup(s)|
    ensures Dedup(s)[i] in s && Dedup(s)[j] in s
    ensures FirstIndex(s, Dedup(s)[i]) < FirstIndex(s, Dedup(s)[j])
    decreases |s|
  {
    var d := Dedup(s);
    DedupMembers(s, d[i]);
    DedupMembers(s, d[j]);
    var front := s[..|s| - 1];
    var x := s[|s| - 1];
    assert s == front + [x];
    var df := Dedup(front);
    DedupMembers(front, d[i]);
    if x in df || j < |df| {
      DedupFirstAppearanceOrder(front, i, j);
      FirstIndexSnoc(front, x, d[i]);
      FirstIndexSnoc(front, x, d[j]);
    } else {
      FirstIndexSnoc(front, x, d[i]);
      DedupMembers(front, x);
      assert FirstIndex(s, x) == |front|;
    }
  }

  /** `_parse_detect_output` lists every bus once, exactly the buses some line names,
      in the order of their first appearance. */
  lemma DetectOutputShape(out: string)
    ensures NoDup(Dedup(LineBuses(Lines(out))))
    ensures forall b :: b in Dedup(LineBuses(Lines(out))) <==> b in LineBuses(Lines(out))
  {
    DedupNoDup(LineBuses(Lines(out)));
    forall b ensures b in Dedup(LineBuses(Lines(out))) <==> b in LineBuses(Lines(out)) {
      DedupMembers(LineBuses(Lines(out)), b);
    }
  }

  /** `s` and `t` differ at most in the case of ASCII letters. */
  predicate SameIgnoringCase(s: string, t: string)
  {
    |s| == |t| && forall k :: 0 <= k < |s| ==> LowerChar(s[k]) == LowerChar(t[k])
  }

  lemma SameIgnoringCaseChars(s: string, t: string)
    requires SameIgnoringCase(s, t)
    ensures forall k :: 0 <= k < |s| ==> (IsSpace(s[k]) <==> IsSpace(t[k]))
    ensures forall k :: 0 <= k < |s| ==> (IsDigit(s[k]) ==> t[k] == s[k])
    ensures forall k :: 0 <= k < |s| ==> (IsDigit(t[k]) ==> t[k] == s[k])
  {
  }

  lemma SpacesIgnoringCase(s: string, t: string, i: nat)
    requires SameIgnoringCase(s, t) && i <= |s|
    ensures Spaces(t, i) == Spaces(s, i)
  {
    SameIgnoringCaseChars(s, t);
    SpanEndUnique(t, i, IsSpace, Spaces(s, i));
  }

  lemma NumberIgnoringCase(s: string, t: string, i: nat)
    requires SameIgnoringCase(s, t) && i <= |s|
    ensures NumberAt(t, i) == NumberAt(s, i)
  {
    SameIgnoringCaseChars(s, t);
    var e := DigitsEnd(s, i);
    SpanEndUnique(t, i, IsDigit, e);
    assert t[i..e] == s[i..e];
  }

  lemma LitIgnoringCase(s: string, t: string, i: nat, lit: string)
    requires SameIgnoringCase(s, t)
    ensures LitAtIgnoreCase(t, i, lit) == LitAtIgnoreCase(s, i, lit)
  {
    if i + |lit| <= |s| {
      assert Lower(t[i..i + |lit|]) == Lower(s[i..i + |lit|]);
    }
  }

  lemma DevNumberIgnoringCase(s: string, t: string, b: nat)
    requires SameIgnoringCase(s, t) && b <= |s|
    ensures DevNumber(t, b) == DevNumber(s, b)
  {
    LitIgnoringCase(s, t, b, "/dev/i2c-");
    if b + 9 <= |s| { NumberIgnoringCase(s, t, b + 9); }
  }

  lemma BusFieldIgnoringCase(s: string, t: string, x: nat)
    requires SameIgnoringCase(s, t) && x <= |s|
    ensures BusField(t, x) == BusField(s, x)
  {
    var a := Spaces(s, x);
    SpacesIgnoringCase(s, t, x);
    LitIgnoringCase(s, t, a, "bus:");
    if a + 4 <= |s| {
      SpacesIgnoringCase(s, t, a + 4);
      DevNumberIgnoringCase(s, t, Spaces(s, a + 4));
    }
    BusFieldFromParts(s, t, x);
  }

  /** Two lines whose spaces, `bus:` literal and device number agree from `x` on
      agree on the bus field. */
  lemma BusFieldFromParts(s: string, t: string, x: nat)
    requires |s| == |t| && x <= |s|
    requires Spaces(t, x) == Spaces(s, x)
    requires LitAtIgnoreCase(t, Spaces(s, x), "bus:") == LitAtIgnoreCase(s, Spaces(s, x), "bus:")
    requires Spaces(s, x) + 4 <= |s| ==>
      Spaces(t, Spaces(s, x) + 4) == Spaces(s, Spaces(s, x) + 4) &&
      DevNumber(t, Spaces(s, Spaces(s, x) + 4)) == DevNumber(s, Spaces(s, Spaces(s, x) + 4))
    ensures BusField(t, x) == BusField(s, x)
  {
  }

  lemma {:induction false} FirstDetectIgnoringCase(s: string, t: string, i: nat)
    requires SameIgnoringCase(s, t) && i <= |s|
    ensures FirstDetect(t, i) == FirstDetect(s, i)
    decreases |s| - i
  {
    LitIgnoringCase(s, t, i, "i2c");
    if i + 3 <= |s| { BusFieldIgnoringCase(s, t, i + 3); }
    if DetectAt(s, i).None? && i < |s| {
      FirstDetectIgnoringCase(s, t, i + 1);
    }
  }

  /** The bus pattern ignores case: lower-casing a line finds the same bus. */
  lemma FirstDetectLower(s: string)
    ensures FirstDetect(Lower(s), 0) == FirstDetect(s, 0)
  {
    FirstDetectIgnoringCase(s, Lower(s), 0);
  }

  lemma DevNumberWritten(pre: string, w: string)
    requires IsNumeral(w)
    ensures DevNumber(pre + "/dev/i2c-" + w, |pre|) == Some(ParseNat(w))
  {
    var s := pre + "/dev/i2c-" + w;
    assert s[|pre|..|pre| + 9] == "/dev/i2c-";
    LowerOfLower("/dev/i2c-");
    assert |pre + "/dev/i2c-"| == |pre| + 9;
    NumberAtWritten(pre + "/dev/i2c-", w, "");
    assert pre + "/dev/i2c-" + w + "" == s;
  }

  lemma BusFieldWritten(pre: string, w: string)
    requires IsNumeral(w)
    ensures BusField(pre + " bus:  " + "/dev/i2c-" + w, |pre|) == Some(ParseNat(w))
  {
    var s := pre + " bus:  " + "/dev/i2c-" + w;
    var p := |pre|;
    assert s[p] == ' ' && s[p + 1] == 'b';
    SpanEndUnique(s, p, IsSpace, p + 1);
    assert s[p + 1..p + 5] == "bus:";
    LowerOfLower("bus:");
    assert s[p + 5] == ' ' && s[p + 6] == ' ' && s[p + 7] == '/';
    SpanEndUnique(s, p + 5, IsSpace, p + 7);
    assert |pre + " bus:  "| == p + 7;
    DevNumberWritten(pre + " bus:  ", w);
  }

  lemma DetectLine(pre: string, w: string)
    requires IsNumeral(w)
    ensures DetectAt(pre + "I2C bus:  /dev/i2c-" + w, |pre|) == Some(ParseNat(w))
  {
    var s := pre + "I2C bus:  /dev/i2c-" + w;
    assert s == pre + "I2C" + " bus:  " + "/dev/i2c-" + w;
    assert s[|pre|..|pre| + 3] == "I2C";
    assert Lower("I2C") == "i2c" by { assert LowerChar('I') == 'i' && LowerChar('C') == 'c'; }
    assert |pre + "I2C"| == |pre| + 3;
    BusFieldWritten(pre + "I2C", w);
  }

  /** The line `ddcutil --brief detect` prints for a display, behind any indentation
      of spaces, yields its bus number. */
  lemma DetectLineRoundTrip(indent: nat, n: nat)
    ensures FirstDetect(seq(indent, _ => ' ') + "I2C bus:  /dev/i2c-" + NatToString(n), 0) == Some(n)
  {
    var pre := seq(indent, _ => ' ');
    var w := NatToString(n);
    var s := pre + "I2C bus:  /dev/i2c-" + w;
    DetectLine(pre, w);
    ParseNatToString(n);
    SkipSpacesToDetect(s, 0, |pre|);
  }

  lemma {:induction false} SkipSpacesToDetect(s: string, i: nat, p: nat)
    requires i <= p <= |s|
    requires forall k :: i <= k < p ==> s[k] == ' '
    ensures FirstDetect(s, i) == FirstDetect(s, p)
    decreases p - i
  {
    if i < p {
      if i + 3 <= |s| {
        assert Lower(s[i..i + 3])[0] == ' ';
      }
      SkipSpacesToDetect(s, i + 1, p);
    }
  }

  // ---------- _parse_getvcp_output ----------

  /** A current value and a maximum as read from `getvcp`. */
  datatype Reading = Reading(cur: nat, max: nat)

  function TrimEnd(s: string): (r: string)
    ensures |r| <= |s| && r == s[..|r|]
    ensures |r| > 0 ==> !IsSpace(r[|r| - 1])
    decreases |s|
  {
    if |s| > 0 && IsSpace(s[|s| - 1]) then TrimEnd(s[..|s| - 1]) else s
  }

  /** `str.strip()`. */
  function Strip(s: string): (r: string)
    ensures |r| > 0 ==> !IsSpace(r[0]) && !IsSpace(r[|r| - 1])
  {
    var a := Spaces(s, 0);
    var t := TrimEnd(s[a..]);
    assert |t| > 0 ==> t[0] == s[a..][0];
    t
  }

  lemma StripUnchanged(s: string)
    requires |s| > 0 ==> !IsSpace(s[0]) && !IsSpace(s[|s| - 1])
    ensures Strip(s) == s
  {
    SpanEndUnique(s, 0, IsSpace, 0);
    assert s[0..] == s;
  }

  /** `\s*$` under `re.M`: only blanks up to the end of the text or a newline. */
  predicate BlankToLineEnd(s: string, i: nat)
    requires i <= |s|
    decreases |s| - i
  {
    i == |s| || s[i] == '\n' || (IsSpace(s[i]) && BlankToLineEnd(s, i + 1))
  }

  // The terse layout, `^\s*(?:VCP\s+)?(?:16|10|0x10)\s+(?:[A-Za-z]\s+)?(\d+)\s+(\d+)\s*$`,
  // matched stage by stage.

  /** After the optional `VCP\s+`. */
  function AfterVcp(s: string, a: nat): (b: nat)
    requires a <= |s|
    ensures a <= b <= |s|
  {
    if LitAt(s, a, "VCP") && Spaces(s, a + 3) > a + 3 then Spaces(s, a + 3) else a
  }

  /** After the feature code `16`, `10` or `0x10`; `b` itself when there is none. */
  function AfterCode(s: string, b: nat): (c: nat)
    requires b <= |s|
    ensures b <= c <= |s|
  {
    if LitAt(s, b, "16") || LitAt(s, b, "10") then b + 2
    else if LitAt(s, b, "0x10") then b + 4
    else b
  }

  /** After the optional `[A-Za-z]\s+`. */
  function AfterLetter(s: string, d: nat): (e: nat)
    requires d <= |s|
    ensures d <= e <= |s|
  {
    if d < |s| && IsAsciiLetter(s[d]) && Spaces(s, d + 1) > d + 1 then Spaces(s, d + 1) else d
  }

  /** `(\d+)\s+(\d+)\s*$` at `s[e..]`. */
  function TerseValues(s: string, e: nat): Option<Reading>
    requires e <= |s|
  {
    match NumberAt(s, e)
    case None => None
    case Some((f, cur)) =>
      var g := Spaces(s, f);
      if g == f then None
      else match NumberAt(s, g)
        case None => None
        case Some((h, mx)) => if BlankToLineEnd(s, h) then Some(Reading(cur, mx)) else None
  }

  /** The whole terse pattern at `s[i..]`. */
  function TerseAt(s: string, i: nat): Option<Reading>
    requires i <= |s|
  {
    var b := AfterVcp(s, Spaces(s, i));
    var c := AfterCode(s, b);
    if c == b then None
    else
      var d := Spaces(s, c);
      if d == c then None else TerseValues(s, AfterLetter(s, d))
  }

  /** The leftmost terse match, trying each line start (`^` under `re.M`). */
  function FirstTerse(s: string, i: nat): Option<Reading>
    requires i <= |s|
    decreases |s| - i
  {
    var here := if i == 0 || s[i - 1] == '\n' then TerseAt(s, i) else None;
    if here.Some? || i == |s| then here else FirstTerse(s, i + 1)
  }

  /** `value\s*=\s*(\d+)` (ignoring case) at `s[a..]`: the index after the number, and
      the number. */
  function ValueField(s: string, a: nat): Option<(nat, nat)>
    requires a <= |s|
  {
    if !LitAtIgnoreCase(s, a, "value") then None
    else
      var b := Spaces(s, a + 5);
      if !(b < |s| && s[b] == '=') then None else NumberAt(s, Spaces(s, b + 1))
  }

  /** `current\s*` and the value field at `s[i..]`. */
  function CurrentAt(s: string, i: nat): Option<(nat, nat)>
    requires i <= |s|
  {
    if !LitAtIgnoreCase(s, i, "current") then None else ValueField(s, Spaces(s, i + 7))
  }

  /** `max\s*` and the value field at `s[k..]`: the number. */
  function MaxAt(s: string, k: nat): Option<nat>
    requires k <= |s|
  {
    if !LitAtIgnoreCase(s, k, "max") then None
    else match ValueField(s, Spaces(s, k + 3))
      case None => None
      case Some((_, n)) => Some(n)
  }

  /** `.*max...` under `re.S` is greedy: the match of the maximum starting last in
      `s[j..k]`. */
  function LastMaxBelow(s: string, j: nat, k: nat): Option<nat>
    requires j <= k <= |s|
    decreases k - j
  {
    if MaxAt(s, k).Some? || k == j then MaxAt(s, k) else LastMaxBelow(s, j, k - 1)
  }

  /** The verbose pattern at `s[i..]`: a current value followed somewhere by a
      maximum. */
  function VerboseAtIndex(s: string, i: nat): Option<Reading>
    requires i <= |s|
  {
    match CurrentAt(s, i)
    case None => None
    case Some((d, cur)) =>
      match LastMaxBelow(s, d, |s|)
      case None => None
      case Some(mx) => Some(Reading(cur, mx))
  }

  /** The verbose layout: the leftmost place where the verbose pattern matches. */
  function FirstVerbose(s: string, i: nat): Option<Reading>
    requires i <= |s|
    decreases |s| - i
  {
    if VerboseAtIndex(s, i).Some? || i == |s| then VerboseAtIndex(s, i) else FirstVerbose(s, i + 1)
  }

  /** `_parse_getvcp_output`: the terse layout wins; otherwise the verbose one; `None`
      stands for the pair `(None, None)`. */
  function ParseGetvcp(out: string): Option<Reading>
  {
    var t := Strip(out);
    match FirstTerse(t, 0)
    case Some(r) => Some(r)
    case None => FirstVerbose(t, 0)
  }

  lemma TerseHead(s: string, rest: string)
    requires s == "VCP 10 C " + rest && |rest| > 0 && !IsSpace(rest[0])
    ensures Spaces(s, 0) == 0 && AfterVcp(s, 0) == 4 && AfterCode(s, 4) == 6
    ensures Spaces(s, 6) == 7 && AfterLetter(s, 7) == 9
  {
    SpanEndUnique(s, 0, IsSpace, 0);
    assert s[0..3] == "VCP";
    SpanEndUnique(s, 3, IsSpace, 4);
    assert s[4..6] == "10";
    SpanEndUnique(s, 6, IsSpace, 7);
    assert IsAsciiLetter(s[7]);
    SpanEndUnique(s, 8, IsSpace, 9);
  }

  /** The stages of the two values, put together. */
  lemma TerseValuesOf(s: string, e: nat, f: nat, cur: nat, g: nat, h: nat, mx: nat)
    requires e <= |s| && NumberAt(s, e) == Some((f, cur))
    requires f <= |s| && Spaces(s, f) == g && g != f
    requires NumberAt(s, g) == Some((h, mx))
    requires h <= |s| && BlankToLineEnd(s, h)
    ensures TerseValues(s, e) == Some(Reading(cur, mx))
  {
  }

  /** A single space before a digit. */
  lemma OneSpace(s: string, f: nat)
    requires f + 1 < |s| && s[f] == ' ' && IsDigit(s[f + 1])
    ensures Spaces(s, f) == f + 1
  {
    SpanEndUnique(s, f, IsSpace, f + 1);
  }

  lemma TerseTail(s: string, pre: string, cs: string, ms: string)
    requires IsNumeral(cs) && IsNumeral(ms)
    requires s == pre + cs + " " + ms
    ensures TerseValues(s, |pre|) == Some(Reading(ParseNat(cs), ParseNat(ms)))
  {
    var f := |pre| + |cs|;
    FirstOfTwo(pre, cs, ms);
    SpaceOfTwo(pre, cs, ms);
    SecondOfTwo(pre, cs, ms);
    TerseValuesOf(s, |pre|, f, ParseNat(cs), f + 1, |s|, ParseNat(ms));
  }

  /** In `pre + cs + " " + ms`, the first numeral is read whole. */
  lemma FirstOfTwo(pre: string, cs: string, ms: string)
    requires IsNumeral(cs)
    ensures NumberAt(pre + cs + " " + ms, |pre|) == Some((|pre| + |cs|, ParseNat(cs)))
  {
    assert pre + cs + " " + ms == pre + cs + (" " + ms);
    NumberAtWritten(pre, cs, " " + ms);
  }

  /** In `pre + cs + " " + ms`, one space separates the numerals. */
  lemma SpaceOfTwo(pre: string, cs: string, ms: string)
    requires IsNumeral(ms)
    ensures Spaces(pre + cs + " " + ms, |pre| + |cs|) == |pre| + |cs| + 1
  {
    var s := pre + cs + " " + ms;
    var f := |pre| + |cs|;
    assert s[f] == ' ' && s[f + 1] == ms[0];
    OneSpace(s, f);
  }

  /** In `pre + cs + " " + ms`, the second numeral runs to the end. */
  lemma SecondOfTwo(pre: string, cs: string, ms: string)
    requires IsNumeral(ms)
    ensures var s := pre + cs + " " + ms;
      NumberAt(s, |pre| + |cs| + 1) == Some((|s|, ParseNat(ms)))
  {
    var s := pre + cs + " " + ms;
    assert s + "" == s;
    NumberAtWritten(pre + cs + " ", ms, "");
  }

  lemma TerseLine(s: string, cs: string, ms: string)
    requires IsNumeral(cs) && IsNumeral(ms)
    requires s == "VCP 10 C " + cs + " " + ms
    ensures TerseAt(s, 0) == Some(Reading(ParseNat(cs), ParseNat(ms)))
  {
    var rest := cs + " " + ms;
    assert s == "VCP 10 C " + rest;
    TerseHead(s, rest);
    TerseTail(s, "VCP 10 C ", cs, ms);
  }

  /** The terse line `ddcutil --terse` prints is read back as written. */
  lemma TerseRoundTrip(cur: nat, mx: nat)
    ensures ParseGetvcp("VCP 10 C " + NatToString(cur) + " " + NatToString(mx)) == Some(Reading(cur, mx))
  {
    var cs := NatToString(cur);
    var ms := NatToString(mx);
    var s := "VCP 10 C " + cs + " " + ms;
    assert s[0] == 'V';
    assert s[|s| - 1] == ms[|ms| - 1];
    StripUnchanged(s);
    TerseLine(s, cs, ms);
    ParseNatToString(cur);
    ParseNatToString(mx);
    assert FirstTerse(s, 0) == TerseAt(s, 0);
  }

  /** A text without newlines has only one line start. */
  lemma {:induction false} NoLaterLineStart(s: string, i: nat)
    requires 1 <= i <= |s|
    requires forall k :: 0 <= k < |s| ==> s[k] != '\n'
    ensures FirstTerse(s, i) == None
    decreases |s| - i
  {
    if i < |s| { NoLaterLineStart(s, i + 1); }
  }

  lemma NoMaxAt(s: string, x: nat)
    requires x <= |s|
    requires x < |s| ==> LowerChar(s[x]) != 'm'
    ensures MaxAt(s, x) == None
  {
    if x + 3 <= |s| {
      assert Lower(s[x..x + 3])[0] == LowerChar(s[x]);
    }
  }

  /** No later index starts a maximum: the greedy `.*` settles on `k`. */
  lemma {:induction false} LastMaxSettles(s: string, j: nat, k: nat, top: nat)
    requires j <= k <= top <= |s|
    requires forall x :: k < x < |s| ==> LowerChar(s[x]) != 'm'
    requires MaxAt(s, k).Some?
    ensures LastMaxBelow(s, j, top) == MaxAt(s, k)
    decreases top - k
  {
    if top > k {
      NoMaxAt(s, top);
      assert LastMaxBelow(s, j, top) == LastMaxBelow(s, j, top - 1);
      LastMaxSettles(s, j, k, top - 1);
    }
  }

  /** `value = ` at `s[p..]`, followed by the number `n` ending at `e`. */
  lemma ValueFieldAt(s: string, p: nat, e: nat, n: nat)
    requires p + 8 <= |s| && s[p..p + 5] == "value"
    requires s[p + 5] == ' ' && s[p + 6] == '=' && s[p + 7] == ' '
    requires NumberAt(s, p + 8) == Some((e, n))
    ensures ValueField(s, p) == Some((e, n))
  {
    LowerOfLower("value");
    assert LitAtIgnoreCase(s, p, "value");
    assert Spaces(s, p + 5) == p + 6 by { SpanEndUnique(s, p + 5, IsSpace, p + 6); }
    assert Spaces(s, p + 7) == p + 8 by { SpanEndUnique(s, p + 7, IsSpace, p + 8); }
  }

  /** `current value = ` at the start of `s`, followed by the number `n` ending at `e`. */
  lemma CurrentAtStart(s: string, e: nat, n: nat)
    requires 16 <= |s| && s[0..7] == "current" && s[7] == ' '
    requires s[8..13] == "value" && s[13] == ' ' && s[14] == '=' && s[15] == ' '
    requires NumberAt(s, 16) == Some((e, n))
    ensures CurrentAt(s, 0) == Some((e, n))
  {
    LowerOfLower("current");
    assert Spaces(s, 7) == 8 by { SpanEndUnique(s, 7, IsSpace, 8); }
    ValueFieldAt(s, 8, e, n);
  }

  /** `max value = ` at `s[k..]`, followed by the number `n`. */
  lemma MaxAtIndex(s: string, k: nat, e: nat, n: nat)
    requires k + 12 <= |s| && s[k..k + 3] == "max" && s[k + 3] == ' '
    requires s[k + 4..k + 9] == "value" && s[k + 9] == ' ' && s[k + 10] == '=' && s[k + 11] == ' '
    requires NumberAt(s, k + 12) == Some((e, n))
    ensures MaxAt(s, k) == Some(n)
  {
    LowerOfLower("max");
    assert Spaces(s, k + 3) == k + 4 by { SpanEndUnique(s, k + 3, IsSpace, k + 4); }
    ValueFieldAt(s, k + 4, e, n);
  }

  /** The verbose text finds no terse match. */
  lemma VerboseNotTerse(s: string)
    requires |s| >= 4 && s[0] == 'c'
    requires forall k :: 0 <= k < |s| ==> s[k] != '\n'
    ensures FirstTerse(s, 0) == None
  {
    NoTerseAtC(s);
    NoLaterLineStart(s, 1);
  }

  /** A text starting with `c` has no feature code at its start. */
  lemma NoTerseAtC(s: string)
    requires |s| >= 4 && s[0] == 'c'
    ensures TerseAt(s, 0) == None
  {
    SpanEndUnique(s, 0, IsSpace, 0);
    assert !LitAt(s, 0, "VCP") by { assert s[0..3][0] == 'c'; }
    assert AfterVcp(s, 0) == 0;
    assert AfterCode(s, 0) == 0 by {
      assert s[0..2][0] == 'c' && s[0..4][0] == 'c';
    }
  }

  lemma NoMInTail(s: string, k: nat, t: string)
    requires k <= |s| && s[k..] == t
    requires forall i :: 0 <= i < |t| ==> LowerChar(t[i]) != 'm'
    ensures forall x :: k <= x < |s| ==> LowerChar(s[x]) != 'm'
  {
    assert forall x :: k <= x < |s| ==> s[x] == t[x - k];
  }

  lemma MaxTailHasNoM(ms: string)
    requires IsNumeral(ms)
    ensures var t := "ax value = " + ms; forall i :: 0 <= i < |t| ==> LowerChar(t[i]) != 'm'
  {
    var t := "ax value = " + ms;
    assert forall i :: 11 <= i < |t| ==> t[i] == ms[i - 11];
  }

  /** The greedy search settles on the last maximum when nothing after it can start
      another. */
  lemma VerboseAt(s: string, d: nat, cur: nat, mx: nat)
    requires d + 2 <= |s|
    requires CurrentAt(s, 0) == Some((d, cur))
    requires MaxAt(s, d + 2) == Some(mx)
    requires forall x :: d + 3 <= x < |s| ==> LowerChar(s[x]) != 'm'
    ensures FirstVerbose(s, 0) == Some(Reading(cur, mx))
  {
    LastMaxSettles(s, d, d + 2, |s|);
    VerboseFromStart(s, d, cur, mx);
  }

  /** A current value at the start and a last maximum after it: the verbose pattern
      matches at once. */
  lemma VerboseFromStart(s: string, d: nat, cur: nat, mx: nat)
    requires d <= |s| && CurrentAt(s, 0) == Some((d, cur)) && LastMaxBelow(s, d, |s|) == Some(mx)
    ensures FirstVerbose(s, 0) == Some(Reading(cur, mx))
  {
    assert VerboseAtIndex(s, 0) == Some(Reading(cur, mx));
  }

  /** The verbose line `current value = <cs>, max value = <ms>`, character by
      character. */
  predicate VerboseShaped(s: string, cs: string, ms: string)
  {
    var k := 18 + |cs|;
    |s| == k + 12 + |ms| &&
    s[0..7] == "current" && s[7] == ' ' &&
    s[8..13] == "value" && s[13] == ' ' && s[14] == '=' && s[15] == ' ' &&
    s[16..16 + |cs|] == cs && s[16 + |cs|] == ',' &&
    s[k..k + 3] == "max" && s[k + 3] == ' ' &&
    s[k + 4..k + 9] == "value" && s[k + 9] == ' ' && s[k + 10] == '=' && s[k + 11] == ' ' &&
    s[k + 12..k + 12 + |ms|] == ms &&
    forall x :: k + 1 <= x < |s| ==> LowerChar(s[x]) != 'm'
  }

  lemma VerboseHeadShape(s: string, cs: string, ms: string)
    requires s == "current value = " + cs + ", max value = " + ms
    ensures s[0..7] == "current" && s[7] == ' '
    ensures s[8..13] == "value" && s[13] == ' ' && s[14] == '=' && s[15] == ' '
    ensures s[16..16 + |cs|] == cs && s[16 + |cs|] == ','
  {
  }

  lemma VerboseMaxShape(s: string, cs: string, ms: string)
    requires s == "current value = " + cs + ", max value = " + ms
    ensures var k := 18 + |cs|;
      |s| == k + 12 + |ms| && s[k..k + 3] == "max" && s[k + 3] == ' ' &&
      s[k + 4..k + 9] == "value" && s[k + 9] == ' ' && s[k + 10] == '=' && s[k + 11] == ' ' &&
      s[k + 12..k + 12 + |ms|] == ms
  {
  }

  lemma VerboseNoM(s: string, cs: string, ms: string)
    requires IsNumeral(ms)
    requires s == "current value = " + cs + ", max value = " + ms
    ensures forall x :: 19 + |cs| <= x < |s| ==> LowerChar(s[x]) != 'm'
  {
    assert s[19 + |cs|..] == "ax value = " + ms;
    MaxTailHasNoM(ms);
    NoMInTail(s, 19 + |cs|, "ax value = " + ms);
  }

  lemma VerboseShape(s: string, cs: string, ms: string)
    requires IsNumeral(ms)
    requires s == "current value = " + cs + ", max value = " + ms
    ensures VerboseShaped(s, cs, ms)
  {
    VerboseHeadShape(s, cs, ms);
    VerboseMaxShape(s, cs, ms);
    VerboseNoM(s, cs, ms);
  }

  lemma VerboseLine(s: string, cs: string, ms: string)
    requires IsNumeral(cs) && IsNumeral(ms)
    requires VerboseShaped(s, cs, ms)
    ensures FirstVerbose(s, 0) == Some(Reading(ParseNat(cs), ParseNat(ms)))
  {
    ShapedCurrent(s, cs, ms);
    ShapedMax(s, cs, ms);
    VerboseAt(s, 16 + |cs|, ParseNat(cs), ParseNat(ms));
  }

  lemma ShapedCurrent(s: string, cs: string, ms: string)
    requires IsNumeral(cs) && VerboseShaped(s, cs, ms)
    ensures CurrentAt(s, 0) == Some((16 + |cs|, ParseNat(cs)))
  {
    NumberAtSlice(s, 16, cs);
    CurrentAtStart(s, 16 + |cs|, ParseNat(cs));
  }

  lemma ShapedMax(s: string, cs: string, ms: string)
    requires IsNumeral(ms) && VerboseShaped(s, cs, ms)
    ensures MaxAt(s, 18 + |cs|) == Some(ParseNat(ms))
  {
    var k := 18 + |cs|;
    NumberAtSlice(s, k + 12, ms);
    MaxAtIndex(s, k, |s|, ParseNat(ms));
  }

  /** The verbose layout `ddcutil` prints without `--terse` is read back as written. */
  lemma VerboseRoundTrip(cur: nat, mx: nat)
    ensures ParseGetvcp("current value = " + NatToString(cur) + ", max value = " + NatToString(mx))
         == Some(Reading(cur, mx))
  {
    var cs := NatToString(cur);
    var ms := NatToString(mx);
    var s := "current value = " + cs + ", max value = " + ms;
    assert s[0] == 'c';
    assert s[|s| - 1] == ms[|ms| - 1];
    StripUnchanged(s);
    assert forall k :: 0 <= k < |s| ==> s[k] != '\n';
    VerboseNotTerse(s);
    VerboseShape(s, cs, ms);
    VerboseLine(s, cs, ms);
    ParseNatToString(cur);
    ParseNatToString(mx);
  }

  // ---------- _wrap_timeout ----------

  /** `f"{ms//1000}.{(ms%1000)//100}s"`. */
  function TimeoutText(ms: nat): string
  {
    NatToString(ms / 1000) + "." + NatToString((ms % 1000) / 100) + "s"
  }

  /** `_wrap_timeout(kind, base)`: the `timeout` prefix when the utility exists. */
  function WrapTimeout(k: Kind, haveTimeout: bool, base: string): string
    requires InCeilTable(k)
  {
    if haveTimeout then "/usr/bin/timeout -k 1s " + TimeoutText(CeilMs(k)) + " " + base else base
  }

  /** The wrapped command ends with the command itself, unchanged. */
  lemma WrapTimeoutKeepsBase(k: Kind, haveTimeout: bool, base: string)
    requires InCeilTable(k)
    ensures var r := WrapTimeout(k, haveTimeout, base);
      (!haveTimeout ==> r == base) && (haveTimeout ==> |r| > |base| && r[|r| - |base|..] == base)
  {
  }

  /** The three prefixes: 4.0 s for detect, 2.0 s for a read and 3.2 s for a write. */
  lemma WrapTimeoutTable(base: string)
    ensures WrapTimeout(Detect, true, base) == "/usr/bin/timeout -k 1s 4.0s " + base
    ensures WrapTimeout(Get, true, base) == "/usr/bin/timeout -k 1s 2.0s " + base
    ensures WrapTimeout(Set, true, base) == "/usr/bin/timeout -k 1s 3.2s " + base
  {
    assert NatToString(0) == "0" && NatToString(2) == "2";
    assert NatToString(3) == "3" && NatToString(4) == "4";
  }
}
