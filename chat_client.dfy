/** The browser client of client.js, without its page: the string helpers
    of `util`, the command history behind the up and down keys, and the
    newest message time the long poll asks from. */
module ChatClient {
  import opened JsText
  import opened Wrappers

  const TAB: int := 9
  const RETURN: int := 13
  const UP: int := 38
  const DOWN: int := 40

  /** `s.replace(/c/g, rep)`: every `c` replaced by `rep`. */
  function ReplaceAll(s: string, c: char, rep: string): string
  {
    if s == [] then "" else (if s[0] == c then rep else [s[0]]) + ReplaceAll(s[1..], c, rep)
  }

  /** The HTML escape of a single character. */
  function EscapeChar(c: char): string
  {
    if c == '&' then "&amp;" else if c == '<' then "&lt;" else if c == '>' then "&gt;" else [c]
  }

  /** Every character of `s` escaped on its own. */
  function Escaped(s: string): string
  {
    if s == [] then "" else EscapeChar(s[0]) + Escaped(s[1..])
  }

  /** `util.toStaticHTML(s)`: the three global replacements, `&` first. */
  function ToStaticHtml(s: string): string
  {
    ReplaceAll(ReplaceAll(ReplaceAll(s, '&', "&amp;"), '<', "&lt;"), '>', "&gt;")
  }

  lemma {:induction false} ReplaceAllAppend(s: string, t: string, c: char, rep: string)
    ensures ReplaceAll(s + t, c, rep) == ReplaceAll(s, c, rep) + ReplaceAll(t, c, rep)
    decreases |s|
  {
    if s == [] {
      assert s + t == t;
    } else {
      assert (s + t)[1..] == s[1..] + t;
      ReplaceAllAppend(s[1..], t, c, rep);
    }
  }

  lemma {:induction false} ReplaceAllAbsent(s: string, c: char, rep: string)
    requires c !in s
    ensures ReplaceAll(s, c, rep) == s
    decreases |s|
  {
    if s != [] {
      ReplaceAllAbsent(s[1..], c, rep);
    }
  }

  /** Replacing `&` first keeps the `&` the later replacements add: the three
      passes escape each character exactly once. */
  lemma {:induction false} ToStaticHtmlEscapes(s: string)
    ensures ToStaticHtml(s) == Escaped(s)
    decreases |s|
  {
    if s != [] {
      ToStaticHtmlEscapes(s[1..]);
      var a := if s[0] == '&' then "&amp;" else [s[0]];
      ReplaceAllAppend(a, ReplaceAll(s[1..], '&', "&amp;"), '<', "&lt;");
      var b := ReplaceAll(a, '<', "&lt;");
      ReplaceAllAppend(b, ReplaceAll(ReplaceAll(s[1..], '&', "&amp;"), '<', "&lt;"), '>', "&gt;");
      if s[0] == '&' {
        ReplaceAllAbsent(a, '<', "&lt;");
        ReplaceAllAbsent(a, '>', "&gt;");
      } else if s[0] == '<' {
        assert b == "&lt;" + ReplaceAll([], '<', "&lt;");
        ReplaceAllAbsent(b, '>', "&gt;");
      }
    }
  }

  lemma {:induction false} EscapedAppend(s: string, t: string)
    ensures Escaped(s + t) == Escaped(s) + Escaped(t)
    decreases |s|
  {
    if s == [] {
      assert s + t == t;
    } else {
      assert (s + t)[1..] == s[1..] + t;
      EscapedAppend(s[1..], t);
    }
  }

  /** The escaped text holds no angle bracket, so the browser renders it as
      text, and every character that is no `&`, `<` or `>` is kept. */
  lemma {:induction false} StaticHtmlHasNoTags(s: string)
    ensures '<' !in ToStaticHtml(s) && '>' !in ToStaticHtml(s)
    ensures (forall i :: 0 <= i < |s| ==> s[i] !in "&<>") ==> ToStaticHtml(s) == s
    decreases |s|
  {
    ToStaticHtmlEscapes(s);
    if s != [] {
      StaticHtmlHasNoTags(s[1..]);
      ToStaticHtmlEscapes(s[1..]);
      assert Escaped(s) == EscapeChar(s[0]) + Escaped(s[1..]);
    }
  }

  /** `k` zeros. */
  function Zeros(k: nat): (r: string)
    ensures |r| == k && forall i :: 0 <= i < k ==> r[i] == '0'
  {
    if k == 0 then "" else "0" + Zeros(k - 1)
  }

  /** `n` with zeros in front up to `digits` characters. */
  function Padded(digits: int, n: string): string
  {
    Zeros(if |n| < digits then digits - |n| else 0) + n
  }

  /** `util.zeroPad(digits, n)` on a string `n`: zeros go in front until it
      has `digits` characters; a longer `n` comes back unchanged. */
  method ZeroPad(digits: int, n: string) returns (r: string)
    ensures r == Padded(digits, n)
    ensures |r| == if |n| < digits then digits else |n|
    ensures r[|r| - |n|..] == n
    ensures forall i :: 0 <= i < |r| - |n| ==> r[i] == '0'
  {
    r := n;
    while |r| < digits
      invariant |r| >= |n| && r == Zeros(|r| - |n|) + n
      invariant |n| < digits ==> |r| <= digits
      invariant |n| >= digits ==> r == n
      decreases digits - |r|
    {
      r := "0" + r;
    }
  }

  /** `util.timeString(date)` for a date whose hours and minutes are given. */
  function TimeString(hours: int, minutes: int): string
  {
    Padded(2, IntToString(hours)) + ":" + Padded(2, IntToString(minutes))
  }

  /** For 0..99 the decimal form has one or two digits, and padded to two it
      still reads `k`. */
  lemma TwoDigits(k: int)
    requires 0 <= k <= 99
    ensures |Padded(2, IntToString(k))| == 2 && AllDigits(Padded(2, IntToString(k)))
    ensures DigitsValue(Padded(2, IntToString(k))) == k
  {
    var s := IntToString(k);
    NatToStringValue(k);
    if k >= 10 {
      assert s == NatToString(k / 10) + [DigitChar(k % 10)];
      assert |s| == 2;
    } else {
      var p := Padded(2, s);
      assert p == "0" + s;
      assert p[..1] == "0";
    }
  }

  /** The clock is always `hh:mm`, five characters, each half reading back
      as the hours and the minutes. */
  lemma TimeStringShape(hours: int, minutes: int)
    requires 0 <= hours <= 99 && 0 <= minutes <= 99
    ensures |TimeString(hours, minutes)| == 5 && TimeString(hours, minutes)[2] == ':'
    ensures AllDigits(TimeString(hours, minutes)[..2]) && DigitsValue(TimeString(hours, minutes)[..2]) == hours
    ensures AllDigits(TimeString(hours, minutes)[3..]) && DigitsValue(TimeString(hours, minutes)[3..]) == minutes
  {
    TwoDigits(hours);
    TwoDigits(minutes);
    var r := TimeString(hours, minutes);
    assert r[..2] == Padded(2, IntToString(hours));
    assert r[3..] == Padded(2, IntToString(minutes));
  }

  /** `text.split(/\s+/).length > 1`: the text holds a white-space
      character, so it splits into more than one word. */
  predicate HasWhitespace(text: string)
  {
    exists i :: 0 <= i < |text| && IsWhitespace(text[i])
  }

  /** `util.isBlank(text)`: `/^\s*$/` matches, scanning from the left. */
  function IsBlank(text: string): bool
  {
    text == [] || (IsWhitespace(text[0]) && IsBlank(text[1..]))
  }

  /** Blank exactly when empty or made of white space only. */
  lemma {:induction false} BlankExactly(text: string)
    ensures IsBlank(text) <==> forall i :: 0 <= i < |text| ==> IsWhitespace(text[i])
    decreases |text|
  {
    if text != [] {
      BlankExactly(text[1..]);
      assert forall i :: 1 <= i < |text| ==> text[i] == text[1..][i - 1];
    }
  }

  /** `s.replace("\n", "")`: only the first line feed is dropped. */
  function DropFirstNewline(s: string): (r: string)
    ensures '\n' !in s ==> r == s
  {
    if s == [] then s
    else if s[0] == '\n' then s[1..]
    else [s[0]] + DropFirstNewline(s[1..])
  }

  /** With its first line feed at `k`, the text loses that one character
      and keeps everything before and after it. */
  lemma {:induction false} DropsFirstNewline(s: string, k: int)
    requires 0 <= k < |s| && s[k] == '\n' && '\n' !in s[..k]
    ensures DropFirstNewline(s) == s[..k] + s[k + 1..]
    decreases |s|
  {
    if k > 0 {
      assert s[0] == s[..k][0];
      assert s[1..][..k - 1] == s[1..k] && s[1..k] == s[..k][1..];
      DropsFirstNewline(s[1..], k - 1);
      assert s[1..][k..] == s[k + 1..];
      assert DropFirstNewline(s) == [s[0]] + (s[1..k] + s[k + 1..]);
      assert s[..k] == [s[0]] + s[1..k];
    }
  }

  /** What a key press gives the page: the text it puts in the entry box, and
      the message it sends, when it does either. */
  datatype Effect = Effect(show: Option<string>, send: Option<string>)

  /** The client's global state outside the page: the command history with
      its cursor, and the newest message time seen. */
  class Client {
    /** `commandHistory`: the entry being typed first, then older commands. */
    var history: seq<string>
    /** `commandHistoryIndex`. */
    var index: int
    /** `CONFIG.last_message_time`. */
    var lastMessageTime: int
    /** `completionList !== null`: a Tab has started a completion. The list
        itself is always empty, since `matchingNicks` returns `[]`. */
    var completing: bool

    /** The cursor points into a non-empty history. */
    ghost predicate Valid()
      reads this
    {
      |history| >= 1 && 0 <= index < |history|
    }

    constructor ()
      ensures Valid() && history == [""] && index == 0 && lastMessageTime == 0 && !completing
    {
      history := [""];
      index := 0;
      lastMessageTime := 0;
      completing := false;
    }

    /** `handleKeyPress` for the key `key` while the entry box holds `entry`.
        Tab leaves the history alone: an entry of several words is left as
        it is, unless a completion is under way; otherwise the completion
        starts and, no nick ever matching, the box shows ": ". Any other key
        ends the completion. Up and down move the cursor, clamped at the ends, and show that entry; any other key
        records the entry, without its first line feed, as the newest
        history item and resets the cursor; Return also sends it unless it
        is blank, opens a fresh history item and clears the box. */
    method HandleKeyPress(key: int, entry: string) returns (e: Effect)
      requires Valid()
      modifies this`history, this`index, this`completing
      ensures Valid()
      ensures key == TAB ==> history == old(history) && index == old(index)
      ensures key == TAB && !old(completing) && HasWhitespace(entry) ==> !completing && e == Effect(None, None)
      ensures key == TAB && (old(completing) || !HasWhitespace(entry)) ==> completing && e == Effect(Some(": "), None)
      ensures key != TAB ==> !completing
      ensures key == UP ==>
        && history == old(history)
        && index == (if old(index) + 1 == |history| then old(index) else old(index) + 1)
        && e == Effect(Some(history[index]), None)
      ensures key == DOWN ==>
        && history == old(history)
        && index == (if old(index) == 0 then 0 else old(index) - 1)
        && e == Effect(Some(history[index]), None)
      ensures key !in {TAB, UP, DOWN, RETURN} ==>
        history == old(history)[0 := DropFirstNewline(entry)] && index == 0 && e == Effect(None, None)
      ensures key == RETURN ==>
        && history == [""] + old(history)[0 := DropFirstNewline(entry)] && index == 0
        && e == Effect(Some(""), if IsBlank(DropFirstNewline(entry)) then None else Some(DropFirstNewline(entry)))
    {
      if key == TAB {
        if !completing && HasWhitespace(entry) {
          return Effect(None, None);
        }
        completing := true;
        return Effect(Some(": "), None);
      }
      completing := false;
      if key == UP {
        index := index + 1;
        if index == |history| {
          index := |history| - 1;
        }
        return Effect(Some(history[index]), None);
      }
      if key == DOWN {
        index := index - 1;
        if index < 0 {
          index := 0;
        }
        return Effect(Some(history[index]), None);
      }
      var msg := DropFirstNewline(entry);
      history := history[0 := msg];
      index := 0;
      if key != RETURN {
        return Effect(None, None);
      }
      var sent := if !IsBlank(msg) then Some(msg) else None;
      history := [""] + history;
      e := Effect(Some(""), sent);
    }

    /** The `last_message_time` updates of `longPoll` over the timestamps of
        one batch of messages. */
    method TrackLatest(stamps: seq<int>)
      modifies this`lastMessageTime
      ensures lastMessageTime == Latest(old(lastMessageTime), stamps)
    {
      var i := 0;
      while i < |stamps|
        invariant 0 <= i <= |stamps|
        invariant lastMessageTime == Latest(old(lastMessageTime), stamps[..i])
      {
        assert stamps[..i + 1][..i] == stamps[..i];
        if stamps[i] > lastMessageTime {
          lastMessageTime := stamps[i];
        }
        i := i + 1;
      }
      assert stamps[..i] == stamps;
    }
  }

  /** The newest of `last` and the timestamps `stamps`. */
  function Latest(last: int, stamps: seq<int>): int
  {
    if stamps == [] then last
    else
      var before := Latest(last, stamps[..|stamps| - 1]);
      if stamps[|stamps| - 1] > before then stamps[|stamps| - 1] else before
  }

  /** The newest time never goes back, is at least every timestamp seen, and
      is one of them or the time before. */
  lemma {:induction false} LatestIsMaximum(last: int, stamps: seq<int>)
    ensures Latest(last, stamps) >= last
    ensures forall i :: 0 <= i < |stamps| ==> Latest(last, stamps) >= stamps[i]
    ensures Latest(last, stamps) == last || Latest(last, stamps) in stamps
    decreases |stamps|
  {
    if stamps != [] {
      var init := stamps[..|stamps| - 1];
      LatestIsMaximum(last, init);
      assert forall i :: 0 <= i < |init| ==> stamps[i] == init[i];
    }
  }
}
