/** The two time formatters: `formatUptime` (minutes as "Xm", "Hh" or "Hh Mm")
    and `relativeTime` (the age of a timestamp as "just now", "Ns ago",
    "Nm ago" or "Nh ago"). The clock is a parameter: `relativeTime` receives
    the elapsed milliseconds `Date.now() - ts`. Each is paired with a reader
    that recovers what the text says, and the lemmas relate the two. */
module TimeFormat {
  import opened Text

  /** `formatUptime(minutes)`. */
  function FormatUptime(minutes: int): (shown: string)
    ensures |shown| >= 2
    ensures ('h' in shown) == (minutes >= 60)
    ensures (shown[|shown| - 1] == 'h') == (minutes >= 60 && minutes % 60 == 0)
  {
    if minutes < 60 then IntToString(minutes) + "m"
    else
      var h := minutes / 60;
      var m := minutes % 60;
      if m != 0 then NatToString(h) + "h " + NatToString(m) + "m" else NatToString(h) + "h"
  }

  /** Reads an uptime label back into minutes. */
  function ParseUptime(s: string): Option<int> {
    if |s| < 2 then None
    else
      var body := s[..|s| - 1];
      if s[|s| - 1] == 'h' then
        if IsDigits(body) then Some(DigitsValue(body) * 60) else None
      else if s[|s| - 1] == 'm' then ParseMinutesLabel(body)
      else None
  }

  /** Reads the text before a final "m": either "X" or "Hh X". */
  function ParseMinutesLabel(body: string): Option<int> {
    var i := IndexOf(body, 'h');
    if i == |body| then ParseInt(body)
    else if i + 1 < |body| && body[i + 1] == ' ' && IsDigits(body[..i]) && IsDigits(body[i + 2..]) then
      Some(DigitsValue(body[..i]) * 60 + DigitsValue(body[i + 2..]))
    else None
  }

  lemma {:induction false} UptimeMinutesRoundTrip(minutes: int)
    ensures ParseUptime(IntToString(minutes) + "m") == Some(minutes)
  {
    var body := IntToString(minutes);
    var s := body + "m";
    assert s[..|s| - 1] == body;
    assert forall k :: 0 <= k < |body| ==> body[k] != 'h';
    IndexOfSkips(body, [], 'h');
    assert body + [] == body;
    IntToStringRoundTrip(minutes);
  }

  lemma {:induction false} UptimeHoursRoundTrip(h: nat)
    ensures ParseUptime(NatToString(h) + "h") == Some(h * 60)
  {
    var s := NatToString(h) + "h";
    assert s[..|s| - 1] == NatToString(h);
    NatToStringRoundTrip(h);
  }

  lemma ReadHoursAndMinutes(body: string, i: nat, hs: string, ms: string)
    requires IndexOf(body, 'h') == i && i + 1 < |body| && body[i + 1] == ' '
    requires IsDigits(hs) && IsDigits(ms) && body[..i] == hs && body[i + 2..] == ms
    ensures ParseMinutesLabel(body) == Some(DigitsValue(hs) * 60 + DigitsValue(ms))
  {
  }

  lemma ParseHoursAndMinutes(hs: string, ms: string)
    requires IsDigits(hs) && IsDigits(ms)
    ensures ParseMinutesLabel(hs + ("h " + ms)) == Some(DigitsValue(hs) * 60 + DigitsValue(ms))
  {
    var body := hs + ("h " + ms);
    var i := IndexOf(body, 'h');
    assert i == |hs| by {
      assert forall k :: 0 <= k < |hs| ==> hs[k] != 'h';
      IndexOfSkips(hs, "h " + ms, 'h');
    }
    assert i + 1 < |body| && body[i + 1] == ' ';
    assert body[..i] == hs;
    assert body[i + 2..] == ms;
    ReadHoursAndMinutes(body, i, hs, ms);
  }

  lemma {:induction false} UptimeMixedRoundTrip(h: nat, m: nat)
    ensures ParseUptime(NatToString(h) + "h " + NatToString(m) + "m") == Some(h * 60 + m)
  {
    MixedLabel(NatToString(h), NatToString(m));
    NatToStringRoundTrip(h);
    NatToStringRoundTrip(m);
  }

  /** A label "{hs}h {ms}m" built from two digit strings reads back as
      hours and minutes. */
  lemma MixedLabel(hs: string, ms: string)
    requires IsDigits(hs) && IsDigits(ms)
    ensures ParseUptime(hs + "h " + ms + "m") == Some(DigitsValue(hs) * 60 + DigitsValue(ms))
  {
    var body := hs + ("h " + ms);
    assert hs + "h " + ms + "m" == body + "m";
    ParseMinutesSuffix(body);
    ParseHoursAndMinutes(hs, ms);
  }

  /** A label ending in "m" is read by `ParseMinutesLabel`. */
  lemma ParseMinutesSuffix(body: string)
    requires |body| >= 1
    ensures ParseUptime(body + "m") == ParseMinutesLabel(body)
  {
    var s := body + "m";
    assert s[..|s| - 1] == body;
  }

  /** Every uptime label reads back as the minutes it was made from. */
  lemma FormatUptimeRoundTrip(minutes: int)
    ensures ParseUptime(FormatUptime(minutes)) == Some(minutes)
  {
    if minutes < 60 {
      UptimeMinutesRoundTrip(minutes);
    } else if minutes % 60 != 0 {
      UptimeMixedRoundTrip(minutes / 60, minutes % 60);
    } else {
      UptimeHoursRoundTrip(minutes / 60);
    }
  }

  /** Different uptimes are never shown with the same label. */
  lemma FormatUptimeInjective(a: int, b: int)
    ensures FormatUptime(a) == FormatUptime(b) ==> a == b
  {
    FormatUptimeRoundTrip(a);
    FormatUptimeRoundTrip(b);
  }

  lemma FormatUptimeExamples()
    ensures FormatUptime(45) == "45m"
    ensures FormatUptime(120) == "2h"
    ensures FormatUptime(125) == "2h 5m"
  {
    assert NatToString(45) == NatToString(4) + [DigitChar(5)];
  }

  /** Whole seconds elapsed, `Math.floor(ms / 1000)`; Dafny's division by a
      positive divisor rounds toward negative infinity as Math.floor does. */
  function ElapsedSeconds(elapsedMs: int): int {
    elapsedMs / 1000
  }

  /** `relativeTime(ts)` with `Date.now() - ts` passed as `elapsedMs`. */
  function RelativeTime(elapsedMs: int): (shown: string)
    ensures (shown == "just now") == (ElapsedSeconds(elapsedMs) < 5)
    ensures shown != "just now" ==> |shown| > 4 && shown[|shown| - 4..] == " ago"
  {
    var s := ElapsedSeconds(elapsedMs);
    if s < 5 then "just now"
    else if s < 60 then AgoText(s, "s ago")
    else if s < 3600 then AgoText(s / 60, "m ago")
    else AgoText(s / 3600, "h ago")
  }

  /** `${count}` followed by a unit and " ago"; it starts with a digit, so it
      is never "just now". */
  function AgoText(count: nat, suffix: string): (shown: string)
    requires |suffix| >= 4 && suffix[|suffix| - 4..] == " ago"
    ensures shown != "just now" && |shown| > 4 && shown[|shown| - 4..] == " ago"
  {
    var digits := NatToString(count);
    assert (digits + suffix)[0] == digits[0];
    assert (digits + suffix)[|digits + suffix| - 4..] == suffix[|suffix| - 4..];
    digits + suffix
  }

  /** What a relative-time label says: "just now", or `count` units of
      `unit` seconds ago. */
  datatype Age = JustNow | Ago(count: nat, unit: nat)

  function UnitSeconds(c: char): nat {
    if c == 's' then 1 else if c == 'm' then 60 else if c == 'h' then 3600 else 0
  }

  /** Reads a relative-time label back. */
  function ReadRelative(s: string): Option<Age> {
    if s == "just now" then Some(JustNow)
    else if |s| >= 6 && s[|s| - 4..] == " ago" && IsDigits(s[..|s| - 5]) && UnitSeconds(s[|s| - 5]) > 0 then
      Some(Ago(DigitsValue(s[..|s| - 5]), UnitSeconds(s[|s| - 5])))
    else None
  }

  /** The unit `relativeTime` chooses: the largest of second, minute and hour
      that fits in the elapsed time. */
  function UnitFor(seconds: int): nat {
    if seconds < 60 then 1 else if seconds < 3600 then 60 else 3600
  }

  lemma {:induction false} ReadCount(n: nat, unit: char, suffix: string)
    requires UnitSeconds(unit) > 0 && suffix == [unit] + " ago"
    ensures ReadRelative(NatToString(n) + suffix) == Some(Ago(n, UnitSeconds(unit)))
  {
    var d := NatToString(n);
    var s := d + suffix;
    assert s[|s| - 4..] == " ago";
    assert s[..|s| - 5] == d;
    assert s[|s| - 5] == unit;
    assert s != "just now" by {
      assert IsDigit(s[0]);
    }
    NatToStringRoundTrip(n);
  }

  /** What `relativeTime` shows, read back: "just now" below five seconds,
      otherwise the elapsed time in whole units of the largest unit that fits. */
  function ExpectedAge(seconds: int): Age {
    if seconds < 5 then JustNow else Ago(seconds / UnitFor(seconds), UnitFor(seconds))
  }

  lemma {:induction false} RelativeTimeReadsBack(elapsedMs: int)
    ensures ReadRelative(RelativeTime(elapsedMs)) == Some(ExpectedAge(ElapsedSeconds(elapsedMs)))
  {
    var s := ElapsedSeconds(elapsedMs);
    if s < 5 {
    } else if s < 60 {
      ReadCount(s, 's', "s ago");
    } else if s < 3600 {
      ReadCount(s / 60, 'm', "m ago");
    } else {
      ReadCount(s / 3600, 'h', "h ago");
    }
  }

  /** The label is "just now" exactly below five seconds; otherwise it names
      `count` >= 1 units of the largest fitting unit, and `count` units is the
      elapsed time rounded down to that unit. */
  lemma RelativeTimeMeaning(elapsedMs: int)
    ensures var s := ElapsedSeconds(elapsedMs);
            var age := ReadRelative(RelativeTime(elapsedMs));
            && (s < 5 <==> age == Some(JustNow))
            && (s >= 5 ==> && age.Some? && age.value.Ago?
                           && age.value.unit == UnitFor(s)
                           && age.value.count >= 1
                           && age.value.count * age.value.unit <= s < (age.value.count + 1) * age.value.unit)
  {
    RelativeTimeReadsBack(elapsedMs);
    ExpectedAgeMeaning(ElapsedSeconds(elapsedMs));
  }

  lemma ExpectedAgeMeaning(s: int)
    ensures s < 5 <==> ExpectedAge(s) == JustNow
    ensures s >= 5 ==> && ExpectedAge(s).Ago?
                       && ExpectedAge(s).unit == UnitFor(s)
                       && ExpectedAge(s).count >= 1
                       && ExpectedAge(s).count * ExpectedAge(s).unit <= s < (ExpectedAge(s).count + 1) * ExpectedAge(s).unit
  {
    if s < 5 {
    } else if s < 60 {
      assert ExpectedAge(s) == Ago(s, 1);
    } else if s < 3600 {
      var c := s / 60;
      assert ExpectedAge(s) == Ago(c, 60);
      assert c * 60 <= s < (c + 1) * 60;
    } else {
      var c := s / 3600;
      assert ExpectedAge(s) == Ago(c, 3600);
      assert c * 3600 <= s < (c + 1) * 3600;
    }
  }

  /** The least age a label allows: 0 for "just now", else count * unit seconds. */
  function LeastSeconds(age: Option<Age>): nat {
    match age
    case Some(Ago(count, unit)) => count * unit
    case _ => 0
  }

  lemma LeastSecondsMonotone(s1: int, s2: int)
    requires s1 <= s2
    ensures LeastSeconds(Some(ExpectedAge(s1))) <= LeastSeconds(Some(ExpectedAge(s2)))
  {
    if s1 < 5 {
    } else if s2 < 60 {
    } else if s1 < 60 {
      assert s2 / UnitFor(s2) >= 1;
      assert LeastSeconds(Some(ExpectedAge(s2))) >= 60;
    } else if s2 < 3600 {
      assert s1 / 60 <= s2 / 60;
    } else if s1 < 3600 {
      assert s2 / 3600 >= 1;
      assert LeastSeconds(Some(ExpectedAge(s2))) >= 3600;
      assert s1 / 60 * 60 <= s1;
    } else {
      assert s1 / 3600 <= s2 / 3600;
    }
  }

  /** As time passes, the label never moves back: the least age it allows
      grows with the elapsed time. */
  lemma RelativeTimeMonotone(earlierMs: int, laterMs: int)
    requires earlierMs <= laterMs
    ensures LeastSeconds(ReadRelative(RelativeTime(earlierMs))) <= LeastSeconds(ReadRelative(RelativeTime(laterMs)))
  {
    RelativeTimeReadsBack(earlierMs);
    RelativeTimeReadsBack(laterMs);
    LeastSecondsMonotone(ElapsedSeconds(earlierMs), ElapsedSeconds(laterMs));
  }

  lemma RelativeTimeExamples()
    ensures RelativeTime(3000) == "just now"
    ensures RelativeTime(30000) == "30s ago"
    ensures RelativeTime(90000) == "1m ago"
    ensures RelativeTime(7200000) == "2h ago"
  {
    assert NatToString(30) == NatToString(3) + [DigitChar(0)];
  }
}
