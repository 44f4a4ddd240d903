/**
 * Model of the integer parts of Frontend/utils/formatters.ts: `formatDuration` (minutes to
 * "Nh Mmin") and the branch structure of `formatDistance`. A JavaScript template literal
 * `${n}` of an integer is `IntToString(n)`.
 */
module Formatters {
  import opened Options

  predicate IsDigit(ch: char) {
    '0' <= ch <= '9'
  }

  function DigitChar(d: nat): (ch: char)
    requires d < 10
    ensures IsDigit(ch) && ch as int - '0' as int == d
  {
    "0123456789"[d]
  }

  /** The decimal numeral of `n`, without leading zeros. */
  function NatToString(n: nat): (s: string)
    ensures |s| >= 1
    ensures forall i :: 0 <= i < |s| ==> IsDigit(s[i])
    ensures s[0] == '0' ==> n == 0
  {
    if n < 10 then [DigitChar(n)] else NatToString(n / 10) + [DigitChar(n % 10)]
  }

  /** JavaScript's conversion of an integer to a string: a minus sign, then the numeral. */
  function IntToString(i: int): (s: string)
    ensures |s| >= 1
    ensures i < 0 <==> s[0] == '-'
    ensures forall k :: (if i < 0 then 1 else 0) <= k < |s| ==> IsDigit(s[k])
    ensures i < 0 ==> |s| >= 2
    ensures s[if i < 0 then 1 else 0] == '0' ==> i == 0
  {
    if i < 0 then "-" + NatToString(-i) else NatToString(i)
  }

  /** Reads back a decimal numeral; `None` for an empty string or one with a non-digit. */
  function ParseNat(s: string): Option<nat> {
    if s == [] || !IsDigit(s[|s| - 1]) then None
    else
      var d := s[|s| - 1] as int - '0' as int;
      if |s| == 1 then Some(d)
      else match ParseNat(s[..|s| - 1])
        case None => None
        case Some(v) => Some(v * 10 + d)
  }

  /** Reads back the output of `IntToString`. */
  function ParseInt(s: string): Option<int> {
    if |s| >= 2 && s[0] == '-' then
      match ParseNat(s[1..])
      case None => None
      case Some(v) => Some(-(v as int))
    else match ParseNat(s)
      case None => None
      case Some(v) => Some(v)
  }

  lemma {:induction false} NatToStringRoundTrip(n: nat)
    ensures ParseNat(NatToString(n)) == Some(n)
  {
    if n >= 10 {
      var s := NatToString(n);
      NatToStringRoundTrip(n / 10);
      assert s[..|s| - 1] == NatToString(n / 10);
    }
  }

  lemma IntToStringRoundTrip(i: int)
    ensures ParseInt(IntToString(i)) == Some(i)
  {
    if i < 0 {
      NatToStringRoundTrip(-i);
      ReadNegative(NatToString(-i), -i);
    } else {
      NatToStringRoundTrip(i);
      ReadNonNegative(NatToString(i), i);
    }
  }

  lemma ReadNegative(t: string, v: nat)
    requires ParseNat(t) == Some(v)
    ensures ParseInt("-" + t) == Some(-(v as int))
  {
    assert ("-" + t)[1..] == t;
  }

  lemma ReadNonNegative(t: string, v: nat)
    requires |t| >= 1 && IsDigit(t[0])
    requires ParseNat(t) == Some(v)
    ensures ParseInt(t) == Some(v)
  {
  }

  /** JavaScript's integer quotient: the exact quotient rounded toward zero. */
  function TruncatedQuotient(a: int, b: int): (q: int)
    requires b > 0
    ensures a >= 0 ==> 0 <= q * b <= a < q * b + b
    ensures a < 0 ==> q * b - b < a <= q * b <= 0
  {
    if a >= 0 then
      FloorQuotientBounds(a, b);
      a / b
    else
      FloorQuotientBounds(-a, b);
      NegatedProduct(-a / b, b);
      -((-a) / b)
  }

  lemma FloorQuotientBounds(n: nat, b: int)
    requires b > 0
    ensures 0 <= (n / b) * b <= n < (n / b) * b + b
  {
    var q, m := n / b, n % b;
    assert n == q * b + m && 0 <= m < b;
    assert q >= 0;
    NonNegativeProduct(q, b);
  }

  lemma NonNegativeProduct(q: nat, b: nat)
    ensures q * b >= 0
  {
  }

  lemma NegatedProduct(q: int, b: int)
    ensures (-q) * b == -(q * b)
  {
  }

  /**
   * JavaScript's `%` on integers: what is left of the dividend after taking away the divisor
   * times the quotient rounded toward zero, so the remainder takes the sign of the dividend.
   */
  function JsRemainder(a: int, b: int): (r: int)
    requires b > 0
    ensures r == a - TruncatedQuotient(a, b) * b
    ensures a >= 0 ==> 0 <= r < b
    ensures a < 0 ==> -b < r <= 0
  {
    if a >= 0 then a % b else -((-a) % b)
  }

  /**
   * `formatDuration(minutes)`: hours by `Math.floor(minutes / 60)` (Dafny's `/` rounds down
   * for a positive divisor), the rest by JavaScript's `%`. A non-negative duration reads back
   * as itself, and for no integer does a zero minutes part appear after the hours.
   */
  function FormatDuration(minutes: int): (r: string)
    ensures minutes >= 0 ==> ParseDuration(r) == Some(minutes)
    ensures !EndsWith(r, "h 0min")
  {
    var hours := minutes / 60;
    var remainingMinutes := JsRemainder(minutes, 60);
    DurationTextReadsBack(minutes);
    NoZeroMinutesText(hours, remainingMinutes);
    DurationText(hours, remainingMinutes)
  }

  /** The text `formatDuration` builds from the hours and the rest; a zero part is left out. */
  function DurationText(hours: int, remainingMinutes: int): string {
    if hours == 0 then IntToString(remainingMinutes) + "min"
    else if remainingMinutes == 0 then IntToString(hours) + "h"
    else IntToString(hours) + "h " + IntToString(remainingMinutes) + "min"
  }

  /** For a non-negative number of minutes, the hours and the rest split it exactly. */
  lemma DurationParts(minutes: int)
    requires minutes >= 0
    ensures (minutes / 60) * 60 + JsRemainder(minutes, 60) == minutes
    ensures 0 <= JsRemainder(minutes, 60) < 60
  {
  }

  /** Under an hour the output is "<minutes>min". */
  lemma DurationUnderAnHour(minutes: int)
    requires 0 <= minutes < 60
    ensures FormatDuration(minutes) == NatToString(minutes) + "min"
  {
  }

  /** A positive whole number of hours is "<hours>h", with no minutes part. */
  lemma DurationWholeHours(minutes: int)
    requires minutes > 0 && minutes % 60 == 0
    ensures FormatDuration(minutes) == NatToString(minutes / 60) + "h"
  {
  }

  /** Otherwise the output is "<h>h <r>min" with the rest strictly between 0 and 60. */
  lemma DurationHoursAndMinutes(minutes: int)
    requires minutes >= 60 && minutes % 60 != 0
    ensures FormatDuration(minutes) == NatToString(minutes / 60) + "h " + NatToString(minutes % 60) + "min"
    ensures 0 < minutes % 60 < 60 && (minutes / 60) * 60 + minutes % 60 == minutes
  {
  }

  predicate EndsWith(s: string, suffix: string) {
    |s| >= |suffix| && s[|s| - |suffix|..] == suffix
  }

  /** The assembled text never ends in "h 0min": a zero minutes part is always dropped. */
  lemma NoZeroMinutesText(hours: int, remainingMinutes: int)
    ensures !EndsWith(DurationText(hours, remainingMinutes), "h 0min")
  {
    var s := DurationText(hours, remainingMinutes);
    if hours == 0 {
      var t := IntToString(remainingMinutes);
      assert s == t + "min";
      if |t| >= 2 {
        assert s[|s| - 5] == t[|t| - 2] != ' ';
      }
    } else if remainingMinutes == 0 {
      assert s[|s| - 1] == 'h';
    } else {
      var t := IntToString(remainingMinutes);
      assert s == IntToString(hours) + "h " + t + "min";
      if |t| == 1 {
        assert remainingMinutes > 0 && t == NatToString(remainingMinutes);
        assert s[|s| - 4] == t[0] != '0';
      } else {
        assert s[|s| - 5] == t[|t| - 2] != ' ';
      }
    }
  }

  /** The index of the first `ch` in `s`, or `|s|` when there is none. */
  function IndexOf(s: string, ch: char): (k: nat)
    ensures k <= |s|
    ensures forall i :: 0 <= i < k ==> s[i] != ch
    ensures k < |s| ==> s[k] == ch
  {
    if s == [] then 0 else if s[0] == ch then 0 else 1 + IndexOf(s[1..], ch)
  }

  /** Reads back "<m>min", "<h>h" or "<h>h <m>min" as a number of minutes. */
  function ParseDuration(s: string): Option<int> {
    if EndsWith(s, "min") then ParseMinutesForm(s[..|s| - 3])
    else if EndsWith(s, "h") then
      match ParseNat(s[..|s| - 1])
      case None => None
      case Some(h) => Some(h * 60)
    else None
  }

  /** Reads "<m>" or "<h>h <m>", the text before a trailing "min". */
  function ParseMinutesForm(body: string): Option<int> {
    var k := IndexOf(body, 'h');
    if k == |body| then
      match ParseNat(body)
      case None => None
      case Some(m) => Some(m)
    else if k + 1 < |body| && body[k + 1] == ' ' then
      match ParseNat(body[..k])
      case None => None
      case Some(h) =>
        match ParseNat(body[k + 2..])
        case None => None
        case Some(m) => Some(h * 60 + m)
    else None
  }

  lemma ReadMinutes(m: nat)
    ensures ParseDuration(NatToString(m) + "min") == Some(m)
  {
    var t := NatToString(m);
    var s := t + "min";
    assert s[..|s| - 3] == t;
    NatToStringRoundTrip(m);
  }

  lemma ReadHours(h: nat)
    ensures ParseDuration(NatToString(h) + "h") == Some(h * 60)
  {
    var t := NatToString(h);
    var s := t + "h";
    assert s[..|s| - 1] == t;
    NatToStringRoundTrip(h);
  }

  lemma ReadHoursAndMinutes(h: nat, m: nat)
    ensures ParseDuration(NatToString(h) + "h " + NatToString(m) + "min") == Some(h * 60 + m)
  {
    NatToStringRoundTrip(h);
    NatToStringRoundTrip(m);
    var body := NatToString(h) + "h " + NatToString(m);
    ReadHoursAndMinutesForm(NatToString(h), NatToString(m), h, m);
    SplitSuffix(body, "min");
  }

  lemma ReadHoursAndMinutesForm(th: string, tm: string, h: nat, m: nat)
    requires forall i :: 0 <= i < |th| ==> IsDigit(th[i])
    requires ParseNat(th) == Some(h) && ParseNat(tm) == Some(m)
    ensures ParseMinutesForm(th + "h " + tm) == Some(h * 60 + m)
  {
    var body := th + "h " + tm;
    assert body[|th|] == 'h' && body[|th| + 1] == ' ';
    assert forall i :: 0 <= i < |th| ==> body[i] == th[i];
    IndexOfFirst(body, 'h', |th|);
    assert body[..|th|] == th;
    assert body[|th| + 2..] == tm;
  }

  /** `IndexOf` finds the first occurrence. */
  lemma IndexOfFirst(s: string, ch: char, k: nat)
    requires k < |s| && s[k] == ch
    requires forall i :: 0 <= i < k ==> s[i] != ch
    ensures IndexOf(s, ch) == k
  {
  }

  /** Taking a suffix off a concatenation gives back the front. */
  lemma SplitSuffix(front: string, suffix: string)
    ensures var s := front + suffix; EndsWith(s, suffix) && s[..|s| - |suffix|] == front
  {
    var s := front + suffix;
    assert s[|s| - |suffix|..] == suffix;
    assert s[..|s| - |suffix|] == front;
  }

  /** The text built for a non-negative duration reads back as the same number of minutes. */
  lemma DurationTextReadsBack(minutes: int)
    ensures minutes >= 0 ==> ParseDuration(DurationText(minutes / 60, JsRemainder(minutes, 60))) == Some(minutes)
  {
    if minutes >= 0 {
      var hours, rest := minutes / 60, JsRemainder(minutes, 60);
      var s := DurationText(hours, rest);
      if hours == 0 {
        assert s == NatToString(rest) + "min";
        ReadMinutes(rest);
      } else if rest == 0 {
        assert s == NatToString(hours) + "h";
        ReadHours(hours);
      } else {
        assert s == NatToString(hours) + "h " + NatToString(rest) + "min";
        ReadHoursAndMinutes(hours, rest);
      }
    }
  }

  /** Distinct non-negative durations are formatted differently. */
  lemma DurationInjective(a: int, b: int)
    requires a >= 0 && b >= 0
    requires FormatDuration(a) == FormatDuration(b)
    ensures a == b
  {
  }

  /** `Math.round`: the nearest integer, halves rounded up. */
  function JsRound(x: real): (n: int)
    ensures x - 0.5 < n as real <= x + 0.5
  {
    (x + 0.5).Floor
  }

  /**
   * `formatDistance(meters)`: from 1000 m on, kilometres rendered by `toFixed(1)` (the
   * parameter `toFixed1`) and " km"; below that, the rounded metres and " m". The " km" form
   * is produced exactly from 1000 m on, and the metres read back as `Math.round(meters)`.
   */
  function FormatDistance(meters: real, toFixed1: real -> string): (r: string)
    ensures EndsWith(r, " km") <==> meters >= 1000.0
    ensures meters < 1000.0 ==> EndsWith(r, " m") && ParseInt(r[..|r| - 2]) == Some(JsRound(meters))
  {
    if meters >= 1000.0 then
      var t := toFixed1(meters / 1000.0);
      SplitSuffix(t, " km");
      t + " km"
    else
      var n := JsRound(meters);
      MetresText(n);
      IntToString(n) + " m"
  }

  /** "<n> m" ends in " m", not in " km", and the text before " m" reads back as `n`. */
  lemma MetresText(n: int)
    ensures var s := IntToString(n) + " m";
            EndsWith(s, " m") && !EndsWith(s, " km") && ParseInt(s[..|s| - 2]) == Some(n)
  {
    var t := IntToString(n);
    var s := t + " m";
    SplitSuffix(t, " m");
    assert s[|s| - 2] == ' ' != 'k';
    IntToStringRoundTrip(n);
  }

  /** An integer number of metres below 1000 is printed as itself followed by " m". */
  lemma DistanceWholeMetres(meters: int, toFixed1: real -> string)
    requires meters < 1000
    ensures FormatDistance(meters as real, toFixed1) == IntToString(meters) + " m"
  {
  }
}
