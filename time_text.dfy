/**
 * The elapsed-time and duration labels: the decomposition of a millisecond
 * count into hours, minutes and seconds (or minutes and seconds), and the
 * decimal text the labels show.
 *
 * The source divides by positive constants with Python's `//`, `%` and
 * `divmod`, which round toward minus infinity; for a positive divisor that
 * is exactly Dafny's Euclidean `/` and `%`, so these definitions hold for
 * every integer, negative counts included.
 */
module TimeText {

  datatype Hms = Hms(hours: int, minutes: int, seconds: int)

  datatype MinSec = MinSec(minutes: int, seconds: int)

  /** update_total_duration: whole seconds split into hours and a remainder, the remainder into minutes and seconds. */
  function HmsByDivmod(ms: int): (t: Hms)
    ensures t.hours * 3600 + t.minutes * 60 + t.seconds == ms / 1000
    ensures 0 <= t.minutes < 60 && 0 <= t.seconds < 60
  {
    var hours, remainder := (ms / 1000) / 3600, (ms / 1000) % 3600;
    Hms(hours, remainder / 60, remainder % 60)
  }

  /** update_playback_time: hours, minutes and seconds computed separately from the whole seconds by division and remainder. */
  function HmsByFloor(ms: int): (t: Hms)
    ensures t.hours * 3600 + t.minutes * 60 + t.seconds == ms / 1000
    ensures 0 <= t.minutes < 60 && 0 <= t.seconds < 60
  {
    var totalSeconds := ms / 1000;
    Hms(totalSeconds / 3600, (totalSeconds % 3600) / 60, totalSeconds % 60)
  }

  /**
   * A whole-second count has exactly one hours/minutes/seconds form with
   * minutes and seconds below 60.
   */
  lemma HmsUnique(secs: int, a: Hms, b: Hms)
    requires a.hours * 3600 + a.minutes * 60 + a.seconds == secs
    requires b.hours * 3600 + b.minutes * 60 + b.seconds == secs
    requires 0 <= a.minutes < 60 && 0 <= a.seconds < 60
    requires 0 <= b.minutes < 60 && 0 <= b.seconds < 60
    ensures a == b
  {
  }

  /** The duration label's divmod form and the elapsed label's `//`/`%` form agree. */
  lemma HmsFormsAgree(ms: int)
    ensures HmsByDivmod(ms) == HmsByFloor(ms)
  {
  }

  /** update_buttons: whole minutes, and the whole seconds left over within the minute. */
  function MinSecOf(ms: int): (t: MinSec)
    ensures 0 <= t.seconds < 60
    ensures t.minutes * 60000 + t.seconds * 1000 <= ms < t.minutes * 60000 + (t.seconds + 1) * 1000
  {
    MinSec(ms / 60000, (ms % 60000) / 1000)
  }

  /** The m:ss form is the h:mm:ss form with the hours folded into the minutes. */
  lemma MinSecMatchesHms(ms: int)
    ensures MinSecOf(ms).minutes == HmsByFloor(ms).hours * 60 + HmsByFloor(ms).minutes
    ensures MinSecOf(ms).seconds == HmsByFloor(ms).seconds
  {
  }

  // ---- decimal text ----

  /** Every character is a decimal digit. */
  predicate Digits(s: string)
  {
    forall i :: 0 <= i < |s| ==> '0' <= s[i] <= '9'
  }

  function DigitChar(d: int): char
    requires 0 <= d < 10
  {
    "0123456789"[d]
  }

  function DigitValue(c: char): int
  {
    if '0' <= c <= '9' then c as int - '0' as int else 0
  }

  /** The decimal digits of a natural number, without leading zeros. */
  function NatText(n: nat): (s: string)
    ensures 1 <= |s|
    ensures Digits(s)
    ensures s[0] == '0' <==> n == 0
    ensures |s| == 1 || s[0] != '0'
  {
    if n < 10 then [DigitChar(n)] else NatText(n / 10) + [DigitChar(n % 10)]
  }

  /** Reads a string of decimal digits back as a number. */
  function ParseNat(s: string): nat
  {
    if s == [] then 0 else ParseNat(s[..|s| - 1]) * 10 + (if '0' <= s[|s| - 1] <= '9' then DigitValue(s[|s| - 1]) else 0)
  }

  lemma DigitRoundTrip(d: int)
    requires 0 <= d < 10
    ensures '0' <= DigitChar(d) <= '9' && DigitValue(DigitChar(d)) == d
  {
  }

  /** Printing and reading back are inverse. */
  lemma {:induction false} ParseNatText(n: nat)
    ensures ParseNat(NatText(n)) == n
  {
    var s := NatText(n);
    if n < 10 {
      DigitRoundTrip(n);
      assert s[..|s| - 1] == [];
    } else {
      assert s[..|s| - 1] == NatText(n / 10);
      assert s[|s| - 1] == DigitChar(n % 10);
      DigitRoundTrip(n % 10);
      ParseNatText(n / 10);
    }
  }

  /** Python's `str(n)`, also `f"{n}"`. */
  function IntText(n: int): (s: string)
    ensures 1 <= |s|
    ensures s[0] == '-' <==> n < 0
    ensures n >= 0 ==> s == NatText(n)
    ensures n < 0 ==> s[1..] == NatText(-n)
  {
    if n < 0 then "-" + NatText(-n) else NatText(n)
  }

  /** Python's `f"{n:02d}"`: zero-filled to width two, the sign counted in the width. */
  function Pad2(n: int): (s: string)
  {
    if 0 <= n < 10 then "0" + NatText(n) else IntText(n)
  }

  lemma Pad2TwoDigits(n: int)
    requires 0 <= n < 100
    ensures |Pad2(n)| == 2 && Digits(Pad2(n)) && ParseNat(Pad2(n)) == n
  {
    if n >= 10 {
      assert NatText(n) == NatText(n / 10) + [DigitChar(n % 10)];
      ParseNatText(n);
    } else {
      var s := Pad2(n);
      assert s[..|s| - 1] == "0";
      assert ParseNat("0") == 0;
      ParseNatText(n);
    }
  }

  /** The `"hh:mm:ss"` text of a decomposition. */
  function HmsText(t: Hms): string
  {
    Pad2(t.hours) + ":" + Pad2(t.minutes) + ":" + Pad2(t.seconds)
  }

  /** The `"m:ss"` text of a decomposition. */
  function MinSecText(t: MinSec): string
  {
    IntText(t.minutes) + ":" + Pad2(t.seconds)
  }

  /** The total-duration label set by update_total_duration. */
  function TotalDurationLabel(ms: int): string
  {
    HmsText(HmsByDivmod(ms))
  }

  /** The elapsed label set by update_playback_time; `stopped` means the player is stopped. */
  function PlaybackTimeLabel(stopped: bool, ms: int): string
  {
    if stopped then "0:00:00" else HmsText(HmsByFloor(ms))
  }

  /**
   * Below 100 hours the h:mm:ss label is eight characters with colons at 2
   * and 5, and its three fields read back as the whole seconds elapsed.
   */
  lemma HmsLabelReadsBack(ms: int)
    requires 0 <= ms < 100 * 3600 * 1000
    ensures var s := TotalDurationLabel(ms); var t := HmsByDivmod(ms);
      |s| == 8 && s[2] == ':' && s[5] == ':' &&
      Digits(s[0..2]) && Digits(s[3..5]) && Digits(s[6..8]) &&
      ParseNat(s[0..2]) == t.hours && ParseNat(s[3..5]) == t.minutes && ParseNat(s[6..8]) == t.seconds
  {
    var t := HmsByDivmod(ms);
    assert 0 <= t.hours < 100;
    Pad2TwoDigits(t.hours);
    Pad2TwoDigits(t.minutes);
    Pad2TwoDigits(t.seconds);
    var s := TotalDurationLabel(ms);
    assert s[0..2] == Pad2(t.hours);
    assert s[3..5] == Pad2(t.minutes);
    assert s[6..8] == Pad2(t.seconds);
  }

  /** The elapsed label shows the same text as the duration label would, unless stopped. */
  lemma PlaybackLabelMatchesDurationLabel(ms: int)
    ensures PlaybackTimeLabel(false, ms) == TotalDurationLabel(ms)
    ensures PlaybackTimeLabel(true, ms) == "0:00:00"
  {
  }

  /** The m:ss label reads back as its minutes and seconds for a non-negative count. */
  lemma MinSecLabelReadsBack(ms: int)
    requires 0 <= ms
    ensures var t := MinSecOf(ms); var s := MinSecText(t);
      exists k :: 0 <= k < |s| && s[k] == ':' && |s| == k + 3 && Digits(s[..k]) && Digits(s[k + 1..]) &&
        ParseNat(s[..k]) == t.minutes && ParseNat(s[k + 1..]) == t.seconds
  {
    var t := MinSecOf(ms);
    var s := MinSecText(t);
    var k := |NatText(t.minutes)|;
    assert s[..k] == NatText(t.minutes);
    assert s[k + 1..] == Pad2(t.seconds);
    ParseNatText(t.minutes);
    Pad2TwoDigits(t.seconds);
  }
}
