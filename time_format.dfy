/**
 * The `formatTime` helper of the video editor component, which renders a
 * position in seconds as minutes, a colon and two-digit seconds, and the
 * "current / duration" label built from it.
 *
 * Input is an exact real number; the JavaScript operations it uses are
 * written out: `Math.floor`, the remainder operator `%` (whose result has the
 * sign of the dividend), `Number.prototype.toString` on an integer and
 * `String.prototype.padStart`.
 */
module TimeFormat {
  import opened Wrappers

  /** `Math.trunc`: rounds toward zero. */
  function Trunc(x: real): (n: int)
  {
    if x >= 0.0 then x.Floor else -((-x).Floor)
  }

  /** JavaScript's `x % 60`: `x` less the whole minutes in it, counted toward zero. */
  function RemainderOfMinute(x: real): (r: real)
  {
    x - 60.0 * (Trunc(x / 60.0) as real)
  }

  /** `Math.floor(seconds / 60)`. */
  function MinutesField(seconds: real): (m: int)
  {
    (seconds / 60.0).Floor
  }

  /** `Math.floor(seconds % 60)`. */
  function SecondsField(seconds: real): (s: int)
  {
    RemainderOfMinute(seconds).Floor
  }

  predicate IsDigit(c: char)
  {
    '0' <= c <= '9'
  }

  predicate AllDigits(s: string)
  {
    forall i :: 0 <= i < |s| ==> IsDigit(s[i])
  }

  function DigitChar(d: nat): (c: char)
    requires d < 10
    ensures IsDigit(c)
  {
    ('0' as int + d) as char
  }

  function DigitValue(c: char): (d: nat)
    requires IsDigit(c)
    ensures d < 10 && DigitChar(d) == c
  {
    (c as int - '0' as int) as nat
  }

  /** The decimal digits of `n`, without leading zeros. */
  function NatToDecimal(n: nat): (s: string)
    ensures 1 <= |s| && AllDigits(s)
  {
    if n < 10 then [DigitChar(n)] else NatToDecimal(n / 10) + [DigitChar(n % 10)]
  }

  /** The decimal text has one digit exactly below 10 and no leading zero. */
  lemma {:induction false} NatToDecimalCanonical(n: nat)
    ensures |NatToDecimal(n)| == 1 <==> n < 10
    ensures |NatToDecimal(n)| > 1 ==> NatToDecimal(n)[0] != '0'
  {
    if n >= 10 {
      NatToDecimalCanonical(n / 10);
      assert NatToDecimal(n)[0] == NatToDecimal(n / 10)[0];
    }
  }

  /** `String(n)` for an integer `n`: a minus sign for negative values, then the digits. */
  function IntToDecimal(n: int): (s: string)
  {
    if n < 0 then "-" + NatToDecimal(-n) else NatToDecimal(n)
  }

  /** The number a string of decimal digits denotes. */
  function ParseDecimal(s: string): (n: nat)
    requires AllDigits(s)
  {
    if s == [] then 0 else ParseDecimal(s[..|s| - 1]) * 10 + DigitValue(s[|s| - 1])
  }

  function Repeat(c: char, n: nat): (s: string)
  {
    if n == 0 then [] else Repeat(c, n - 1) + [c]
  }

  lemma {:induction false} RepeatChars(c: char, n: nat)
    ensures |Repeat(c, n)| == n
    ensures forall i :: 0 <= i < n ==> Repeat(c, n)[i] == c
  {
    if n > 0 {
      RepeatChars(c, n - 1);
    }
  }

  /** `s.padStart(targetLength, fill)` with a one-character fill. */
  function PadStart(s: string, targetLength: nat, fill: char): (r: string)
  {
    if |s| < targetLength then Repeat(fill, targetLength - |s|) + s else s
  }

  /**
   * The padded text has the target length, or the input's if that is longer;
   * it ends with the input and has only fill characters before it.
   */
  lemma PadStartSpec(s: string, targetLength: nat, fill: char)
    ensures
      var r := PadStart(s, targetLength, fill);
      && |r| == (if |s| < targetLength then targetLength else |s|)
      && r[|r| - |s|..] == s
      && forall i :: 0 <= i < |r| - |s| ==> r[i] == fill
  {
    if |s| < targetLength {
      RepeatChars(fill, targetLength - |s|);
      var r := PadStart(s, targetLength, fill);
      assert r[|r| - |s|..] == s;
    }
  }

  /** The template `${minutes}:${remainingSeconds.toString().padStart(2, "0")}`. */
  function Clock(minutes: int, remainingSeconds: int): (text: string)
  {
    IntToDecimal(minutes) + ":" + PadStart(IntToDecimal(remainingSeconds), 2, '0')
  }

  /** `formatTime(seconds)`. */
  function FormatTime(seconds: real): (text: string)
  {
    Clock(MinutesField(seconds), SecondsField(seconds))
  }

  /** `metadata?.duration || 0`: a missing duration counts as 0. */
  function DurationOrZero(duration: Option<real>): (d: real)
  {
    if duration.Some? then duration.value else 0.0
  }

  /** The text "current / duration" under the play button. */
  function TimeLabel(currentTime: real, duration: Option<real>): (text: string)
  {
    FormatTime(currentTime) + " / " + FormatTime(DurationOrZero(duration))
  }

  /** The value of a tens digit and a units digit. */
  function TwoDigitValue(tens: char, units: char): (n: nat)
    requires IsDigit(tens) && IsDigit(units)
    ensures n < 100
  {
    DigitValue(tens) * 10 + DigitValue(units)
  }

  /**
   * Reads "m:ss" back into whole seconds: decimal minutes, a colon, two
   * decimal digits below 60.
   */
  function ParseClock(text: string): (total: Option<nat>)
  {
    var n := |text|;
    if n < 4 || text[n - 3] != ':' || !IsDigit(text[n - 2]) || !IsDigit(text[n - 1]) then None
    else if !AllDigits(text[..n - 3]) || TwoDigitValue(text[n - 2], text[n - 1]) >= 60 then None
    else Some(ParseDecimal(text[..n - 3]) * 60 + TwoDigitValue(text[n - 2], text[n - 1]))
  }

  /** For a non-negative position the minutes field is the whole seconds divided by 60. */
  lemma MinutesOfWholeSeconds(seconds: real)
    requires seconds >= 0.0
    ensures MinutesField(seconds) >= 0
    ensures MinutesField(seconds) == seconds.Floor / 60
  {
    var m := MinutesField(seconds);
    assert m as real <= seconds / 60.0 < m as real + 1.0;
    assert 60 * m <= seconds.Floor < 60 * m + 60;
  }

  /** For a non-negative position the seconds field is the whole seconds modulo 60, so 0 to 59. */
  lemma SecondsOfWholeSeconds(seconds: real)
    requires seconds >= 0.0
    ensures SecondsField(seconds) == seconds.Floor % 60
    ensures 0 <= SecondsField(seconds) < 60
  {
    MinutesOfWholeSeconds(seconds);
    var m := MinutesField(seconds);
    assert Trunc(seconds / 60.0) == m;
    var rest := RemainderOfMinute(seconds);
    assert rest == seconds - 60.0 * m as real;
    assert rest.Floor == seconds.Floor - 60 * m;
  }

  /** Minutes times 60 plus the seconds field gives back the whole seconds. */
  lemma FieldsRecombine(seconds: real)
    requires seconds >= 0.0
    ensures MinutesField(seconds) * 60 + SecondsField(seconds) == seconds.Floor
  {
    MinutesOfWholeSeconds(seconds);
    SecondsOfWholeSeconds(seconds);
  }

  /** Reading one more digit multiplies by ten and adds it. */
  lemma ParseDecimalSnoc(s: string, c: char)
    requires AllDigits(s) && IsDigit(c)
    ensures AllDigits(s + [c])
    ensures ParseDecimal(s + [c]) == ParseDecimal(s) * 10 + DigitValue(c)
  {
    assert (s + [c])[..|s|] == s;
  }

  /** Parsing the decimal digits of `n` gives `n` back. */
  lemma {:induction false} ParseNatToDecimal(n: nat)
    ensures ParseDecimal(NatToDecimal(n)) == n
  {
    if n < 10 {
      assert NatToDecimal(n) == [] + [DigitChar(n)];
      ParseDecimalSnoc([], DigitChar(n));
    } else {
      ParseNatToDecimal(n / 10);
      ParseDecimalSnoc(NatToDecimal(n / 10), DigitChar(n % 10));
    }
  }

  /** A seconds value from 0 to 59, padded to two characters, is its tens digit and its units digit. */
  lemma PaddedSeconds(secs: nat)
    requires secs < 60
    ensures PadStart(NatToDecimal(secs), 2, '0') == [DigitChar(secs / 10), DigitChar(secs % 10)]
  {
    var digits := NatToDecimal(secs);
    if secs < 10 {
      assert digits == [DigitChar(secs)];
      assert Repeat('0', 1) == [] + ['0'];
      assert PadStart(digits, 2, '0') == ['0'] + digits;
    } else {
      assert digits == NatToDecimal(secs / 10) + [DigitChar(secs % 10)];
      assert NatToDecimal(secs / 10) == [DigitChar(secs / 10)];
    }
  }

  /** The seconds text of a value from 0 to 59 is two digits that read back as that value. */
  lemma TwoDigitSeconds(secs: nat)
    requires secs < 60
    ensures |PadStart(NatToDecimal(secs), 2, '0')| == 2
    ensures AllDigits(PadStart(NatToDecimal(secs), 2, '0'))
    ensures ParseDecimal(PadStart(NatToDecimal(secs), 2, '0')) == secs
  {
    PaddedSeconds(secs);
    var tens, units := DigitChar(secs / 10), DigitChar(secs % 10);
    ParseDecimalSnoc([], tens);
    assert [] + [tens] == [tens];
    ParseDecimalSnoc([tens], units);
    assert [tens] + [units] == [tens, units];
  }

  /** For a non-negative position the text depends only on its whole seconds. */
  lemma FormatWholeSeconds(seconds: real)
    requires seconds >= 0.0
    ensures FormatTime(seconds) == Clock(seconds.Floor / 60, seconds.Floor % 60)
  {
    MinutesOfWholeSeconds(seconds);
    SecondsOfWholeSeconds(seconds);
  }

  /** The clock text spelled out character by character after the minutes. */
  lemma ClockChars(minutes: nat, secs: nat)
    requires secs < 60
    ensures Clock(minutes, secs)
         == NatToDecimal(minutes) + [':', DigitChar(secs / 10), DigitChar(secs % 10)]
  {
    PaddedSeconds(secs);
  }

  /** Digits, a colon and two more digits hold exactly one colon, three places from the end. */
  lemma OneColon(digits: string, tens: char, units: char)
    requires AllDigits(digits) && IsDigit(tens) && IsDigit(units)
    ensures
      var text := digits + [':', tens, units];
      forall i :: 0 <= i < |text| ==> (text[i] == ':' <==> i == |text| - 3)
  {
    var text := digits + [':', tens, units];
    forall i | 0 <= i < |text| ensures text[i] == ':' <==> i == |text| - 3 {
      if i < |digits| {
        assert text[i] == digits[i];
      }
    }
  }

  /** Reading digits, a colon and two digits below 60 gives minutes times 60 plus seconds. */
  lemma ParseClockChars(digits: string, tens: char, units: char)
    requires |digits| >= 1 && AllDigits(digits) && IsDigit(tens) && IsDigit(units)
    requires TwoDigitValue(tens, units) < 60
    ensures ParseClock(digits + [':', tens, units])
         == Some(ParseDecimal(digits) * 60 + TwoDigitValue(tens, units))
  {
    var text := digits + [':', tens, units];
    var n := |text|;
    assert text[n - 3] == ':' && text[n - 2] == tens && text[n - 1] == units;
    assert text[..n - 3] == digits;
  }

  /** Minutes' digits, exactly one colon, and two digits of seconds. */
  lemma ClockShape(minutes: nat, secs: nat)
    requires secs < 60
    ensures
      var text := Clock(minutes, secs);
      && |text| >= 4
      && text == NatToDecimal(minutes) + ":" + text[|text| - 2..]
      && AllDigits(text[|text| - 2..])
      && forall i :: 0 <= i < |text| ==> (text[i] == ':' <==> i == |text| - 3)
  {
    var digits := NatToDecimal(minutes);
    var tens, units := DigitChar(secs / 10), DigitChar(secs % 10);
    ClockChars(minutes, secs);
    OneColon(digits, tens, units);
    var text := digits + [':', tens, units];
    assert text[|text| - 2..] == [tens, units];
    assert text == digits + ":" + [tens, units];
  }

  /** Reading the clock text back gives minutes times 60 plus seconds. */
  lemma ParseClockOfClock(minutes: nat, secs: nat)
    requires secs < 60
    ensures ParseClock(Clock(minutes, secs)) == Some(minutes * 60 + secs)
  {
    var digits := NatToDecimal(minutes);
    var tens, units := DigitChar(secs / 10), DigitChar(secs % 10);
    ClockChars(minutes, secs);
    assert TwoDigitValue(tens, units) == secs;
    ParseNatToDecimal(minutes);
    ParseClockChars(digits, tens, units);
  }

  /**
   * For a non-negative position the text is the minutes' digits, exactly one
   * colon, and two digits of seconds.
   */
  lemma FormatTimeShape(seconds: real)
    requires seconds >= 0.0
    ensures
      var text := FormatTime(seconds);
      && |text| >= 4
      && text == NatToDecimal(seconds.Floor / 60) + ":" + text[|text| - 2..]
      && AllDigits(text[|text| - 2..])
      && forall i :: 0 <= i < |text| ==> (text[i] == ':' <==> i == |text| - 3)
  {
    MinutesOfWholeSeconds(seconds);
    SecondsOfWholeSeconds(seconds);
    ClockShape(MinutesField(seconds), SecondsField(seconds));
  }

  /** Reading the text of a non-negative position back gives its whole seconds. */
  lemma FormatTimeRoundTrip(seconds: real)
    requires seconds >= 0.0
    ensures ParseClock(FormatTime(seconds)) == Some(seconds.Floor as nat)
  {
    FieldsRecombine(seconds);
    MinutesOfWholeSeconds(seconds);
    SecondsOfWholeSeconds(seconds);
    ParseClockOfClock(MinutesField(seconds), SecondsField(seconds));
  }

  /** Two non-negative positions show the same text exactly when they fall in the same whole second. */
  lemma SameTextSameSecond(a: real, b: real)
    requires a >= 0.0 && b >= 0.0
    ensures FormatTime(a) == FormatTime(b) <==> a.Floor == b.Floor
  {
    FormatTimeRoundTrip(a);
    FormatTimeRoundTrip(b);
    MinutesOfWholeSeconds(a);
    MinutesOfWholeSeconds(b);
    SecondsOfWholeSeconds(a);
    SecondsOfWholeSeconds(b);
  }

  /** A missing duration is shown as "0:00". */
  lemma MissingDurationShowsZero(currentTime: real)
    ensures FormatTime(DurationOrZero(None)) == "0:00"
    ensures TimeLabel(currentTime, None) == FormatTime(currentTime) + " / 0:00"
  {
    assert MinutesField(0.0) == 0 && SecondsField(0.0) == 0;
    ClockChars(0, 0);
    assert NatToDecimal(0) == [DigitChar(0)];
    assert [DigitChar(0)] + [':', DigitChar(0), DigitChar(0)] == "0:00";
  }

  /**
   * A negative input, which the component never passes, is rendered as
   * JavaScript does: -30 seconds is minute -1 and second -30, and "-30" is
   * already two characters long, so no padding is added.
   */
  lemma NegativeInput()
    ensures FormatTime(-30.0) == "-1:-30"
  {
    assert MinutesField(-30.0) == -1;
    assert Trunc(-30.0 / 60.0) == 0;
    assert SecondsField(-30.0) == -30;
    assert NatToDecimal(1) == "1";
    assert NatToDecimal(3) == "3";
    assert NatToDecimal(30) == NatToDecimal(3) + "0";
    assert IntToDecimal(-30) == "-30";
    assert PadStart("-30", 2, '0') == "-30";
  }
}
