/** The "MM:SS" clock text shown for the remaining time and, on the leaderboard,
    for the time a team used. */
module TimeFormat {
  import opened Types
  import opened Text

  /** `Math.floor(seconds / 60)`: whole minutes, rounded towards minus infinity. */
  function Minutes(seconds: int): (m: int)
    ensures 60 * m <= seconds < 60 * m + 60
  {
    seconds / 60
  }

  /** JavaScript's `seconds % 60`: the remainder takes the sign of `seconds`
      (truncating division), unlike the always non-negative `%` of Dafny. */
  function RemainderSeconds(seconds: int): (r: int)
    ensures -60 < r < 60
    ensures seconds >= 0 ==> r >= 0
    ensures seconds < 0 ==> r <= 0
    ensures (seconds - r) % 60 == 0
  {
    if seconds >= 0 then seconds % 60 else -((-seconds) % 60)
  }

  /** Two-character, zero-padded rendering of a count. */
  function Pad2(i: int): (r: string)
    ensures |r| >= 2
  {
    PadStart(IntToString(i), 2, '0')
  }

  /** `formatTime(seconds)`: whole minutes and the remainder seconds, each padded
      to two characters with leading zeros and joined by a colon. */
  function FormatTime(seconds: int): (r: string)
    ensures |r| >= 5
  {
    Pad2(Minutes(seconds)) + ":" + Pad2(RemainderSeconds(seconds))
  }

  /** `calculateTimeUsed(timeRemaining)`: the clock text of the seconds spent of a turn. */
  function CalculateTimeUsed(timeRemaining: int): (r: string)
    ensures |r| >= 5
    ensures 0 <= timeRemaining <= TurnSeconds ==> ParseClock(r) == Some(TurnSeconds - timeRemaining)
  {
    var timeUsed := TurnSeconds - timeRemaining;
    if 0 <= timeUsed < 6000 then
      FormatTimeRoundTrip(timeUsed);
      FormatTime(timeUsed)
    else
      FormatTime(timeUsed)
  }

  /** The two decimal digits of a number below 100. */
  function TwoDigits(n: nat): (r: string)
    requires n < 100
    ensures |r| == 2 && IsDigits(r)
  {
    [DigitChar(n / 10), DigitChar(n % 10)]
  }

  /** Below 100, padding the numeral to two places gives exactly its two digits. */
  lemma Pad2TwoDigits(n: nat)
    requires n < 100
    ensures Pad2(n) == TwoDigits(n)
  {
    if n >= 10 {
      assert Decimal(n) == Decimal(n / 10) + [DigitChar(n % 10)];
    }
  }

  /** On 0..5999 seconds the text is "MM:SS", MM = seconds / 60 and SS = seconds % 60,
      each as two zero-padded decimal digits. */
  lemma FormatTimeDigits(seconds: int)
    requires 0 <= seconds < 6000
    ensures FormatTime(seconds) == TwoDigits(seconds / 60) + ":" + TwoDigits(seconds % 60)
  {
    var m := Minutes(seconds);
    var r := RemainderSeconds(seconds);
    assert m == seconds / 60 && r == seconds % 60;
    Pad2TwoDigits(m);
    Pad2TwoDigits(r);
  }

  /** The number written by two digit characters. */
  function PairValue(hi: char, lo: char): (n: nat)
    requires IsDigit(hi) && IsDigit(lo)
    ensures n < 100
  {
    10 * DigitValue(hi) + DigitValue(lo)
  }

  /** Reads a well-formed "MM:SS" clock text (seconds below 60) back to a number of seconds. */
  function ParseClock(t: string): Option<nat>
  {
    if && |t| == 5 && IsDigit(t[0]) && IsDigit(t[1]) && t[2] == ':'
       && IsDigit(t[3]) && IsDigit(t[4]) && PairValue(t[3], t[4]) < 60
    then Some(60 * PairValue(t[0], t[1]) + PairValue(t[3], t[4]))
    else None
  }

  /** The two digits of a number below 100 read back to it. */
  lemma TwoDigitsRoundTrip(n: nat)
    requires n < 100
    ensures PairValue(TwoDigits(n)[0], TwoDigits(n)[1]) == n
  {
    DigitValueOfChar(n / 10);
    DigitValueOfChar(n % 10);
  }

  /** Two-digit minutes and seconds below 60, joined by a colon, read back to their seconds. */
  lemma ParseTwoDigits(m: nat, r: nat)
    requires m < 100 && r < 60
    ensures ParseClock(TwoDigits(m) + ":" + TwoDigits(r)) == Some(60 * m + r)
  {
    var t := TwoDigits(m) + ":" + TwoDigits(r);
    TwoDigitsRoundTrip(m);
    TwoDigitsRoundTrip(r);
    assert |t| == 5 && t[2] == ':';
    assert t[0] == TwoDigits(m)[0] && t[1] == TwoDigits(m)[1];
    assert t[3] == TwoDigits(r)[0] && t[4] == TwoDigits(r)[1];
  }

  /** The clock text of 0..5999 seconds is well formed and reads back to the same seconds. */
  lemma FormatTimeRoundTrip(seconds: int)
    requires 0 <= seconds < 6000
    ensures ParseClock(FormatTime(seconds)) == Some(seconds)
  {
    var m := seconds / 60;
    var r := seconds % 60;
    var t := TwoDigits(m) + ":" + TwoDigits(r);
    FormatTimeDigits(seconds);
    assert FormatTime(seconds) == t;
    ParseTwoDigits(m, r);
    assert ParseClock(t) == Some(60 * m + r);
    assert 60 * m + r == seconds;
  }

  /** A digit pair is the two-digit rendering of its own value. */
  lemma TwoDigitsOfValue(hi: char, lo: char)
    requires IsDigit(hi) && IsDigit(lo)
    ensures TwoDigits(PairValue(hi, lo)) == [hi, lo]
  {
    var a := DigitValue(hi);
    var b := DigitValue(lo);
    assert (10 * a + b) / 10 == a && (10 * a + b) % 10 == b;
  }

  /** Minutes and remainder seconds recombine to a count that splits back into them. */
  lemma SplitSeconds(m: nat, r: nat)
    requires r < 60
    ensures (60 * m + r) / 60 == m && (60 * m + r) % 60 == r
  {
  }

  /** The text of m minutes and r seconds, for m below 100 and r below 60. */
  lemma FormatClock(m: nat, r: nat)
    requires m < 100 && r < 60
    ensures FormatTime(60 * m + r) == TwoDigits(m) + ":" + TwoDigits(r)
  {
    SplitSeconds(m, r);
    FormatTimeDigits(60 * m + r);
  }

  /** A five-character text with a colon in the middle is its two digit pairs
      joined by that colon. */
  lemma ClockParts(t: string)
    requires |t| == 5 && t[2] == ':'
    ensures t == [t[0], t[1]] + ":" + [t[3], t[4]]
  {
  }

  /** Every well-formed clock text is the rendering of the seconds it denotes. */
  lemma ParseClockRoundTrip(t: string)
    requires ParseClock(t).Some?
    ensures ParseClock(t).value < 6000
    ensures FormatTime(ParseClock(t).value) == t
  {
    var a := PairValue(t[0], t[1]);
    var b := PairValue(t[3], t[4]);
    assert ParseClock(t).value == 60 * a + b;
    TwoDigitsOfValue(t[0], t[1]);
    TwoDigitsOfValue(t[3], t[4]);
    FormatClock(a, b);
    ClockParts(t);
    assert TwoDigits(a) + ":" + TwoDigits(b) == t;
    assert FormatTime(60 * a + b) == t;
  }

  lemma FormatTimeExamples()
    ensures FormatTime(0) == "00:00"
    ensures FormatTime(599) == "09:59"
    ensures FormatTime(600) == "10:00"
  {
    FormatTimeDigits(0);
    FormatTimeDigits(599);
    FormatTimeDigits(600);
  }

  /** From 6000 seconds on, the minutes grow a third digit and the text is no longer "MM:SS". */
  lemma FormatTimeTooLong()
    ensures FormatTime(6000) == "100:00"
  {
    assert Minutes(6000) == 100 && RemainderSeconds(6000) == 0;
    assert Decimal(10) == "10";
    assert Decimal(100) == Decimal(10) + "0" == "100";
    assert Pad2(100) == "100";
    Pad2TwoDigits(0);
    assert Pad2(0) == "00";
    assert FormatTime(6000) == Pad2(100) + ":" + Pad2(0);
  }

  /** A negative count keeps JavaScript's signs: both fields print a minus sign. */
  lemma FormatTimeNegative()
    ensures FormatTime(-1) == "-1:-1"
  {
    assert Minutes(-1) == -1 && RemainderSeconds(-1) == -1;
    assert Decimal(1) == "1";
    assert IntToString(-1) == "-1";
    assert Pad2(-1) == "-1";
    assert FormatTime(-1) == Pad2(-1) + ":" + Pad2(-1);
  }

  /** For a remaining time within a turn, the time used is within a turn and its
      clock text reads back to 600 - remaining. */
  lemma TimeUsedInRange(timeRemaining: int)
    requires 0 <= timeRemaining <= TurnSeconds
    ensures 0 <= TurnSeconds - timeRemaining <= TurnSeconds
    ensures ParseClock(CalculateTimeUsed(timeRemaining)) == Some(TurnSeconds - timeRemaining)
  {
    FormatTimeRoundTrip(TurnSeconds - timeRemaining);
  }

  lemma TimeUsedExamples()
    ensures CalculateTimeUsed(600) == "00:00"
    ensures CalculateTimeUsed(0) == "10:00"
  {
    FormatTimeExamples();
  }
}
