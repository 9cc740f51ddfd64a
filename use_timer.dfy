/** The `useTimer` hook (src/hooks/useTimer.js): a seconds count that grows
    by one per interval tick while running, shown as `HH:MM:SS`. */
module UseTimer {
  import opened Text

  /** The display the second effect computes from the count: hours,
      minutes of the hour and seconds of the minute, each padded to two
      digits. */
  function FormatClock(s: nat): (r: string)
    ensures s < 360000 ==> |r| == 8 && r[2] == ':' && r[5] == ':'
  {
    Pad2(s / 3600) + ":" + Pad2((s % 3600) / 60) + ":" + Pad2(s % 60)
  }

  /** The three fields of an `HH:MM:SS` text, read back as a count of seconds. */
  function ReadClock(t: string): nat
    requires |t| == 8 && AllDigits(t[..2]) && AllDigits(t[3..5]) && AllDigits(t[6..])
  {
    3600 * ParseNat(t[..2]) + 60 * ParseNat(t[3..5]) + ParseNat(t[6..])
  }

  /** Below 100 hours the display is 8 characters of digits and colons, and
      reading it back gives the count. */
  lemma FormatClockReadsBack(s: nat)
    requires s < 360000
    ensures |FormatClock(s)| == 8
    ensures AllDigits(FormatClock(s)[..2]) && AllDigits(FormatClock(s)[3..5]) && AllDigits(FormatClock(s)[6..])
    ensures ReadClock(FormatClock(s)) == s
  {
    var h, m, x := s / 3600, (s % 3600) / 60, s % 60;
    ClockParts(s);
    ThreeFields(Pad2(h), Pad2(m), Pad2(x));
    Pad2Value(h);
    Pad2Value(m);
    Pad2Value(x);
  }

  /** Hours below 100, minutes and seconds below 60, and the count they make. */
  lemma ClockParts(s: nat)
    requires s < 360000
    ensures s / 3600 < 100 && (s % 3600) / 60 < 60 && s % 60 < 60
    ensures s == 3600 * (s / 3600) + 60 * ((s % 3600) / 60) + s % 60
  {
  }

  /** Where the three fields of `a:b:c` sit, for two-character fields. */
  lemma ThreeFields(a: string, b: string, c: string)
    requires |a| == 2 && |b| == 2 && |c| == 2
    ensures |a + ":" + b + ":" + c| == 8
    ensures (a + ":" + b + ":" + c)[..2] == a
    ensures (a + ":" + b + ":" + c)[3..5] == b
    ensures (a + ":" + b + ":" + c)[6..] == c
  {
    var t := a + ":" + b + ":" + c;
    assert t[..2] == a;
    assert t[3..5] == b;
    assert t[6..] == c;
  }

  /** The initial count shows `'00:00:00'`, the hook's initial `time`. */
  lemma FormatClockZero()
    ensures FormatClock(0) == "00:00:00"
  {
    Pad2OneDigit(0);
    assert DigitChar(0) == '0';
  }

  class Timer {
    var seconds: nat
    var isRunning: bool
    var time: string

    /** `time` is the display of the current count, as the effect on
        `seconds` keeps it. */
    predicate Valid()
      reads this
    {
      time == FormatClock(seconds)
    }

    constructor ()
      ensures Valid() && seconds == 0 && !isRunning && time == "00:00:00"
    {
      seconds := 0;
      isRunning := false;
      FormatClockZero();
      time := "00:00:00";
    }

    /** `startTimer`. */
    method Start()
      modifies this
      ensures isRunning && seconds == old(seconds) && time == old(time)
    {
      isRunning := true;
    }

    /** `pauseTimer`: stops the interval and keeps the count. */
    method Pause()
      modifies this
      ensures !isRunning && seconds == old(seconds) && time == old(time)
    {
      isRunning := false;
    }

    /** `resetTimer`. */
    method Reset()
      modifies this
      ensures Valid() && !isRunning && seconds == 0 && time == "00:00:00"
    {
      isRunning := false;
      seconds := 0;
      FormatClockZero();
      time := FormatClock(0);
    }

    /** One firing of the interval, which exists only while running: the
        count grows by one and the display follows it. */
    method Tick()
      requires Valid() && isRunning
      modifies this
      ensures Valid() && isRunning && seconds == old(seconds) + 1
    {
      seconds := seconds + 1;
      time := FormatClock(seconds);
    }
  }
}
