/** The event detail view (src/components/Calendar/EventDetailView.js): the
    ingredient checklist, the minutes:seconds cooking timer and the completed
    flag. */
module EventDetailView {
  import opened Text
  import opened Js

  // ---------------------------------------------------------------------------
  // Ingredient checklist

  /** `ingredientChecklist`: ingredient name to its checked flag. */
  type Checklist = map<string, bool>

  /** `checked={ingredientChecklist[ingredient] || false}`: an absent key is
      unchecked. */
  predicate Checked(c: Checklist, ingredient: string) {
    ingredient in c && c[ingredient]
  }

  /** `{ ...prev, [ingredient]: !prev[ingredient] }`. */
  function Toggle(c: Checklist, ingredient: string): (r: Checklist)
    ensures Checked(r, ingredient) <==> !Checked(c, ingredient)
    ensures r.Keys == c.Keys + {ingredient}
    ensures forall other :: other in c && other != ingredient ==> r[other] == c[other]
  {
    c[ingredient := !Checked(c, ingredient)]
  }

  /** Toggling twice restores what every checkbox shows. */
  lemma ToggleTwice(c: Checklist, ingredient: string, any: string)
    ensures Checked(Toggle(Toggle(c, ingredient), ingredient), any) == Checked(c, any)
  {
  }

  /** Toggling one ingredient leaves every other checkbox as it was. */
  lemma ToggleOnlyThat(c: Checklist, ingredient: string, other: string)
    requires other != ingredient
    ensures Checked(Toggle(c, ingredient), other) == Checked(c, other)
  {
  }

  // ---------------------------------------------------------------------------
  // Timer arithmetic

  /** The counting part of the `timer` state. */
  datatype Clock = Clock(minutes: nat, seconds: nat)

  const Zero: Clock := Clock(0, 0)

  /** Seconds elapsed since the start, as the display reads it. */
  function Elapsed(c: Clock): nat {
    60 * c.minutes + c.seconds
  }

  /** The interval callback as written: `minutes` is recomputed from the
      seconds alone, so the minutes already counted are dropped. */
  function TickAsWritten(c: Clock): (r: Clock)
    ensures r.seconds < 60
    ensures Elapsed(r) == c.seconds + 1
  {
    Clock((c.seconds + 1) / 60, (c.seconds + 1) % 60)
  }

  /** The tick a minutes:seconds timer needs: one more second in total. */
  function Tick(c: Clock): (r: Clock)
    requires c.seconds < 60
    ensures r.seconds < 60
    ensures Elapsed(r) == Elapsed(c) + 1
  {
    if c.seconds == 59 then Clock(c.minutes + 1, 0) else Clock(c.minutes, c.seconds + 1)
  }

  /** Before the first full minute both ticks agree, which is all that one
      tick from zero can observe. */
  lemma TicksAgreeInFirstMinute(c: Clock)
    requires c.minutes == 0 && c.seconds < 60
    ensures TickAsWritten(c) == Tick(c)
  {
  }

  /** `n` ticks from `c`. */
  function Ticks(c: Clock, n: nat): (r: Clock)
    requires c.seconds < 60
    ensures r.seconds < 60
  {
    if n == 0 then c else Tick(Ticks(c, n - 1))
  }

  function TicksAsWritten(c: Clock, n: nat): Clock {
    if n == 0 then c else TickAsWritten(TicksAsWritten(c, n - 1))
  }

  /** After `n` ticks from zero the corrected timer has counted `n` seconds. */
  lemma {:induction false} TicksCount(n: nat)
    ensures Elapsed(Ticks(Zero, n)) == n
  {
    if n > 0 {
      TicksCount(n - 1);
    }
  }

  /** The written timer's seconds still count modulo 60, but its minutes are
      1 only on a multiple of 60 ticks: it never reads past 01:00. */
  lemma {:induction false} TicksAsWrittenCycle(n: nat)
    ensures TicksAsWritten(Zero, n).seconds == n % 60
    ensures TicksAsWritten(Zero, n).minutes == if n > 0 && n % 60 == 0 then 1 else 0
  {
    if n > 0 {
      TicksAsWrittenCycle(n - 1);
      NextSecond(n - 1);
    }
  }

  /** One more second after `m % 60` seconds, split into a carry and the rest. */
  lemma NextSecond(m: nat)
    ensures (m % 60 + 1) % 60 == (m + 1) % 60
    ensures (m % 60 + 1) / 60 == if (m + 1) % 60 == 0 then 1 else 0
  {
    var q, r := m / 60, m % 60;
    assert m + 1 == 60 * q + (r + 1);
    if r == 59 {
      assert m + 1 == 60 * (q + 1);
    } else {
      assert (m + 1) % 60 == r + 1;
    }
  }

  /** In the second minute the written timer starts again from 00:01 where
      01:01, 01:02, ... are due; 61 ticks show 00:01. */
  lemma AsWrittenRestartsInSecondMinute(n: nat)
    requires 60 < n < 120
    ensures TicksAsWritten(Zero, n) == Clock(0, n - 60)
    ensures Ticks(Zero, n) == Clock(1, n - 60)
  {
    assert n == 60 * 1 + (n - 60);
    assert n % 60 == n - 60;
    TicksAsWrittenCycle(n);
    TicksCount(n);
  }

  /** `String(minutes).padStart(2, '0') + ':' + String(seconds).padStart(2, '0')`. */
  function Display(c: Clock): (r: string)
    ensures c.minutes < 100 && c.seconds < 100 ==> |r| == 5 && r[2] == ':'
    ensures forall i :: 0 <= i < |r| && r[i] != ':' ==> IsDigit(r[i])
  {
    Pad2(c.minutes) + ":" + Pad2(c.seconds)
  }

  /** Below 100 minutes the display is `MM:SS` and reads back as the clock. */
  lemma DisplayReadsBack(c: Clock)
    requires c.minutes < 100 && c.seconds < 60
    ensures IsClockText(Display(c))
    ensures ParseNat(Display(c)[..2]) == c.minutes && ParseNat(Display(c)[3..]) == c.seconds
  {
    var d := Display(c);
    assert d[..2] == Pad2(c.minutes);
    assert d[3..] == Pad2(c.seconds);
    Pad2Value(c.minutes);
    Pad2Value(c.seconds);
  }

  /** Starting and letting one second pass shows `00:01`; a reset shows `00:00`. */
  lemma DisplaySamples()
    ensures Display(Tick(Clock(0, 0))) == "00:01"
    ensures Display(Clock(0, 0)) == "00:00"
  {
    var zero, one := Pad2(0), Pad2(1);
    assert zero == "00" && one == "01" by {
      Pad2OneDigit(0);
      Pad2OneDigit(1);
    }
    assert Display(Clock(0, 1)) == zero + ":" + one;
  }

  /** Single-digit minutes and seconds are each shown after a '0'. */
  lemma DisplayOneDigit(m: nat, x: nat)
    requires m < 10 && x < 10
    ensures Display(Clock(m, x)) == ['0', DigitChar(m), ':', '0', DigitChar(x)]
  {
    Pad2OneDigit(m);
    Pad2OneDigit(x);
  }

  // ---------------------------------------------------------------------------
  // The view's state

  class DetailView {
    var checklist: Checklist
    var minutes: nat
    var seconds: nat
    var isRunning: bool
    var intervalId: Option<int>
    var isCompleted: Value
    var showAlert: bool

    /** The timer runs exactly while an interval is registered, and the
        seconds stay below a minute. */
    predicate Valid()
      reads this
    {
      seconds < 60 && (isRunning <==> intervalId.Some?)
    }

    function CurrentClock(): Clock
      reads this
    {
      Clock(minutes, seconds)
    }

    /** `useState(event.isCompleted || false)` and the other initial states. */
    constructor (eventIsCompleted: Value)
      ensures Valid()
      ensures checklist == map[] && CurrentClock() == Zero && !isRunning && intervalId.None?
      ensures isCompleted == Or(eventIsCompleted, Bool(false)) && !showAlert
    {
      checklist := map[];
      minutes := 0;
      seconds := 0;
      isRunning := false;
      intervalId := None;
      isCompleted := Or(eventIsCompleted, Bool(false));
      showAlert := false;
    }

    /** `handleIngredientCheck`. */
    method HandleIngredientCheck(ingredient: string)
      modifies this
      ensures checklist == Toggle(old(checklist), ingredient)
      ensures CurrentClock() == old(CurrentClock()) && isRunning == old(isRunning)
      ensures intervalId == old(intervalId) && isCompleted == old(isCompleted) && showAlert == old(showAlert)
    {
      checklist := Toggle(checklist, ingredient);
    }

    /** `startTimer`: `newId` is what `setInterval` returns, a positive id. */
    method StartTimer(newId: int)
      requires Valid() && newId > 0
      modifies this
      ensures Valid()
      ensures old(isRunning) ==> isRunning && intervalId == old(intervalId)
      ensures !old(isRunning) ==> isRunning && intervalId == Some(newId)
      ensures CurrentClock() == old(CurrentClock())
      ensures checklist == old(checklist) && isCompleted == old(isCompleted) && showAlert == old(showAlert)
    {
      if !isRunning {
        intervalId := Some(newId);
        isRunning := true;
      }
    }

    /** One firing of the registered interval, as written: the clock becomes
        `TickAsWritten` of the old one, so the elapsed count is the old
        seconds plus one and the minutes counted before are lost. */
    method TimerTick()
      requires Valid() && intervalId.Some?
      modifies this
      ensures Valid()
      ensures CurrentClock() == TickAsWritten(old(CurrentClock()))
      ensures Elapsed(CurrentClock()) == old(seconds) + 1
      ensures isRunning && intervalId == old(intervalId)
      ensures checklist == old(checklist) && isCompleted == old(isCompleted) && showAlert == old(showAlert)
    {
      var next := TickAsWritten(CurrentClock());
      minutes := next.minutes;
      seconds := next.seconds;
      isRunning := true;
    }

    /** The firing the timer needs: `Tick` of the old clock, one more second
        in total. */
    method CorrectedTimerTick()
      requires Valid() && intervalId.Some?
      modifies this
      ensures Valid()
      ensures CurrentClock() == Tick(old(CurrentClock()))
      ensures Elapsed(CurrentClock()) == Elapsed(old(CurrentClock())) + 1
      ensures isRunning && intervalId == old(intervalId)
      ensures checklist == old(checklist) && isCompleted == old(isCompleted) && showAlert == old(showAlert)
    {
      var next := Tick(CurrentClock());
      minutes := next.minutes;
      seconds := next.seconds;
      isRunning := true;
    }

    /** `stopTimer`: acts only when an interval id is held. */
    method StopTimer()
      requires Valid()
      modifies this
      ensures Valid()
      ensures !isRunning && intervalId.None?
      ensures CurrentClock() == old(CurrentClock())
      ensures checklist == old(checklist) && isCompleted == old(isCompleted) && showAlert == old(showAlert)
    {
      if intervalId.Some? {
        isRunning := false;
        intervalId := None;
      }
    }

    /** `resetTimer`. */
    method ResetTimer()
      requires Valid()
      modifies this
      ensures Valid()
      ensures CurrentClock() == Zero && !isRunning && intervalId.None?
      ensures checklist == old(checklist) && isCompleted == old(isCompleted) && showAlert == old(showAlert)
    {
      StopTimer();
      minutes := 0;
      seconds := 0;
      isRunning := false;
      intervalId := None;
    }

    /** `handleComplete`: `resolved` says whether `onComplete(event.id)`
        resolved; a rejection changes nothing. */
    method HandleComplete(resolved: bool)
      modifies this
      ensures resolved ==> isCompleted == Bool(true) && showAlert
      ensures !resolved ==> isCompleted == old(isCompleted) && showAlert == old(showAlert)
      ensures checklist == old(checklist) && CurrentClock() == old(CurrentClock())
      ensures isRunning == old(isRunning) && intervalId == old(intervalId)
    {
      if resolved {
        isCompleted := Bool(true);
        showAlert := true;
      }
    }
  }
}
