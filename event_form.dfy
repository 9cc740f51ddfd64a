/** The event form (src/components/Calendar/EventForm.js): the initial form
    state, the `YYYY-MM-DD` date text, the `HH:MM` padding of times and the
    data handed to `onSubmit`. The JavaScript Date library is not modelled:
    the calendar date a `Date` object stands for is a parameter, and reading
    the date field back is the strict ISO parse that the browser's date input
    makes sufficient. */
module EventForm {
  import opened Text
  import opened Js
  import opened AlertState

  /** A calendar date with a 1-based month. */
  datatype CalendarDate = CalendarDate(year: int, month: int, day: int)

  predicate IsLeapYear(year: int) {
    (year % 4 == 0 && year % 100 != 0) || year % 400 == 0
  }

  function DaysInMonth(month: int, year: int): int {
    if month == 2 then (if IsLeapYear(year) then 29 else 28)
    else if month == 4 || month == 6 || month == 9 || month == 11 then 30
    else 31
  }

  predicate ValidDate(d: CalendarDate) {
    1 <= d.month <= 12 && 1 <= d.day <= DaysInMonth(d.month, d.year)
  }

  /** `formatDateForInput`: `year-MM-DD` with month and day padded to two
      digits; an invalid `Date` gives today's ISO date instead. */
  function FormatDateForInput(date: Option<CalendarDate>, today: string): (r: string)
    requires date.Some? ==> ValidDate(date.value)
    ensures date.None? ==> r == today
  {
    match date
    case None => today
    case Some(d) => IntToText(d.year) + "-" + Pad2(d.month) + "-" + Pad2(d.day)
  }

  /** What `new Date(text + 'T00:00:00')` reads from the date field: a valid
      `YYYY-MM-DD` date, or an invalid date (`None`). */
  function ParseIsoDate(s: string): (r: Option<CalendarDate>)
    ensures r.Some? ==> ValidDate(r.value) && 0 <= r.value.year <= 9999
  {
    if |s| == 10 && s[4] == '-' && s[7] == '-'
       && AllDigits(s[..4]) && AllDigits(s[5..7]) && AllDigits(s[8..])
    then
      var d := CalendarDate(ParseNat(s[..4]), ParseNat(s[5..7]), ParseNat(s[8..]));
      assert ParseNat(s[..4]) <= 9999 by { ParseNatBound(s[..4]); }
      if ValidDate(d) then Some(d) else None
    else None
  }

  lemma ParseNatBound(s: string)
    requires |s| == 4 && AllDigits(s)
    ensures ParseNat(s) <= 9999
  {
    var three := s[..3];
    var two := three[..2];
    ParseNatTwoDigits(two);
    assert three[..|three| - 1] == two;
    assert s[..|s| - 1] == three;
  }

  /** A date with a four-digit year survives the trip through the date field. */
  lemma DateFieldRoundTrip(d: CalendarDate, today: string)
    requires ValidDate(d) && 1000 <= d.year <= 9999
    ensures ParseIsoDate(FormatDateForInput(Some(d), today)) == Some(d)
  {
    var y := IntToText(d.year);
    var m := Pad2(d.month);
    var dd := Pad2(d.day);
    NatToStringFourDigits(d.year);
    var s := FormatDateForInput(Some(d), today);
    assert s == y + "-" + m + "-" + dd;
    assert s[..4] == y && s[5..7] == m && s[8..] == dd;
    ParseNatToString(d.year);
    Pad2Value(d.month);
    Pad2Value(d.day);
  }

  /** `formatTime`: '' stays ''; otherwise the text before the first ':' and
      the text after it up to the next ':' are each padded to two digits.
      Text without a ':' makes `minutes.padStart` throw (`None`). */
  function FormatTime(time: string): (r: Option<string>)
    ensures r.None? <==> time != [] && ':' !in time
    ensures time == [] ==> r == Some([])
  {
    if time == [] then Some([])
    else
      var fields := Split(time, ':');
      if |fields| < 2 then
        assert Join(fields, [':']) == time by { JoinSplit(time, ':'); }
        None
      else
        Some(PadStart2(fields[0]) + ":" + PadStart2(fields[1]))
  }

  /** A non-empty result has exactly one ':' with at least two characters on
      each side. */
  lemma FormatTimeShape(time: string)
    requires time != [] && FormatTime(time).Some?
    ensures var r := FormatTime(time).value;
      exists h, m :: r == h + ":" + m && |h| >= 2 && |m| >= 2 && ':' !in h && ':' !in m
  {
    var fields := Split(time, ':');
    PadStart2Keeps(fields[0], ':');
    PadStart2Keeps(fields[1], ':');
  }

  /** `HH:MM` text is left as it is. */
  lemma FormatTimeKeepsClock(time: string)
    requires IsClockText(time)
    ensures FormatTime(time) == Some(time)
  {
    SplitClock(time);
    assert time == time[..2] + ":" + time[3..];
  }

  /** The example '9:5' becomes '09:05'. */
  lemma FormatTimePadsExample()
    ensures FormatTime("9:5") == Some("09:05")
  {
    SplitTwo("9", "5", ':');
    assert "9" + [':'] + "5" == "9:5";
    var fields := Split("9:5", ':');
    assert fields == ["9", "5"];
    var zero: string := seq(1, _ => '0');
    assert zero == "0";
    assert PadStart2("9") == "09" && PadStart2("5") == "05";
    assert "09" + ":" + "05" == "09:05";
  }

  /** Formatting a formatted time changes nothing. */
  lemma FormatTimeIdempotent(time: string)
    requires FormatTime(time).Some?
    ensures FormatTime(FormatTime(time).value) == FormatTime(time)
  {
    if time != [] {
      var fields := Split(time, ':');
      var h := PadStart2(fields[0]);
      var m := PadStart2(fields[1]);
      PadStart2Keeps(fields[0], ':');
      PadStart2Keeps(fields[1], ':');
      SplitTwo(h, m, ':');
      assert h + ":" + m == h + [':'] + m;
      PadStart2Twice(fields[0]);
      PadStart2Twice(fields[1]);
    }
  }

  /** The fields of `formData`. */
  datatype FormData = FormData(
    title: string,
    date: string,
    timeFrom: string,
    timeTo: string,
    ingredients: Value,
    instructions: Value)

  /** The event being edited, as the form reads it. */
  datatype InitialData = InitialData(
    title: string,
    timeFrom: string,
    timeTo: string,
    ingredients: Value,
    instructions: Value)

  /** The initial `formData`. `date` is the calendar date of the `Date` the
      form builds (from the edited event, or from the shown month and the
      clicked day), `None` when that `Date` is invalid. */
  function InitialFormData(initial: Option<InitialData>, recipeName: Option<string>,
                           date: Option<CalendarDate>, today: string): (f: FormData)
    requires date.Some? ==> ValidDate(date.value)
    ensures f.date == FormatDateForInput(date, today)
    ensures initial.Some? ==>
              && f.title == initial.value.title
              && f.timeFrom == initial.value.timeFrom && f.timeTo == initial.value.timeTo
              && f.ingredients == Or(initial.value.ingredients, Str(""))
              && f.instructions == Or(initial.value.instructions, Str(""))
    ensures initial.None? ==>
              && (recipeName.Some? ==> f.title == recipeName.value)
              && (recipeName.None? ==> f.title == "")
              && f.timeFrom == "" && f.timeTo == ""
              && f.ingredients == Str("") && f.instructions == Str("")
  {
    var dateText := FormatDateForInput(date, today);
    match initial
    case Some(e) =>
      FormData(e.title, dateText, e.timeFrom, e.timeTo, Or(e.ingredients, Str("")), Or(e.instructions, Str("")))
    case None =>
      var title := if recipeName.Some? then recipeName.value else "";
      FormData(title, dateText, "", "", Str(""), Str(""))
  }

  /** The object handed to `onSubmit`: exactly these six fields. */
  datatype FinalData = FinalData(
    title: string,
    day: Value,
    month: Value,
    year: Value,
    timeFrom: string,
    timeTo: string)

  datatype SubmitOutcome = MissingTime | Malformed | Submitted(data: FinalData)

  /** `getDate()`, `getMonth() + 1` and `getFullYear()` of the parsed field:
      NaN for each when the field does not hold a date. */
  function DateParts(date: string): (parts: (Value, Value, Value))
    ensures ParseIsoDate(date).None? ==> parts == (NaN, NaN, NaN)
    ensures ParseIsoDate(date).Some? ==>
              var d := ParseIsoDate(date).value;
              parts == (Int(d.day), Int(d.month), Int(d.year))
  {
    match ParseIsoDate(date)
    case None => (NaN, NaN, NaN)
    case Some(d) => (Int(d.day), Int(d.month), Int(d.year))
  }

  /** `handleSubmit` on the current form: both times must be non-empty, and a
      time without ':' ends in the error branch. */
  function Submit(f: FormData): (o: SubmitOutcome)
    ensures o.MissingTime? <==> f.timeFrom == [] || f.timeTo == []
    ensures o.Malformed? <==> f.timeFrom != [] && f.timeTo != [] && (':' !in f.timeFrom || ':' !in f.timeTo)
    ensures o.Submitted? ==>
              && o.data.title == Trim(f.title)
              && (o.data.day, o.data.month, o.data.year) == DateParts(f.date)
              && Some(o.data.timeFrom) == FormatTime(f.timeFrom)
              && Some(o.data.timeTo) == FormatTime(f.timeTo)
  {
    if f.timeFrom == [] || f.timeTo == [] then MissingTime
    else
      var from := FormatTime(f.timeFrom);
      var to := FormatTime(f.timeTo);
      if from.None? || to.None? then Malformed
      else
        var parts := DateParts(f.date);
        Submitted(FinalData(Trim(f.title), parts.0, parts.1, parts.2, from.value, to.value))
  }

  /** A form opened on a day with a four-digit year, given `HH:MM` times,
      submits exactly that day, month and year and those times. */
  lemma SubmitCarriesFormDate(initial: Option<InitialData>, recipeName: Option<string>,
                              d: CalendarDate, today: string, from: string, to: string)
    requires ValidDate(d) && 1000 <= d.year <= 9999
    requires IsClockText(from) && IsClockText(to)
    ensures var f := InitialFormData(initial, recipeName, Some(d), today).(timeFrom := from, timeTo := to);
      Submit(f) == Submitted(FinalData(Trim(f.title), Int(d.day), Int(d.month), Int(d.year), from, to))
  {
    var f := InitialFormData(initial, recipeName, Some(d), today).(timeFrom := from, timeTo := to);
    DateFieldRoundTrip(d, today);
    assert DateParts(f.date) == (Int(d.day), Int(d.month), Int(d.year));
    FormatTimeKeepsClock(from);
    FormatTimeKeepsClock(to);
    SubmitWellFormed(f);
  }

  /** Times that format to themselves are submitted as they are, with the
      parts of the date field. */
  lemma SubmitWellFormed(f: FormData)
    requires FormatTime(f.timeFrom) == Some(f.timeFrom) && FormatTime(f.timeTo) == Some(f.timeTo)
    requires f.timeFrom != [] && f.timeTo != []
    ensures var parts := DateParts(f.date);
      Submit(f) == Submitted(FinalData(Trim(f.title), parts.0, parts.1, parts.2, f.timeFrom, f.timeTo))
  {
  }

  /** The form fields `handleChange` can set by name. */
  datatype Field = Title | Date | TimeFrom | TimeTo | Ingredients | Instructions

  /** `{ ...prev, [name]: value }`. */
  function WithField(f: FormData, field: Field, value: string): (g: FormData)
  {
    match field
    case Title => f.(title := value)
    case Date => f.(date := value)
    case TimeFrom => f.(timeFrom := value)
    case TimeTo => f.(timeTo := value)
    case Ingredients => f.(ingredients := Str(value))
    case Instructions => f.(instructions := Str(value))
  }

  function FieldValue(f: FormData, field: Field): Value {
    match field
    case Title => Str(f.title)
    case Date => Str(f.date)
    case TimeFrom => Str(f.timeFrom)
    case TimeTo => Str(f.timeTo)
    case Ingredients => f.ingredients
    case Instructions => f.instructions
  }

  /** The changed field reads back the new value and every other field is as it was. */
  lemma WithFieldReadsBack(f: FormData, field: Field, value: string, other: Field)
    ensures FieldValue(WithField(f, field, value), field) == Str(value)
    ensures other != field ==> FieldValue(WithField(f, field, value), other) == FieldValue(f, other)
  {
  }

  class EventFormView {
    var formData: FormData
    var alert: Alert

    constructor (initial: Option<InitialData>, recipeName: Option<string>,
                 date: Option<CalendarDate>, today: string)
      requires date.Some? ==> ValidDate(date.value)
      ensures formData == InitialFormData(initial, recipeName, date, today)
      ensures alert == Hidden
    {
      formData := InitialFormData(initial, recipeName, date, today);
      alert := Hidden;
    }

    /** `handleChange` for the input named `field`. */
    method HandleChange(field: Field, value: string)
      modifies this
      ensures formData == WithField(old(formData), field, value)
      ensures alert == old(alert)
    {
      formData := WithField(formData, field, value);
    }

    /** `handleDateChange`. */
    method HandleDateChange(value: string)
      modifies this
      ensures formData == old(formData).(date := value)
      ensures alert == old(alert)
    {
      formData := formData.(date := value);
    }

    /** `handleSubmit`: the data passed to `onSubmit`, if any; the form data
        itself is not changed. */
    method HandleSubmit() returns (submitted: Option<FinalData>)
      modifies this
      ensures formData == old(formData)
      ensures Submit(formData).MissingTime? ==>
                submitted.None? && alert == Error("Por favor completa todos los campos")
      ensures Submit(formData).Malformed? ==>
                submitted.None? && alert == Error("Error al procesar los datos del formulario")
      ensures Submit(formData).Submitted? ==>
                submitted == Some(Submit(formData).data) && alert == old(alert)
    {
      var outcome := Submit(formData);
      match outcome
      case MissingTime =>
        alert := Error("Por favor completa todos los campos");
        submitted := None;
      case Malformed =>
        alert := Error("Error al procesar los datos del formulario");
        submitted := None;
      case Submitted(data) =>
        submitted := Some(data);
    }
  }
}
