/** Scheduling a recipe from its detail page
    (src/pages/MealDetailsPage/MealDetailsPage.js): the required check on the
    form's data, the event sent to the server, and the alert shown for the
    reply. */
module MealDetails {
  import opened Text
  import opened Js
  import opened AlertState
  import opened CalendarGrid
  import opened EventForm
  import opened CalendarClient
  import CalendarController

  /** The fields of the shown meal that the page reads. */
  datatype Meal = Meal(name: Value, id: Value)

  /** `!formData || !formData.day || ... || !formData.timeTo` is false. */
  predicate HasRequired(formData: Option<FinalData>)
    ensures HasRequired(formData) ==>
              && formData.Some?
              && MealFormatTime(formData.value.timeFrom).Some? && MealFormatTime(formData.value.timeTo).Some?
  {
    && formData.Some?
    && Truthy(formData.value.day) && Truthy(formData.value.month) && Truthy(formData.value.year)
    && formData.value.timeFrom != [] && formData.value.timeTo != []
  }

  /** The page's `formatTime`: null for '', otherwise the first two ':'-fields. */
  function MealFormatTime(time: string): (r: Option<string>)
    ensures r.None? <==> time == []
  {
    if time == [] then None else Some(FormatTimeDisplay(time))
  }

  /** A non-empty time keeps a non-empty display. */
  lemma FormatTimeDisplayNonEmpty(time: string)
    requires time != []
    ensures FormatTimeDisplay(time) != []
  {
    var i := IndexOf(time, ':');
    if i == |time| {
      FormatTimeDisplayNoColon(time);
    } else {
      var rest := time[i + 1..];
      FormatTimeDisplayAtColon(time, i, rest, IndexOf(rest, ':'));
      JoinTwo(time[..i], rest[..IndexOf(rest, ':')], ":");
    }
  }

  /** `parseInt(meal.id_receta) || null`: NaN and 0 both become null. */
  function RecipeIdOf(v: Value): (r: Option<int>)
    ensures r.Some? <==> ParseInt(v).Some? && ParseInt(v).value != 0
    ensures r.Some? ==> r.value == ParseInt(v).value
  {
    match ParseInt(v)
    case Some(i) => if i != 0 then Some(i) else None
    case None => None
  }

  /** The `eventData` object posted to the server. */
  datatype EventData = EventData(
    title: Value,
    day: Value,
    month: Value,
    year: Value,
    timeFrom: Option<string>,
    timeTo: Option<string>,
    recipeId: Option<int>)

  /** The event is the meal's name with the form's date and times; the form's
      own title is not used. */
  function BuildEventData(f: FinalData, meal: Meal): (d: EventData)
    ensures d.title == meal.name && d.recipeId == RecipeIdOf(meal.id)
    ensures d.day == f.day && d.month == f.month && d.year == f.year
    ensures d.timeFrom == MealFormatTime(f.timeFrom) && d.timeTo == MealFormatTime(f.timeTo)
  {
    EventData(meal.name, f.day, f.month, f.year,
              MealFormatTime(f.timeFrom), MealFormatTime(f.timeTo), RecipeIdOf(meal.id))
  }

  function OptionalText(t: Option<string>): Value {
    if t.Some? then Str(t.value) else Null
  }

  /** The JSON body of the POST. */
  function PostBody(d: EventData): map<string, Value> {
    map["title" := d.title, "day" := d.day, "month" := d.month, "year" := d.year,
        "timeFrom" := OptionalText(d.timeFrom), "timeTo" := OptionalText(d.timeTo),
        "recipeId" := if d.recipeId.Some? then Int(d.recipeId.value) else Null]
  }

  /** A submission that passes the page's check, for a meal with a name and a
      valid date, passes both checks of the server's `createEvent`. */
  lemma PostedEventIsAccepted(f: FinalData, meal: Meal)
    requires HasRequired(Some(f))
    requires f.day.Int? && f.month.Int? && f.year.Int?
    requires Truthy(meal.name)
    ensures CalendarController.CheckCreate(PostBody(BuildEventData(f, meal))).Accept?
  {
    var d := BuildEventData(f, meal);
    FormatTimeDisplayNonEmpty(f.timeFrom);
    FormatTimeDisplayNonEmpty(f.timeTo);
    PostBodyFields(d);
    Accepted(PostBody(d));
  }

  /** The body carries each field of the event under its own name. */
  lemma PostBodyFields(d: EventData)
    ensures Get(PostBody(d), "title") == d.title
    ensures Get(PostBody(d), "day") == d.day && Get(PostBody(d), "month") == d.month
    ensures Get(PostBody(d), "year") == d.year
    ensures Get(PostBody(d), "timeFrom") == OptionalText(d.timeFrom)
    ensures Get(PostBody(d), "timeTo") == OptionalText(d.timeTo)
  {
  }

  /** The server accepts any body whose six required fields are truthy and
      whose date fields are integers. */
  lemma Accepted(body: map<string, Value>)
    requires Truthy(Get(body, "title")) && Truthy(Get(body, "day")) && Truthy(Get(body, "month"))
    requires Truthy(Get(body, "year")) && Truthy(Get(body, "timeFrom")) && Truthy(Get(body, "timeTo"))
    requires Get(body, "day").Int? && Get(body, "month").Int? && Get(body, "year").Int?
    ensures CalendarController.CheckCreate(body).Accept?
  {
    forall name | name in CalendarController.RequiredFields
      ensures Truthy(Get(body, name))
    {
      assert name in {"title", "day", "month", "year", "timeFrom", "timeTo"};
    }
  }

  /** The part of the server's reply the page reads. */
  datatype ServerReply = ServerReply(success: bool, message: Value)

  /** `error.message || 'Error al agendar la receta'`. */
  function ShownError(message: string): (r: string)
    ensures r != []
  {
    if message != [] then message else "Error al agendar la receta"
  }

  class MealDetailsView {
    var showEventForm: bool
    var alert: Alert

    constructor ()
      ensures !showEventForm && alert == Hidden
    {
      showEventForm := false;
      alert := Hidden;
    }

    /** `handleScheduleMeal`. */
    method HandleScheduleMeal()
      modifies this
      ensures showEventForm && alert == old(alert)
    {
      showEventForm := true;
    }

    /** `handleEventSubmit`: `posted` is the event sent, if the request is made. */
    method HandleEventSubmit(formData: Option<FinalData>, meal: Meal, reply: Reply<ServerReply>)
      returns (posted: Option<EventData>)
      modifies this
      ensures !HasRequired(formData) ==>
                && posted.None? && showEventForm == old(showEventForm)
                && alert == Error("Todos los campos son requeridos")
      ensures HasRequired(formData) ==> posted == Some(BuildEventData(formData.value, meal))
      ensures HasRequired(formData) && reply.Replied? && reply.body.success ==>
                !showEventForm && alert == Success("¡Receta agendada exitosamente!")
      ensures HasRequired(formData) && reply.Replied? && !reply.body.success ==>
                && showEventForm == old(showEventForm)
                && alert == Error(ShownError(ToText(Or(reply.body.message, Str("Error al crear evento")))))
      ensures HasRequired(formData) && reply.Threw? ==>
                showEventForm == old(showEventForm) && alert == Error(ShownError(reply.error.message))
    {
      if !HasRequired(formData) {
        alert := Error("Todos los campos son requeridos");
        return None;
      }
      posted := Some(BuildEventData(formData.value, meal));
      match reply
      case Threw(e) =>
        alert := Error(ShownError(e.message));
      case Replied(r) =>
        if r.success {
          showEventForm := false;
          alert := Success("¡Receta agendada exitosamente!");
        } else {
          alert := Error(ShownError(ToText(Or(r.message, Str("Error al crear evento")))));
        }
    }
  }
}
