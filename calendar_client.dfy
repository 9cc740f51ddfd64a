/** The calendar page (src/components/Calendar/Calendar.js): the list of
    events on the client and how each server reply changes it. Every request
    is replaced by its outcome, passed in as a parameter: `Threw` for a
    request that rejected (a network failure or an error status), `Replied`
    with the part of the reply body the handler reads. */
module CalendarClient {
  import opened Text
  import opened Js
  import opened AlertState
  import CalendarEventModel
  import opened CalendarGrid
  import opened EventForm

  type Row = CalendarEventModel.Row

  /** What a handler can read from a rejected request: the server's
      `error.response?.data?.message` and the error's own `message`. */
  datatype ErrorInfo = ErrorInfo(serverMessage: Value, message: string)

  datatype Reply<T> = Threw(error: ErrorInfo) | Replied(body: T)

  /** `error.response?.data?.message || error.message`, as text. */
  function ErrorText(e: ErrorInfo): (r: string)
    ensures Truthy(e.serverMessage) ==> r == ToText(e.serverMessage)
    ensures !Truthy(e.serverMessage) ==> r == e.message
  {
    ToText(Or(e.serverMessage, Str(e.message)))
  }

  /** One fetched row: all of its columns, plus `timeFrom`/`timeTo` holding the
      first five characters of `time_from`/`time_to` ('' stays ''). */
  function Normalize(row: Row): (e: ClientEvent)
    ensures e.fetched == Some(row) && e.id == row.id && e.title == row.title
    ensures e.day == Int(row.day) && e.month == Int(row.month) && e.year == Int(row.year)
    ensures |e.timeFrom| == (if |row.timeFrom| < 5 then |row.timeFrom| else 5) && e.timeFrom == row.timeFrom[..|e.timeFrom|]
    ensures |e.timeTo| == (if |row.timeTo| < 5 then |row.timeTo| else 5) && e.timeTo == row.timeTo[..|e.timeTo|]
    ensures !e.isCompleted
  {
    ClientEvent(row.id, row.title, Int(row.day), Int(row.month), Int(row.year),
                Prefix(row.timeFrom, 5), Prefix(row.timeTo, 5), false, Some(row))
  }

  function NormalizeAll(rows: seq<Row>): (events: seq<ClientEvent>)
    ensures |events| == |rows|
    ensures forall k :: 0 <= k < |rows| ==> events[k] == Normalize(rows[k])
  {
    seq(|rows|, k requires 0 <= k < |rows| => Normalize(rows[k]))
  }

  /** For a stored `HH:MM:SS` time the client shows `HH:MM`: the same text the
      grid's `formatTimeDisplay` would make, and text the event form keeps. */
  lemma NormalizedTimeIsClock(row: Row)
    requires |row.timeFrom| == 8 && IsClockText(row.timeFrom[..5]) && row.timeFrom[5] == ':'
    ensures var t := Normalize(row).timeFrom;
      && IsClockText(t)
      && t == FormatTimeDisplay(row.timeFrom)
      && FormatTime(t) == Some(t)
  {
    var time := row.timeFrom;
    var t := time[..5];
    assert Prefix(time, 5) == t;
    FormatTimeKeepsClock(t);
    var rest := time[3..];
    assert IndexOf(time, ':') == 2 by {
      assert time[..2] == t[..2];
      assert ':' !in t[..2];
    }
    assert time[2 + 1..] == rest;
    assert IndexOf(rest, ':') == 2 by {
      assert rest[..2] == t[3..];
      assert ':' !in t[3..];
    }
    FormatTimeDisplayAtColon(time, 2, rest, 2);
    JoinTwo(time[..2], rest[..2], ":");
    assert t == time[..2] + ":" + rest[..2];
  }

  /** The event `handleRecipeAdd` appends: the server's id, the submitted
      title and times, and `parseInt` of the date fields. */
  function NewEvent(id: int, data: FinalData): (e: ClientEvent)
    ensures e.id == id && e.title == data.title && e.fetched.None? && !e.isCompleted
    ensures e.timeFrom == data.timeFrom && e.timeTo == data.timeTo
  {
    ClientEvent(id, data.title, ParseIntValue(data.day), ParseIntValue(data.month), ParseIntValue(data.year),
                data.timeFrom, data.timeTo, false, None)
  }

  /** The form sends integers or NaN for the date, and `parseInt` gives them back. */
  lemma NewEventKeepsDate(id: int, data: FinalData)
    requires data.day.Int? || data.day.NaN?
    requires data.month.Int? || data.month.NaN?
    requires data.year.Int? || data.year.NaN?
    ensures var e := NewEvent(id, data);
      e.day == data.day && e.month == data.month && e.year == data.year
  {
    ParseIntValueOfNumber(data.day);
    ParseIntValueOfNumber(data.month);
    ParseIntValueOfNumber(data.year);
  }

  /** `events.filter(e => e.id !== id)`. */
  function RemoveId(events: seq<ClientEvent>, id: int): (r: seq<ClientEvent>)
    ensures forall e :: e in r <==> e in events && e.id != id
    ensures |r| <= |events|
  {
    if events == [] then []
    else if events[0].id != id then [events[0]] + RemoveId(events[1..], id)
    else RemoveId(events[1..], id)
  }

  function CountId(events: seq<ClientEvent>, id: int): nat {
    if events == [] then 0 else (if events[0].id == id then 1 else 0) + CountId(events[1..], id)
  }

  /** Exactly the events with that id go, and the others stay in order. */
  lemma {:induction false} RemoveIdExact(events: seq<ClientEvent>, id: int)
    ensures |RemoveId(events, id)| == |events| - CountId(events, id)
    ensures CountId(events, id) == 0 ==> RemoveId(events, id) == events
    ensures RemoveId(RemoveId(events, id), id) == RemoveId(events, id)
  {
    if events != [] {
      RemoveIdExact(events[1..], id);
      if events[0].id != id {
        var rest := RemoveId(events[1..], id);
        assert ([events[0]] + rest)[1..] == rest;
      }
    }
  }

  /** `events.map(e => e.id === id ? { ...e, isCompleted: true } : e)`. */
  function MarkCompleted(events: seq<ClientEvent>, id: int): (r: seq<ClientEvent>)
    ensures |r| == |events|
  {
    seq(|events|, k requires 0 <= k < |events| =>
      if events[k].id == id then events[k].(isCompleted := true) else events[k])
  }

  /** Only the events with that id change, and only in `isCompleted`; doing it
      again changes nothing. */
  lemma MarkCompletedExact(events: seq<ClientEvent>, id: int)
    ensures var r := MarkCompleted(events, id);
      forall k :: 0 <= k < |events| ==>
        && (events[k].id != id ==> r[k] == events[k])
        && (events[k].id == id ==> r[k].isCompleted && r[k].(isCompleted := events[k].isCompleted) == events[k])
    ensures MarkCompleted(MarkCompleted(events, id), id) == MarkCompleted(events, id)
  {
  }

  /** `recipes.find(r => r.id === id)`. */
  function Find(events: seq<ClientEvent>, id: int): (r: Option<ClientEvent>)
    ensures r.Some? ==> r.value in events && r.value.id == id
    ensures r.None? <==> forall e :: e in events ==> e.id != id
    ensures r.Some? ==> exists i :: 0 <= i < |events| && events[i] == r.value && forall j :: 0 <= j < i ==> events[j].id != id
  {
    if events == [] then None
    else if events[0].id == id then Some(events[0])
    else
      var r := Find(events[1..], id);
      if r.Some? then
        var i :| 0 <= i < |events[1..]| && events[1..][i] == r.value && forall j :: 0 <= j < i ==> events[1..][j].id != id;
        assert events[i + 1] == r.value;
        assert forall j :: 0 <= j < i + 1 ==> events[j].id != id by {
          forall j | 0 <= j < i + 1
            ensures events[j].id != id
          {
            if j > 0 {
              assert events[j] == events[1..][j - 1];
            }
          }
        }
        r
      else r
  }

  /** `recipe?.title || 'esta receta'`. */
  function DeleteName(events: seq<ClientEvent>, id: int): (name: string)
    ensures name != []
    ensures (forall e :: e in events ==> e.id != id) ==> name == "esta receta"
    ensures Find(events, id).Some? && Find(events, id).value.title != [] ==> name == Find(events, id).value.title
    ensures Find(events, id).Some? && Find(events, id).value.title == [] ==> name == "esta receta"
  {
    var found := Find(events, id);
    if found.Some? && found.value.title != [] then found.value.title else "esta receta"
  }

  function AddedMessage(title: string): string {
    "¡Receta \"" + title + "\" agregada exitosamente!"
  }

  function DeletedMessage(name: string): string {
    "Se eliminó \"" + name + "\" correctamente"
  }

  /** `{ isOpen, recipeId, recipeName }`. */
  datatype ConfirmDialog = ConfirmDialog(isOpen: bool, recipeId: Option<int>, recipeName: string)

  const Closed: ConfirmDialog := ConfirmDialog(false, None, "")

  class CalendarView {
    var recipes: seq<ClientEvent>
    var showRecipeForm: bool
    var selectedDate: Option<int>
    var alert: Alert
    var confirmDialog: ConfirmDialog
    var selectedEvent: Value
    var isEditing: bool

    constructor ()
      ensures recipes == [] && !showRecipeForm && selectedDate.None? && alert == Hidden
      ensures confirmDialog == Closed && selectedEvent == Null && !isEditing
    {
      recipes := [];
      showRecipeForm := false;
      selectedDate := None;
      alert := Hidden;
      confirmDialog := Closed;
      selectedEvent := Null;
      isEditing := false;
    }

    /** `fetchRecipes`: `Replied(None)` is a reply without `data.data`. */
    method FetchRecipes(reply: Reply<Option<seq<Row>>>)
      modifies this
      ensures reply.Threw? ==> recipes == old(recipes) && alert == Error("Error al cargar las recetas")
      ensures reply.Replied? && reply.body.Some? ==> recipes == NormalizeAll(reply.body.value) && alert == old(alert)
      ensures reply.Replied? && reply.body.None? ==> recipes == old(recipes) && alert == old(alert)
      ensures showRecipeForm == old(showRecipeForm) && confirmDialog == old(confirmDialog)
      ensures selectedEvent == old(selectedEvent) && isEditing == old(isEditing) && selectedDate == old(selectedDate)
    {
      match reply
      case Threw(_) =>
        alert := Error("Error al cargar las recetas");
      case Replied(body) =>
        if body.Some? {
          recipes := NormalizeAll(body.value);
        }
    }

    /** `handleDateClick`. */
    method HandleDateClick(date: int)
      modifies this
      ensures selectedDate == Some(date) && showRecipeForm
      ensures recipes == old(recipes) && alert == old(alert) && confirmDialog == old(confirmDialog)
      ensures selectedEvent == old(selectedEvent) && isEditing == old(isEditing)
    {
      selectedDate := Some(date);
      showRecipeForm := true;
    }

    /** `handleRecipeAdd`: `Replied(Some(id))` is a reply whose `data.data` has that id. */
    method HandleRecipeAdd(data: FinalData, reply: Reply<Option<int>>)
      modifies this
      ensures reply.Threw? ==>
                && recipes == old(recipes) && showRecipeForm == old(showRecipeForm)
                && alert == Error("No se pudo guardar la receta. Por favor, intenta nuevamente.")
      ensures reply.Replied? && reply.body.Some? ==>
                && recipes == old(recipes) + [NewEvent(reply.body.value, data)]
                && !showRecipeForm
                && alert == Success(AddedMessage(data.title))
      ensures reply.Replied? && reply.body.None? ==>
                recipes == old(recipes) && showRecipeForm == old(showRecipeForm) && alert == old(alert)
      ensures confirmDialog == old(confirmDialog) && selectedEvent == old(selectedEvent)
      ensures isEditing == old(isEditing) && selectedDate == old(selectedDate)
    {
      match reply
      case Threw(_) =>
        alert := Error("No se pudo guardar la receta. Por favor, intenta nuevamente.");
      case Replied(body) =>
        if body.Some? {
          Append(NewEvent(body.value, data), AddedMessage(data.title));
        }
    }

    /** Appends one event, closes the form and shows `message` as a success. */
    method Append(added: ClientEvent, message: string)
      modifies this
      ensures recipes == old(recipes) + [added] && !showRecipeForm && alert == Success(message)
      ensures confirmDialog == old(confirmDialog) && selectedEvent == old(selectedEvent)
      ensures isEditing == old(isEditing) && selectedDate == old(selectedDate)
    {
      recipes := recipes + [added];
      showRecipeForm := false;
      alert := Success(message);
    }

    /** `handleRecipeDelete`: only opens the confirmation. */
    method HandleRecipeDelete(id: int)
      modifies this
      ensures confirmDialog == ConfirmDialog(true, Some(id), DeleteName(recipes, id))
      ensures recipes == old(recipes) && alert == old(alert) && showRecipeForm == old(showRecipeForm)
      ensures selectedEvent == old(selectedEvent) && isEditing == old(isEditing) && selectedDate == old(selectedDate)
    {
      confirmDialog := ConfirmDialog(true, Some(id), DeleteName(recipes, id));
    }

    /** The dialog's `onCancel`. */
    method CancelDelete()
      modifies this
      ensures confirmDialog == Closed
      ensures recipes == old(recipes) && alert == old(alert) && showRecipeForm == old(showRecipeForm)
      ensures selectedEvent == old(selectedEvent) && isEditing == old(isEditing) && selectedDate == old(selectedDate)
    {
      confirmDialog := Closed;
    }

    /** `confirmDelete`: `deleted` is whether the DELETE request resolved. The
        dialog is closed either way. */
    method ConfirmDelete(deleted: bool)
      modifies this
      ensures deleted ==>
                && recipes == (if old(confirmDialog).recipeId.Some?
                               then RemoveId(old(recipes), old(confirmDialog).recipeId.value)
                               else old(recipes))
                && alert == Success(DeletedMessage(old(confirmDialog).recipeName))
      ensures !deleted ==>
                recipes == old(recipes) && alert == Error("Error al eliminar la receta. Por favor, intenta nuevamente.")
      ensures confirmDialog == Closed
      ensures showRecipeForm == old(showRecipeForm) && selectedEvent == old(selectedEvent)
      ensures isEditing == old(isEditing) && selectedDate == old(selectedDate)
    {
      var target := confirmDialog.recipeId;
      if deleted {
        if target.Some? {
          recipes := RemoveId(recipes, target.value);
        }
        alert := Success(DeletedMessage(confirmDialog.recipeName));
      } else {
        alert := Error("Error al eliminar la receta. Por favor, intenta nuevamente.");
      }
      confirmDialog := Closed;
    }

    /** `handleEventComplete`: `Replied(b)` carries `response.data.success`. */
    method HandleEventComplete(id: int, reply: Reply<bool>)
      modifies this
      ensures reply == Replied(true) ==> recipes == MarkCompleted(old(recipes), id) && alert == old(alert)
      ensures reply == Replied(false) ==> recipes == old(recipes) && alert == old(alert)
      ensures reply.Threw? ==> recipes == old(recipes) && alert == Error("Error al completar la receta")
      ensures confirmDialog == old(confirmDialog) && showRecipeForm == old(showRecipeForm)
      ensures selectedEvent == old(selectedEvent) && isEditing == old(isEditing) && selectedDate == old(selectedDate)
    {
      match reply
      case Threw(_) =>
        alert := Error("Error al completar la receta");
      case Replied(success) =>
        if success {
          recipes := MarkCompleted(recipes, id);
        }
    }

    /** `handleEventDelete`: `Replied(b)` carries `response.data.success`. */
    method HandleEventDelete(id: int, reply: Reply<bool>)
      modifies this
      ensures reply == Replied(true) ==>
                recipes == RemoveId(old(recipes), id) && alert == Success("Receta eliminada exitosamente")
      ensures reply == Replied(false) ==> recipes == old(recipes) && alert == old(alert)
      ensures reply.Threw? ==> recipes == old(recipes) && alert == Error("Error al eliminar la receta")
      ensures confirmDialog == old(confirmDialog) && showRecipeForm == old(showRecipeForm)
      ensures selectedEvent == old(selectedEvent) && isEditing == old(isEditing) && selectedDate == old(selectedDate)
    {
      match reply
      case Threw(_) =>
        alert := Error("Error al eliminar la receta");
      case Replied(success) =>
        if success {
          recipes := RemoveId(recipes, id);
          alert := Success("Receta eliminada exitosamente");
        }
    }

    /** `handleEventUpdate`: `put` carries whether `response.data` is present,
        `refetch` the outcome of the list request that follows it. */
    method HandleEventUpdate(id: int, put: Reply<bool>, refetch: Reply<Option<seq<Row>>>)
      modifies this
      ensures put.Threw? ==>
                && recipes == old(recipes) && showRecipeForm == old(showRecipeForm)
                && selectedEvent == old(selectedEvent) && isEditing == old(isEditing)
                && alert == Error("Error al actualizar el evento: " + ErrorText(put.error))
      ensures put == Replied(false) ==>
                && recipes == old(recipes) && showRecipeForm == old(showRecipeForm)
                && selectedEvent == old(selectedEvent) && isEditing == old(isEditing) && alert == old(alert)
      ensures put == Replied(true) && refetch.Threw? ==>
                && recipes == old(recipes) && showRecipeForm == old(showRecipeForm)
                && selectedEvent == old(selectedEvent) && isEditing == old(isEditing)
                && alert == Error("Error al actualizar el evento: " + ErrorText(refetch.error))
      ensures put == Replied(true) && refetch.Replied? ==>
                && recipes == (if refetch.body.Some? then NormalizeAll(refetch.body.value) else old(recipes))
                && selectedEvent == Null && !showRecipeForm && !isEditing
                && alert == Success("Evento actualizado exitosamente")
      ensures confirmDialog == old(confirmDialog) && selectedDate == old(selectedDate)
    {
      match put
      case Threw(e) =>
        alert := Error("Error al actualizar el evento: " + ErrorText(e));
      case Replied(hasData) =>
        if hasData {
          match refetch
          case Threw(e) =>
            alert := Error("Error al actualizar el evento: " + ErrorText(e));
          case Replied(body) =>
            if body.Some? {
              recipes := NormalizeAll(body.value);
            }
            selectedEvent := Null;
            showRecipeForm := false;
            isEditing := false;
            alert := Success("Evento actualizado exitosamente");
        }
    }

    /** The form's `onClose`. */
    method CloseForm()
      modifies this
      ensures !showRecipeForm && selectedEvent == Null && !isEditing
      ensures recipes == old(recipes) && alert == old(alert) && confirmDialog == old(confirmDialog)
      ensures selectedDate == old(selectedDate)
    {
      showRecipeForm := false;
      selectedEvent := Null;
      isEditing := false;
    }
  }
}
