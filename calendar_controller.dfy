/** The calendar HTTP handlers (backend/controllers/calendarController.js):
    request checks and status selection in front of the `calendar_events` table.
    The caller's id is the one the authentication middleware put on the
    request; a failure of the database is the `dbFails` parameter. */
module CalendarController {
  import opened Text
  import opened Js
  import opened Sorting
  import opened CalendarEventModel

  datatype Payload = NoData | Events(rows: seq<Row>) | Created(row: Row)

  /** The status code and JSON body of a reply. */
  datatype Response = Response(status: int, success: bool, message: string, data: Payload)

  const RequiredFields: seq<string> := ["title", "day", "month", "year", "timeFrom", "timeTo"]

  /** The names in `names` whose value in `body` is falsy, in the order of `names`. */
  function Missing(names: seq<string>, body: map<string, Value>): (r: seq<string>)
    ensures forall f :: f in r <==> f in names && !Truthy(Get(body, f))
    ensures |r| <= |names|
  {
    if names == [] then []
    else if !Truthy(Get(body, names[0])) then [names[0]] + Missing(names[1..], body)
    else Missing(names[1..], body)
  }

  /** The filter keeps the order of `names`: the names missing from a
      concatenation are those missing from the first part, then those
      missing from the second. */
  lemma {:induction false} MissingAppend(a: seq<string>, b: seq<string>, body: map<string, Value>)
    ensures Missing(a + b, body) == Missing(a, body) + Missing(b, body)
  {
    if a == [] {
      assert a + b == b;
    } else {
      assert (a + b)[0] == a[0] && (a + b)[1..] == a[1..] + b;
      MissingAppend(a[1..], b, body);
    }
  }

  /** A single name is reported exactly when its value is falsy. */
  lemma MissingOne(name: string, body: map<string, Value>)
    ensures Missing([name], body) == if Truthy(Get(body, name)) then [] else [name]
  {
    assert [name][1..] == [];
  }

  /** With the title, month and year given, the reply names `day` before
      `timeFrom` and `timeTo`, as the list of required fields orders them. */
  lemma MissingInOrder(body: map<string, Value>)
    requires Truthy(Get(body, "title")) && Truthy(Get(body, "month")) && Truthy(Get(body, "year"))
    requires !Truthy(Get(body, "day")) && !Truthy(Get(body, "timeFrom")) && !Truthy(Get(body, "timeTo"))
    ensures MissingFields(body) == ["day", "timeFrom", "timeTo"]
    ensures CheckCreate(body) == Reject("Faltan campos requeridos: " + "day, timeFrom, timeTo")
  {
    MissingRequiredInOrder(body);
    RejectThreeFields(body);
  }

  lemma MissingRequiredInOrder(body: map<string, Value>)
    requires Truthy(Get(body, "title")) && Truthy(Get(body, "month")) && Truthy(Get(body, "year"))
    requires !Truthy(Get(body, "day")) && !Truthy(Get(body, "timeFrom")) && !Truthy(Get(body, "timeTo"))
    ensures Missing(RequiredFields, body) == ["day", "timeFrom", "timeTo"]
  {
    var first, last := ["title", "day", "month"], ["year", "timeFrom", "timeTo"];
    assert RequiredFields == first + last;
    calc {
      Missing(RequiredFields, body);
      Missing(first + last, body);
      { MissingAppend(first, last, body); }
      Missing(first, body) + Missing(last, body);
      { MissingPrefix(body); MissingSuffix(body); }
      ["day"] + ["timeFrom", "timeTo"];
    }
  }

  lemma RejectThreeFields(body: map<string, Value>)
    requires MissingFields(body) == ["day", "timeFrom", "timeTo"]
    ensures CheckCreate(body) == Reject("Faltan campos requeridos: " + "day, timeFrom, timeTo")
  {
    JoinThreeFields();
  }

  lemma JoinThreeFields()
    ensures Join(["day", "timeFrom", "timeTo"], ", ") == "day, timeFrom, timeTo"
  {
    assert ["day", "timeFrom", "timeTo"][1..] == ["timeFrom", "timeTo"];
    assert ["timeFrom", "timeTo"][1..] == ["timeTo"];
  }

  lemma MissingPrefix(body: map<string, Value>)
    requires Truthy(Get(body, "title")) && Truthy(Get(body, "month")) && !Truthy(Get(body, "day"))
    ensures Missing(["title", "day", "month"], body) == ["day"]
  {
    assert ["month"][1..] == [];
    assert Missing(["month"], body) == [];
    assert ["day", "month"][1..] == ["month"];
    assert Missing(["day", "month"], body) == ["day"];
    assert ["title", "day", "month"][1..] == ["day", "month"];
  }

  lemma MissingSuffix(body: map<string, Value>)
    requires Truthy(Get(body, "year")) && !Truthy(Get(body, "timeFrom")) && !Truthy(Get(body, "timeTo"))
    ensures Missing(["year", "timeFrom", "timeTo"], body) == ["timeFrom", "timeTo"]
  {
    assert ["timeTo"][1..] == [];
    assert Missing(["timeTo"], body) == ["timeTo"];
    assert ["timeFrom", "timeTo"][1..] == ["timeTo"];
    assert Missing(["timeFrom", "timeTo"], body) == ["timeFrom", "timeTo"];
    assert ["year", "timeFrom", "timeTo"][1..] == ["timeFrom", "timeTo"];
  }

  /** `requiredFields.filter(field => !eventData[field])`. */
  function MissingFields(body: map<string, Value>): (r: seq<string>)
    ensures r == [] <==> forall f :: f in RequiredFields ==> Truthy(Get(body, f))
  {
    var r := Missing(RequiredFields, body);
    assert r != [] ==> r[0] in r;
    r
  }

  predicate DateFieldsAreIntegers(body: map<string, Value>) {
    IsInteger(Get(body, "day")) && IsInteger(Get(body, "month")) && IsInteger(Get(body, "year"))
  }

  /** The event data handed to the table: the three date fields are integers by
      then, and the text fields are bound as their `String()` form. */
  function FieldsOf(body: map<string, Value>): EventFields
    requires DateFieldsAreIntegers(body)
  {
    EventFields(
      ToText(Get(body, "title")),
      Get(body, "day").i, Get(body, "month").i, Get(body, "year").i,
      ToText(Get(body, "timeFrom")), ToText(Get(body, "timeTo")))
  }

  datatype Check = Accept(fields: EventFields) | Reject(message: string)

  /** The two checks of `createEvent`, in order: presence, then integer dates. */
  function CheckCreate(body: map<string, Value>): (c: Check)
    ensures c.Accept? <==>
              (forall f :: f in RequiredFields ==> Truthy(Get(body, f))) && DateFieldsAreIntegers(body)
    ensures c.Accept? ==> DateFieldsAreIntegers(body) && c.fields == FieldsOf(body)
    ensures MissingFields(body) != [] ==>
              c == Reject("Faltan campos requeridos: " + Join(MissingFields(body), ", "))
  {
    var missing := MissingFields(body);
    if missing != [] then
      assert missing[0] in missing;
      Reject("Faltan campos requeridos: " + Join(missing, ", "))
    else if !DateFieldsAreIntegers(body) then Reject("Los campos de fecha deben ser números enteros")
    else Accept(FieldsOf(body))
  }

  /** Fields other than the six required ones do not affect the outcome: an
      `ingredients`, `recipeId` or `user_id` in the body is ignored. */
  lemma CheckCreateIgnoresOtherFields(body: map<string, Value>, k: string, v: Value)
    requires k !in RequiredFields
    ensures CheckCreate(body[k := v]) == CheckCreate(body)
  {
    var body' := body[k := v];
    forall f | f in RequiredFields
      ensures Get(body', f) == Get(body, f)
    {
      assert f != k;
    }
    MissingSame(RequiredFields, body, body');
    assert MissingFields(body') == MissingFields(body);
    assert DateFieldsAreIntegers(body') == DateFieldsAreIntegers(body);
  }

  lemma {:induction false} MissingSame(names: seq<string>, b1: map<string, Value>, b2: map<string, Value>)
    requires forall f :: f in names ==> Get(b1, f) == Get(b2, f)
    ensures Missing(names, b1) == Missing(names, b2)
  {
    if names != [] {
      MissingSame(names[1..], b1, b2);
    }
  }

  /** Every required field but `day` is truthy. */
  predicate OthersPresent(body: map<string, Value>) {
    Truthy(Get(body, "title")) && Truthy(Get(body, "month")) && Truthy(Get(body, "year"))
    && Truthy(Get(body, "timeFrom")) && Truthy(Get(body, "timeTo"))
  }

  /** With the other fields present, `day` alone decides what is missing. */
  lemma MissingOnlyDay(body: map<string, Value>)
    requires OthersPresent(body)
    ensures MissingFields(body) == if Truthy(Get(body, "day")) then [] else ["day"]
  {
    var names := RequiredFields;
    assert names[0] == "title" && names[1] == "day";
    var later := Missing(names[2..], body);
    assert names[2..] == ["month", "year", "timeFrom", "timeTo"];
    MissingNone(names[2..], body);
    assert names[1..][1..] == names[2..];
    assert Missing(names, body) == Missing(names[1..], body);
    assert Missing(names[1..], body) == if Truthy(Get(body, "day")) then later else ["day"] + later;
  }

  /** Nothing is missing when every named field is truthy. */
  lemma {:induction false} MissingNone(names: seq<string>, body: map<string, Value>)
    requires forall f :: f in names ==> Truthy(Get(body, f))
    ensures Missing(names, body) == []
  {
    if names != [] {
      assert names[0] in names;
      MissingNone(names[1..], body);
    }
  }

  /** Day 0 is falsy, so it is reported missing even though it is a number. */
  lemma DayZeroIsMissing(body: map<string, Value>)
    requires OthersPresent(body) && Get(body, "day") == Int(0)
    ensures CheckCreate(body) == Reject("Faltan campos requeridos: day")
  {
    MissingOnlyDay(body);
  }

  /** A day sent as text, such as "8", passes the presence check and fails
      the integer check. */
  lemma TextDayIsRejected(body: map<string, Value>, day: string)
    requires OthersPresent(body) && Get(body, "day") == Str(day) && day != []
    ensures CheckCreate(body) == Reject("Los campos de fecha deben ser números enteros")
  {
    MissingOnlyDay(body);
  }

  /** `getRecipes`: the caller's rows, or 500 when the query fails. */
  method GetRecipes(table: EventTable, userId: int, dbFails: bool) returns (res: Response)
    requires table.Valid()
    ensures dbFails ==> res == Response(500, false, "Error al obtener recetas", NoData)
    ensures !dbFails ==> res.status == 200 && res.success && res.data.Events?
    ensures !dbFails ==> multiset(res.data.rows) == multiset(OwnedBy(table.rows, userId))
    ensures !dbFails ==> SortedBy(res.data.rows, TimeLe)
  {
    if dbFails {
      return Response(500, false, "Error al obtener recetas", NoData);
    }
    var rows := table.GetByUserId(userId);
    res := Response(200, true, "", Events(rows));
  }

  /** `createEvent`: 400 on a failed check with the table untouched, otherwise
      the row is inserted for the caller and echoed with 201. */
  method CreateEvent(table: EventTable, userId: int, body: map<string, Value>, dbFails: bool)
    returns (res: Response)
    requires table.Valid()
    modifies table
    ensures table.Valid()
    ensures CheckCreate(body).Reject? ==>
              res == Response(400, false, CheckCreate(body).message, NoData) && table.rows == old(table.rows)
    ensures CheckCreate(body).Accept? && dbFails ==>
              res == Response(500, false, "Error al crear evento", NoData) && table.rows == old(table.rows)
    ensures CheckCreate(body).Accept? && !dbFails ==>
              && res.status == 201 && res.success && res.data.Created?
              && res.data.row == NewRow(old(table.nextId), userId, FieldsOf(body))
              && table.rows == old(table.rows) + [res.data.row]
  {
    var check := CheckCreate(body);
    if check.Reject? {
      return Response(400, false, check.message, NoData);
    }
    if dbFails {
      return Response(500, false, "Error al crear evento", NoData);
    }
    var created := table.Create(userId, check.fields);
    res := Response(201, true, "Evento creado exitosamente", Created(created));
  }

  /** `deleteRecipe`: 404 when no row has that id and the caller as owner. */
  method DeleteRecipe(table: EventTable, userId: int, recipeId: int, dbFails: bool)
    returns (res: Response)
    requires table.Valid()
    modifies table
    ensures table.Valid()
    ensures dbFails ==> res == Response(500, false, "Error al eliminar receta", NoData) && table.rows == old(table.rows)
    ensures !dbFails && !HasRow(old(table.rows), recipeId, userId) ==>
              res == Response(404, false, "Receta no encontrada o no tienes permiso para eliminarla", NoData)
              && table.rows == old(table.rows)
    ensures !dbFails && HasRow(old(table.rows), recipeId, userId) ==>
              res == Response(200, true, "Receta eliminada exitosamente", NoData)
              && table.rows == Without(old(table.rows), recipeId, userId)
  {
    if dbFails {
      return Response(500, false, "Error al eliminar receta", NoData);
    }
    var deleted := table.Delete(recipeId, userId);
    if !deleted {
      return Response(404, false, "Receta no encontrada o no tienes permiso para eliminarla", NoData);
    }
    res := Response(200, true, "Receta eliminada exitosamente", NoData);
  }
}
