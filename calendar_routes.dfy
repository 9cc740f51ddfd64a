/** The calendar router (backend/routes/calendarRoutes.js): each route names
    a property of the calendar controller as its handler. Registering a route
    whose handler is `undefined` throws a TypeError in Express's `Route`, so
    loading the module fails at the first such route. */
module CalendarRoutes {
  import opened Js

  /** The handlers the controller exports. */
  datatype Handler = GetRecipes | CreateEvent | DeleteRecipe

  /** `calendarController[name]`: a handler, or `undefined` for a name the
      controller does not define. */
  function ControllerHandler(name: string): (h: Option<Handler>)
    ensures h.Some? <==> name in {"getRecipes", "createEvent", "deleteRecipe"}
  {
    if name == "getRecipes" then Some(GetRecipes)
    else if name == "createEvent" then Some(CreateEvent)
    else if name == "deleteRecipe" then Some(DeleteRecipe)
    else None
  }

  /** One `router.<verb>(path, calendarController.<name>)` line. */
  datatype Route = Route(verb: string, path: string, handlerName: string)

  /** A registered route with its handler. */
  datatype Bound = Bound(verb: string, path: string, handler: Handler)

  datatype Loaded = Loaded(routes: seq<Bound>) | LoadError(handlerName: string)

  /** Registers the routes in order; the first route whose handler is
      `undefined` stops the load. */
  function Register(routes: seq<Route>): (r: Loaded)
    ensures r.Loaded? <==> forall i :: 0 <= i < |routes| ==> ControllerHandler(routes[i].handlerName).Some?
    ensures r.Loaded? ==> |r.routes| == |routes|
    ensures r.Loaded? ==> forall i :: 0 <= i < |routes| ==>
              r.routes[i] == Bound(routes[i].verb, routes[i].path, ControllerHandler(routes[i].handlerName).value)
    ensures r.LoadError? ==> ControllerHandler(r.handlerName).None?
    ensures r.LoadError? ==>
              exists i :: && 0 <= i < |routes| && routes[i].handlerName == r.handlerName
                          && forall j :: 0 <= j < i ==> ControllerHandler(routes[j].handlerName).Some?
  {
    if routes == [] then Loaded([])
    else
      match ControllerHandler(routes[0].handlerName)
      case None => LoadError(routes[0].handlerName)
      case Some(h) =>
        var rest := Register(routes[1..]);
        if rest.LoadError? then
          var i :| && 0 <= i < |routes[1..]| && routes[1..][i].handlerName == rest.handlerName
                   && forall j :: 0 <= j < i ==> ControllerHandler(routes[1..][j].handlerName).Some?;
          assert routes[i + 1] == routes[1..][i];
          assert forall j :: 0 <= j < i + 1 ==> ControllerHandler(routes[j].handlerName).Some? by {
            forall j | 0 <= j < i + 1
              ensures ControllerHandler(routes[j].handlerName).Some?
            {
              if j > 0 {
                assert routes[j] == routes[1..][j - 1];
              }
            }
          }
          rest
        else
          assert forall i :: 1 <= i < |routes| ==> routes[i] == routes[1..][i - 1];
          Loaded([Bound(routes[0].verb, routes[0].path, h)] + rest.routes)
  }

  /** The five routes as written. */
  const WrittenRoutes: seq<Route> := [
    Route("get", "/events", "getRecipes"),
    Route("get", "/events/:eventId", "getEventById"),
    Route("post", "/events", "createEvent"),
    Route("put", "/events/:eventId", "updateEvent"),
    Route("delete", "/events/:recipeId", "deleteRecipe")]

  /** As written, the second route names `getEventById`, which the controller
      does not define, so the router never loads. */
  lemma AsWrittenRoutesFailToLoad()
    ensures Register(WrittenRoutes) == LoadError("getEventById")
  {
    assert WrittenRoutes[1..][0].handlerName == "getEventById";
  }

  /** The routes whose handlers exist: listing, creation and deletion. */
  const CorrectedRoutes: seq<Route> := [
    Route("get", "/events", "getRecipes"),
    Route("post", "/events", "createEvent"),
    Route("delete", "/events/:recipeId", "deleteRecipe")]

  /** Without the two undefined handlers the router loads, and each route is
      bound to the controller function it names. */
  lemma CorrectedRoutesLoad()
    ensures Register(CorrectedRoutes) == Loaded([
              Bound("get", "/events", GetRecipes),
              Bound("post", "/events", CreateEvent),
              Bound("delete", "/events/:recipeId", DeleteRecipe)])
  {
    var r := Register(CorrectedRoutes);
    assert ControllerHandler(CorrectedRoutes[0].handlerName).Some?;
    assert ControllerHandler(CorrectedRoutes[1].handlerName).Some?;
    assert ControllerHandler(CorrectedRoutes[2].handlerName).Some?;
    assert r.Loaded? && |r.routes| == 3;
  }
}
