/**
 * The request pipeline: the API-key gate, dispatch through a routing
 * table, the handlers and the terminal error handler.
 */
module Server {
  import opened Wrappers
  import opened Catalog
  import Store
  import Query
  import JsString
  import opened Router

  const ApiKey := "123456"
  const UnauthorizedMessage := "Unauthorized: Invalid API key"
  const ValidationMessage := "Validation Error: Missing fields"
  const NotFoundMessage := "Product not found"
  const DefaultErrorMessage := "Internal Server Error"
  const BannerText := "Hello World! Express.js API is running."

  /** The already-parsed query string; `None` for an absent value or one `parseInt` reads as NaN. */
  datatype QueryParams = QueryParams(category: Option<string>, page: Option<int>, limit: Option<int>)

  /**
   * A request as the routes see it. `bodyError` is the error `bodyParser.json()`
   * raises for a JSON body it cannot read (status 400 for malformed JSON, 413
   * for an oversize body); `None` when the body parsed or was not JSON.
   */
  datatype Request = Request(
    verb: Verb,
    path: seq<string>,
    apiKey: Option<string>,
    query: QueryParams,
    body: Body,
    bodyError: Option<ErrorObject>)

  datatype Payload =
    | ProductJson(product: Product)
    | ProductListJson(products: seq<Product>)
    | PageJson(page: Query.ListPage)
    | StatsJson(stats: map<string, nat>)
    | ErrorJson(error: string)
    | Text(text: string)
    | NoRoute

  datatype Response = Response(status: int, payload: Payload)

  /** The API-key gate: reject unless the header is present, truthy and equal to the key. */
  function Authorize(key: Option<string>): (ok: bool)
    ensures ok <==> key == Some(ApiKey)
  {
    !(!JsString.Truthy(key) || key.value != ApiKey)
  }

  /** What a handler passes to `next(err)`: `{ status, message }`, either part possibly missing. */
  datatype ErrorObject = ErrorObject(status: Option<int>, message: Option<string>)

  /** The error handler: `status || 500` and `message || "Internal Server Error"`. */
  function RenderError(e: ErrorObject): (r: Response)
    ensures r.status != 0 && r.payload.ErrorJson? && r.payload.error != ""
    ensures e.status.Some? && e.status.value != 0 ==> r.status == e.status.value
    ensures e.status.None? || e.status == Some(0) ==> r.status == 500
    ensures JsString.Truthy(e.message) ==> r.payload.error == e.message.value
    ensures !JsString.Truthy(e.message) ==> r.payload.error == DefaultErrorMessage
  {
    var status := if e.status.Some? && e.status.value != 0 then e.status.value else 500;
    var message := if JsString.Truthy(e.message) then e.message.value else DefaultErrorMessage;
    Response(status, ErrorJson(message))
  }

  /** Feeding a rendered error back through the handler changes nothing. */
  lemma RenderErrorFixedPoint(e: ErrorObject)
    ensures var r := RenderError(e);
      RenderError(ErrorObject(Some(r.status), Some(r.payload.error))) == r
  {
  }

  function NotFoundResponse(): Response {
    RenderError(ErrorObject(Some(404), Some(NotFoundMessage)))
  }

  function ValidationFailed(): Response {
    Response(400, ErrorJson(ValidationMessage))
  }

  lemma NotFoundIs404()
    ensures NotFoundResponse() == Response(404, ErrorJson(NotFoundMessage))
  {
  }

  /** A failed store operation as a response: 400 directly, 404 through the error handler. */
  function FailureResponse(f: Store.Failure): (r: Response)
    ensures r.status == f.Code()
  {
    match f
    case BadRequest => ValidationFailed()
    case NotFound => NotFoundResponse()
  }

  /**
   * What an authorised request does: `before` and `after` are the store's
   * records around the call, `d` the dispatch result.
   */
  ghost predicate Outcome(before: seq<Product>, after: seq<Product>, d: Option<Hit>, req: Request,
                          freshId: string, resp: Response)
    requires HitFits(d)
  {
    match d
    case None => after == before && resp == Response(404, NoRoute)
    case Some(Hit(h, ps)) =>
      match h
      case ListAll =>
        after == before &&
        resp == Response(200, PageJson(Query.ListProducts(before, req.query.category, req.query.page, req.query.limit)))
      case FindOne =>
        var i := Store.IndexOf(before, ps["id"]);
        after == before && resp == if i < 0 then NotFoundResponse() else Response(200, ProductJson(before[i]))
      case CreateOne =>
        if !IsValid(req.body) then after == before && resp == ValidationFailed()
        else
          var p := Stamp(freshId, req.body);
          after == before + [p] && resp == Response(201, ProductJson(p))
      case UpdateOne =>
        var i := Store.IndexOf(before, ps["id"]);
        if !IsValid(req.body) then after == before && resp == ValidationFailed()
        else if i < 0 then after == before && resp == NotFoundResponse()
        else
          var p := Stamp(ps["id"], req.body);
          after == before[i := p] && resp == Response(200, ProductJson(p))
      case DeleteOne =>
        var i := Store.IndexOf(before, ps["id"]);
        if i < 0 then after == before && resp == NotFoundResponse()
        else after == Store.RemoveAt(before, i) && resp == Response(200, ProductJson(before[i]))
      case SearchByName =>
        after == before && resp == Response(200, ProductListJson(Query.Search(before, ps["name"])))
      case CategoryStats =>
        after == before && resp == Response(200, StatsJson(Query.Stats(before)))
      case Banner =>
        after == before && resp == Response(200, Text(BannerText))
  }

  /**
   * One request: the body parser, the API-key gate, then the first matching
   * route of `routes`, then its handler. A body-parser error skips the gate
   * and every route and goes straight to the error handler. `freshId` stands
   * for the `uuidv4()` a POST draws.
   */
  method Serve(store: Store.ProductStore, routes: seq<Route>, req: Request, freshId: string)
    returns (resp: Response)
    requires store.Valid()
    requires ParamsFit(routes)
    modifies store
    ensures store.Valid()
    ensures req.bodyError.Some? ==>
      resp == RenderError(req.bodyError.value) && store.products == old(store.products)
    ensures req.bodyError.None? && !Authorize(req.apiKey) ==>
      resp == Response(401, ErrorJson(UnauthorizedMessage)) && store.products == old(store.products)
    ensures req.bodyError.None? && Authorize(req.apiKey) ==>
      HitFits(Dispatch(routes, req.verb, req.path)) &&
      Outcome(old(store.products), store.products, Dispatch(routes, req.verb, req.path), req, freshId, resp)
  {
    if req.bodyError.Some? {
      return RenderError(req.bodyError.value);
    }
    if !Authorize(req.apiKey) {
      return Response(401, ErrorJson(UnauthorizedMessage));
    }
    DispatchFits(routes, req.verb, req.path);
    var d := Dispatch(routes, req.verb, req.path);
    if d.None? {
      return Response(404, NoRoute);
    }
    var ps := d.value.params;
    match d.value.handler {
      case ListAll =>
        var q := req.query;
        resp := Response(200, PageJson(Query.ListProducts(store.products, q.category, q.page, q.limit)));
      case FindOne =>
        var found := store.Find(ps["id"]);
        resp := if found.None? then NotFoundResponse() else Response(200, ProductJson(found.value));
      case CreateOne =>
        var r := store.Create(req.body, freshId);
        resp := if r.Err? then FailureResponse(r.failure) else Response(201, ProductJson(r.value));
      case UpdateOne =>
        var r := store.Update(ps["id"], req.body);
        resp := if r.Err? then FailureResponse(r.failure) else Response(200, ProductJson(r.value));
      case DeleteOne =>
        var r := store.Delete(ps["id"]);
        resp := if r.Err? then FailureResponse(r.failure) else Response(200, ProductJson(r.value));
      case SearchByName =>
        resp := Response(200, ProductListJson(Query.Search(store.products, ps["name"])));
      case CategoryStats =>
        resp := Response(200, StatsJson(Query.Stats(store.products)));
      case Banner =>
        resp := Response(200, Text(BannerText));
    }
  }

  lemma StatsRequestPath()
    ensures IsStatsPath(["api", "products", "stats"])
  {
    JsString.LowerOfLowercase("api");
    JsString.LowerOfLowercase("products");
    JsString.LowerOfLowercase("stats");
  }

  /**
   * As registered, an authorised GET of the stats path is answered by the
   * id lookup: 404 unless some record has the id "stats", the store
   * unchanged.
   */
  lemma StatsRequestIsLookup(before: seq<Product>, after: seq<Product>, req: Request, freshId: string, resp: Response)
    requires req.verb == Get && req.path == ["api", "products", "stats"]
    requires HitFits(Dispatch(Registered, req.verb, req.path))
    requires Outcome(before, after, Dispatch(Registered, req.verb, req.path), req, freshId, resp)
    ensures after == before
    ensures Store.IndexOf(before, "stats") == -1 ==> resp == Response(404, ErrorJson(NotFoundMessage))
    ensures Store.IndexOf(before, "stats") >= 0 ==>
      resp == Response(200, ProductJson(before[Store.IndexOf(before, "stats")]))
  {
    StatsRequestPath();
    StatsShadowedById(req.path);
  }

  /** With the corrected table, the same request is answered by the stats handler. */
  lemma StatsRequestCorrected(before: seq<Product>, after: seq<Product>, req: Request, freshId: string, resp: Response)
    requires req.verb == Get && req.path == ["api", "products", "stats"]
    requires HitFits(Dispatch(Corrected, req.verb, req.path))
    requires Outcome(before, after, Dispatch(Corrected, req.verb, req.path), req, freshId, resp)
    ensures after == before && resp == Response(200, StatsJson(Query.Stats(before)))
  {
    StatsRequestPath();
    CorrectedServesStats(req.path);
  }
}
