/**
  What the code generated by the `#[route]`, `#[filter]` and `#[register]`
  attributes does (macros/src/lib.rs): the route handler turns the user
  function's `Result` into a response whose Content-Type follows the
  formatter; the registration functions build table entries from the parsed
  attribute; `validate_item` checks the shape of a function given to
  `#[register]`.

  serde_json serialization and `Display` formatting are parameters: a
  serializer returns None where `serde_json::to_string` fails (the generated
  code unwraps it, which panics).
 */
module Codegen {
  import opened Wrappers
  import opened Requests
  import opened Responses
  import opened Paths
  import opened Tables
  import opened AttributeParse
  import opened Server

  const ContentTypeName: string := "Content-Type"
  const JsonFormatter: string := "json"
  const TextFormatter: string := "text"

  /** The message of the panic when serialization fails and is unwrapped. */
  const SerializationPanic: string := "called `Result::unwrap()` on an `Err` value: serde_json::Error"

  /**
    The Content-Type the generated handler sets: application/json for json,
    text/plain for text, and text/html for every other formatter text.
   */
  function ContentTypeFor(formatter: string): (ct: string)
    ensures formatter == JsonFormatter <==> ct == "application/json"
    ensures formatter == TextFormatter <==> ct == "text/plain"
    ensures formatter != JsonFormatter && formatter != TextFormatter <==> ct == "text/html"
  {
    if formatter == JsonFormatter then "application/json"
    else if formatter == TextFormatter then "text/plain"
    else "text/html"
  }

  /** How a value is turned into body text: serde_json for json, `Display` otherwise. */
  datatype Renderer<-T> = Renderer(toJson: T -> Option<string>, show: T -> string)

  /** The body text for `v` under `formatter`, or None where serialization fails. */
  function Render<T>(formatter: string, r: Renderer<T>, v: T): (body: Option<string>)
    ensures formatter != JsonFormatter ==> body == Some(r.show(v))
    ensures formatter == JsonFormatter ==> body == r.toJson(v)
  {
    if formatter == JsonFormatter then r.toJson(v) else Some(r.show(v))
  }

  /**
    The response the generated route handler produces from the user
    function's result. A success gets the default status, only the
    Content-Type header and the rendered data. An error gets its own status,
    its own headers followed by the Content-Type header, and its rendered
    body. A failed serialization or an invalid status code panics; the
    handler never resolves to `Err`.
   */
  function GeneratedReply<T, E>(formatter: string, result: Result<T, ReturnError<E>>,
                                data: Renderer<T>, errBody: Renderer<E>): (r: Reply)
    ensures !r.Err?
    ensures result.Success? ==>
      var body := Render(formatter, data, result.value);
      && (r.Ok? <==> body.Some?)
      && (r.Ok? ==> r.response == Response(DefaultStatus, [(ContentTypeName, ContentTypeFor(formatter))], body.value))
    ensures result.Failure? ==>
      var err := result.error;
      var body := Render(formatter, errBody, err.responseBody);
      && (r.Ok? <==> body.Some? && ValidStatus(err.responseCode))
      && (r.Ok? ==>
            && r.response.status == err.responseCode
            && r.response.headers == err.headers + [(ContentTypeName, ContentTypeFor(formatter))]
            && r.response.body == body.value)
  {
    var ct := (ContentTypeName, ContentTypeFor(formatter));
    match result
    case Success(v) =>
      (match Render(formatter, data, v)
       case None => Panic(SerializationPanic)
       case Some(body) => Ok(Response(DefaultStatus, [ct], body)))
    case Failure(err) =>
      (match Render(formatter, errBody, err.responseBody)
       case None => Panic(SerializationPanic)
       case Some(body) => BuildWithStatus(err.responseCode, err.headers + [ct], body))
  }

  /**
    The generated handler: run the user function on the request and shape
    its result. Whatever the request, it never resolves to `Err`; a response
    it gives ends with the formatter's Content-Type header; a success is
    answered with the default status, an error with its own status.
   */
  function GeneratedHandler<T, E>(formatter: string, user: Request -> Result<T, ReturnError<E>>,
                                  data: Renderer<T>, errBody: Renderer<E>): (h: Request -> Reply)
    ensures forall req :: !h(req).Err?
    ensures forall req :: h(req).Ok? ==>
      var hs := h(req).response.headers;
      |hs| > 0 && hs[|hs| - 1] == (ContentTypeName, ContentTypeFor(formatter))
    ensures forall req :: h(req).Ok? && user(req).Success? ==>
      h(req).response.status == DefaultStatus && h(req).response.headers == [(ContentTypeName, ContentTypeFor(formatter))]
    ensures forall req :: h(req).Ok? && user(req).Failure? ==>
      h(req).response.status == user(req).error.responseCode
  {
    var h := req => GeneratedReply(formatter, user(req), data, errBody);
    assert forall req :: h(req) == GeneratedReply(formatter, user(req), data, errBody);
    h
  }

  /**
    A server whose routes are all generated route handlers never answers a
    request with `Err`: the reject reply, the 404 and every generated
    handler resolve to a response or panic. `routes[i]` is the entry the
    `#[route]` attribute `attrs[i]` registers for the user function
    `users[i]`.
   */
  lemma GeneratedRoutesNeverErr<T, E>(filters: seq<FilterInfo>, attrs: seq<RouteAttribute>,
                                      users: seq<Request -> Result<T, ReturnError<E>>>,
                                      data: Renderer<T>, errBody: Renderer<E>, incoming: Incoming, rx: Regex)
    requires |attrs| == |users|
    ensures var routes := seq(|attrs|, i requires 0 <= i < |attrs| =>
                              RouteEntry(attrs[i], GeneratedHandler(attrs[i].formatter, users[i], data, errBody)));
      !Call(filters, routes, incoming, rx).reply.Err?
  {
    var routes := seq(|attrs|, i requires 0 <= i < |attrs| =>
                      RouteEntry(attrs[i], GeneratedHandler(attrs[i].formatter, users[i], data, errBody)));
    forall i | 0 <= i < |routes| ensures forall req :: !routes[i].handler(req).Err? {
      assert routes[i].handler == GeneratedHandler(attrs[i].formatter, users[i], data, errBody);
    }
    CallNeverErr(filters, routes, incoming, rx);
  }

  /**
    The text and html formatters render the same way and differ only in the
    Content-Type header they set.
   */
  lemma TextAndHtmlDifferOnlyInContentType<T, E>(result: Result<T, ReturnError<E>>, data: Renderer<T>, errBody: Renderer<E>)
    ensures var t := GeneratedReply(TextFormatter, result, data, errBody);
      var h := GeneratedReply("html", result, data, errBody);
      && t.Ok? == h.Ok?
      && (t.Ok? ==>
            var n := |t.response.headers|;
            && t.response.status == h.response.status
            && t.response.body == h.response.body
            && n > 0 && |h.response.headers| == n
            && t.response.headers[..n - 1] == h.response.headers[..n - 1]
            && t.response.headers[n - 1] == (ContentTypeName, "text/plain")
            && h.response.headers[n - 1] == (ContentTypeName, "text/html"))
  {
    var t := GeneratedReply(TextFormatter, result, data, errBody);
    if t.Ok? && result.Failure? {
      var hs := result.error.headers;
      assert (hs + [(ContentTypeName, "text/plain")])[..|hs|] == hs;
      assert (hs + [(ContentTypeName, "text/html")])[..|hs|] == hs;
    }
  }

  /**
    An error built with `ReturnError::new` carries no headers of its own, so
    its response has the Content-Type header alone.
   */
  lemma FreshErrorHasOnlyContentType<T, E>(formatter: string, code: U16, body: E, data: Renderer<T>, errBody: Renderer<E>)
    requires ValidStatus(code) && Render(formatter, errBody, body).Some?
    ensures var r := GeneratedReply(formatter, Failure(NewReturnError(code, body)), data, errBody);
      r.Ok? && r.response.status == code && r.response.headers == [(ContentTypeName, ContentTypeFor(formatter))]
  {
  }

  // ---------------------------------------------------------- registration

  /** The table entry a route registration function pushes. */
  function RouteEntry(a: RouteAttribute, handler: Request -> Reply): (route: RouteInfo)
    ensures route.verb == a.httpMethod && route.path.inner == a.path && route.handler == handler
  {
    RouteInfo(a.httpMethod, Path(a.path), handler)
  }

  /**
    The entry a filter registration function pushes, or the panic of
    `Predicate::from_str`. The order literal must fit the `u32` parameter it
    is passed to; a larger one does not compile.
   */
  function FilterEntry(a: FilterAttribute, handler: Request -> Chain): (r: Result<FilterInfo, string>)
    requires a.order < 0x1_0000_0000
    ensures r.Success? <==> a.predicateType == PathPatternKind
    ensures r.Success? ==> r.value == FilterInfo(PathPattern(a.predicateValue), a.order, handler)
  {
    var pred :- PredicateFromStr(a.predicateType, a.predicateValue);
    Success(FilterInfo(pred, a.order, handler))
  }

  /**
    An attribute that got through the filter grammar always names the
    path-pattern predicate, so building its entry never panics.
   */
  lemma ParsedFilterEntryNeverPanics(toks: seq<Token>, handler: Request -> Chain)
    requires ParseFilter(toks).Success? && toks[6].digits < 0x1_0000_0000
    ensures FilterEntry(ParseFilter(toks).value, handler)
         == Success(FilterInfo(PathPattern(toks[2].value), toks[6].digits, handler))
  {
  }

  // ---------------------------------------------------------- validate_item

  /** A function's visibility as syn reports it. */
  datatype Visibility = Inherited | Public | Restricted

  /** A function's declared return type: none, or some type. */
  datatype ReturnType = Default | Type(ty: string)

  /** The parts of a function item `validate_item` looks at. */
  datatype ItemFn = ItemFn(vis: Visibility, inputs: seq<string>, output: ReturnType)

  /**
    `validate_item(typ, item)`: a function with a visibility modifier, any
    parameter or a return type is refused with a panic naming the attribute,
    checked in that order.
   */
  function ValidateItem(typ: string, item: ItemFn): (r: Result<(), string>)
    ensures r.Success? <==> item.vis == Inherited && |item.inputs| == 0 && item.output == Default
    ensures item.vis != Inherited ==> r == Failure("#[" + typ + "] methods must not have visibility modifiers")
    ensures item.vis == Inherited && |item.inputs| > 0 ==> r == Failure("#[" + typ + "] methods may not have parameters")
    ensures item.vis == Inherited && |item.inputs| == 0 && item.output != Default ==>
      r == Failure("#[" + typ + "] methods must not have return types")
  {
    var _ :- Need(item.vis == Inherited, "#[" + typ + "] methods must not have visibility modifiers");
    var _ :- Need(|item.inputs| == 0, "#[" + typ + "] methods may not have parameters");
    Need(item.output == Default, "#[" + typ + "] methods must not have return types")
  }

  /**
    The registration functions the route and filter attributes generate,
    `fn register_<name>()`, pass the check `#[register]` applies to them.
   */
  lemma GeneratedRegistrationPasses()
    ensures ValidateItem("ctor", ItemFn(Inherited, [], Default)).Success?
  {
  }
}
