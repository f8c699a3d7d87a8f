/**
  The argument grammars of the `#[route(..)]` and `#[filter(..)]` attributes
  (macros/src/parse.rs), over an abstract token list. The parser reads the
  tokens front to back as syn's `ParseStream` does: `parse` of an identifier,
  punctuation or literal consumes one token of that kind or fails with syn's
  "expected ..." error, and `peek` looks at the next token without consuming it.
 */
module AttributeParse {
  import opened Wrappers

  /** The tokens an attribute argument list is made of. */
  datatype Token =
    | Ident(name: string)
    | Comma
    | Eq
    | LitStr(value: string)
    | LitInt(digits: nat)

  /** The token kinds syn names in its own "expected ..." errors. */
  datatype TokenKind = IdentKind | CommaKind | EqKind | LitStrKind | LitIntKind

  /** A parse error: syn's error for a missing token kind, or one of the grammar's own messages. */
  datatype ParseError = Expected(kind: TokenKind) | Message(text: string)

  /** What `#[route(METHOD, path = "..", formatter = "..")]` carries. */
  datatype RouteAttribute = RouteAttribute(httpMethod: string, path: string, formatter: string)

  /** What `#[filter(path_pattern = "..", order = N)]` carries. */
  datatype FilterAttribute = FilterAttribute(predicateType: string, predicateValue: string, order: nat)

  const HttpMethods: seq<string> := ["GET", "POST", "OPTIONS", "HEAD", "DELETE", "PUT", "TRACE", "CONNECT", "PATCH"]
  const Formatters: seq<string> := ["json", "text", "html"]

  const PathKeyword: string := "path"
  const FormatterKeyword: string := "formatter"
  const PathPatternKeyword: string := "path_pattern"
  const OrderKeyword: string := "order"

  const ExpectedHttpMethod: string := "expected http method"
  const ExpectedPath: string := "expected path"
  const ExpectedFormatter: string := "expected formatter"
  const UnsupportedFormatter: string := "formatter only support json, text, html"
  const ExpectedPathPattern: string := "expected path_pattern"
  const ExpectedOrder: string := "expected order"

  // ------------------------------------------------------- token primitives

  /** `input.parse::<Ident>()`: the identifier's text and the remaining tokens. */
  function ParseIdent(toks: seq<Token>): (r: Result<(string, seq<Token>), ParseError>)
    ensures r.Success? <==> |toks| > 0 && toks[0].Ident?
    ensures r.Success? ==> r.value == (toks[0].name, toks[1..])
    ensures r.Failure? ==> r.error == Expected(IdentKind)
  {
    if |toks| > 0 && toks[0].Ident? then Success((toks[0].name, toks[1..])) else Failure(Expected(IdentKind))
  }

  /** `input.parse::<LitStr>()`: the literal's value and the remaining tokens. */
  function ParseLitStr(toks: seq<Token>): (r: Result<(string, seq<Token>), ParseError>)
    ensures r.Success? <==> |toks| > 0 && toks[0].LitStr?
    ensures r.Success? ==> r.value == (toks[0].value, toks[1..])
    ensures r.Failure? ==> r.error == Expected(LitStrKind)
  {
    if |toks| > 0 && toks[0].LitStr? then Success((toks[0].value, toks[1..])) else Failure(Expected(LitStrKind))
  }

  /** `input.parse::<LitInt>()`: the literal's digits and the remaining tokens. */
  function ParseLitInt(toks: seq<Token>): (r: Result<(nat, seq<Token>), ParseError>)
    ensures r.Success? <==> |toks| > 0 && toks[0].LitInt?
    ensures r.Success? ==> r.value == (toks[0].digits, toks[1..])
    ensures r.Failure? ==> r.error == Expected(LitIntKind)
  {
    if |toks| > 0 && toks[0].LitInt? then Success((toks[0].digits, toks[1..])) else Failure(Expected(LitIntKind))
  }

  /** `input.parse::<Token![,]>()` and `input.parse::<Token![=]>()`: consume one punctuation token. */
  function ParsePunct(toks: seq<Token>, p: Token): (r: Result<seq<Token>, ParseError>)
    requires p == Comma || p == Eq
    ensures r.Success? <==> |toks| > 0 && toks[0] == p
    ensures r.Success? ==> r.value == toks[1..]
    ensures r.Failure? ==> r.error == Expected(if p == Comma then CommaKind else EqKind)
  {
    if |toks| > 0 && toks[0] == p then Success(toks[1..])
    else Failure(Expected(if p == Comma then CommaKind else EqKind))
  }

  /** `input.peek(token::Eq)`. */
  predicate PeekEq(toks: seq<Token>) {
    |toks| > 0 && toks[0] == Eq
  }

  // ------------------------------------------------------------------ route

  /**
    The token shapes the route grammar accepts: a method from the list, a
    comma, `path = "<literal>"`, a comma, and `formatter = "<literal>"` whose
    literal is one of the supported formatters. Tokens after these nine are
    not looked at.
   */
  predicate RouteShape(toks: seq<Token>) {
    && |toks| >= 9
    && toks[0].Ident? && toks[0].name in HttpMethods
    && toks[1] == Comma
    && toks[2] == Ident(PathKeyword) && toks[3] == Eq
    && toks[4].LitStr?
    && toks[5] == Comma
    && toks[6] == Ident(FormatterKeyword) && toks[7] == Eq
    && toks[8].LitStr? && toks[8].value in Formatters
  }

  /**
    `RouteAttribute::parse`: accepted exactly when the tokens have the route
    shape, and then the attribute holds the method identifier and the two
    literals.
   */
  function ParseRoute(toks: seq<Token>): (r: Result<RouteAttribute, ParseError>)
    ensures r.Success? <==> RouteShape(toks)
    ensures r.Success? ==> r.value == RouteAttribute(toks[0].name, toks[4].value, toks[8].value)
  {
    var (httpMethod, t1) :- ParseIdent(toks);
    var _ :- Need(httpMethod in HttpMethods, Message(ExpectedHttpMethod));
    var t2 :- ParsePunct(t1, Comma);
    assert t2 == toks[2..];
    var (pathIdent, t3) :- ParseIdent(t2);
    var _ :- Need(pathIdent == PathKeyword && PeekEq(t3), Message(ExpectedPath));
    var t4 := t3[1..];  // the `=` the peek saw
    assert t4 == toks[4..];
    var (path, t5) :- ParseLitStr(t4);
    var t6 :- ParsePunct(t5, Comma);
    assert t6 == toks[6..];
    var (formatterIdent, t7) :- ParseIdent(t6);
    var _ :- Need(formatterIdent == FormatterKeyword && PeekEq(t7), Message(ExpectedFormatter));
    var t8 := t7[1..];  // the `=` the peek saw
    assert t8 == toks[8..];
    var (formatter, _) :- ParseLitStr(t8);
    var _ :- Need(formatter in Formatters, Message(UnsupportedFormatter));
    Success(RouteAttribute(httpMethod, path, formatter))
  }

  /** The method identifier is compared case-sensitively against the list. */
  lemma RouteRejectsUnknownMethod(toks: seq<Token>)
    requires |toks| > 0 && toks[0].Ident? && toks[0].name !in HttpMethods
    ensures ParseRoute(toks) == Failure(Message(ExpectedHttpMethod))
  {
  }

  /** After the method and comma, anything but `path` followed by `=` is "expected path". */
  lemma RouteNeedsPathKey(toks: seq<Token>)
    requires |toks| > 2 && toks[0].Ident? && toks[0].name in HttpMethods && toks[1] == Comma
    requires toks[2].Ident? && (toks[2].name != PathKeyword || !PeekEq(toks[3..]))
    ensures ParseRoute(toks) == Failure(Message(ExpectedPath))
  {
  }

  /** After the path literal and comma, anything but `formatter` followed by `=` is "expected formatter". */
  lemma RouteNeedsFormatterKey(toks: seq<Token>)
    requires |toks| > 6 && toks[0].Ident? && toks[0].name in HttpMethods && toks[1] == Comma
    requires toks[2] == Ident(PathKeyword) && toks[3] == Eq && toks[4].LitStr? && toks[5] == Comma
    requires toks[6].Ident? && (toks[6].name != FormatterKeyword || !PeekEq(toks[7..]))
    ensures ParseRoute(toks) == Failure(Message(ExpectedFormatter))
  {
    assert toks[1..][1..][1..][1..][1..][1..][1..] == toks[7..];
  }

  /** A formatter literal other than json, text or html is refused. */
  lemma RouteRejectsUnknownFormatter(toks: seq<Token>)
    requires |toks| >= 9 && toks[0].Ident? && toks[0].name in HttpMethods && toks[1] == Comma
    requires toks[2] == Ident(PathKeyword) && toks[3] == Eq && toks[4].LitStr? && toks[5] == Comma
    requires toks[6] == Ident(FormatterKeyword) && toks[7] == Eq
    requires toks[8].LitStr? && toks[8].value !in Formatters
    ensures ParseRoute(toks) == Failure(Message(UnsupportedFormatter))
  {
    assert toks[1..][1..][1..][1..][1..][1..][1..][1..] == toks[8..];
  }

  /** An attribute the grammar can produce. */
  predicate ValidRoute(a: RouteAttribute) {
    a.httpMethod in HttpMethods && a.formatter in Formatters
  }

  /** The tokens of `METHOD, path = "..", formatter = ".."` for an attribute. */
  function UnparseRoute(a: RouteAttribute): (toks: seq<Token>)
    ensures |toks| == 9
  {
    [Ident(a.httpMethod), Comma, Ident(PathKeyword), Eq, LitStr(a.path), Comma,
     Ident(FormatterKeyword), Eq, LitStr(a.formatter)]
  }

  /** Printing a valid attribute and parsing it back gives the attribute, whatever follows. */
  lemma RouteRoundTrip(a: RouteAttribute, rest: seq<Token>)
    requires ValidRoute(a)
    ensures ParseRoute(UnparseRoute(a) + rest) == Success(a)
  {
    var t := UnparseRoute(a) + rest;
    assert t[..9] == UnparseRoute(a);
  }

  /** Whatever parses begins with the printed form of what it parsed to. */
  lemma RouteParsedIsPrinted(toks: seq<Token>)
    requires ParseRoute(toks).Success?
    ensures ValidRoute(ParseRoute(toks).value)
    ensures toks[..9] == UnparseRoute(ParseRoute(toks).value)
  {
  }

  // ----------------------------------------------------------------- filter

  /**
    The token shapes the filter grammar accepts: `path_pattern = "<literal>"`,
    a comma, and `order = <integer>`. Tokens after these seven are not looked at.
   */
  predicate FilterShape(toks: seq<Token>) {
    && |toks| >= 7
    && toks[0] == Ident(PathPatternKeyword) && toks[1] == Eq
    && toks[2].LitStr?
    && toks[3] == Comma
    && toks[4] == Ident(OrderKeyword) && toks[5] == Eq
    && toks[6].LitInt?
  }

  /**
    `FilterAttribute::parse`: accepted exactly when the tokens have the
    filter shape, and then the attribute holds the predicate kind, the
    pattern literal and the order literal.
   */
  function ParseFilter(toks: seq<Token>): (r: Result<FilterAttribute, ParseError>)
    ensures r.Success? <==> FilterShape(toks)
    ensures r.Success? ==> r.value == FilterAttribute(PathPatternKeyword, toks[2].value, toks[6].digits)
  {
    var (predicateIdent, t1) :- ParseIdent(toks);
    if predicateIdent == PathPatternKeyword && PeekEq(t1) then
      var t2 := t1[1..];  // the `=` the peek saw
      var (pathPattern, t3) :- ParseLitStr(t2);
      var t4 :- ParsePunct(t3, Comma);
      var (orderIdent, t5) :- ParseIdent(t4);
      if orderIdent == OrderKeyword && PeekEq(t5) then
        var t6 := t5[1..];  // the `=` the peek saw
        var (order, _) :- ParseLitInt(t6);
        Success(FilterAttribute(predicateIdent, pathPattern, order))
      else
        Failure(Message(ExpectedOrder))
    else
      Failure(Message(ExpectedPathPattern))
  }

  /** Anything but `path_pattern` followed by `=` at the start is "expected path_pattern". */
  lemma FilterNeedsPathPatternKey(toks: seq<Token>)
    requires |toks| > 0 && toks[0].Ident?
    requires toks[0].name != PathPatternKeyword || !PeekEq(toks[1..])
    ensures ParseFilter(toks) == Failure(Message(ExpectedPathPattern))
  {
  }

  /** After the pattern literal and comma, anything but `order` followed by `=` is "expected order". */
  lemma FilterNeedsOrderKey(toks: seq<Token>)
    requires |toks| > 4 && toks[0] == Ident(PathPatternKeyword) && toks[1] == Eq
    requires toks[2].LitStr? && toks[3] == Comma
    requires toks[4].Ident? && (toks[4].name != OrderKeyword || !PeekEq(toks[5..]))
    ensures ParseFilter(toks) == Failure(Message(ExpectedOrder))
  {
    assert toks[1..][1..][1..][1..][1..] == toks[5..];
  }

  /** An attribute the filter grammar can produce. */
  predicate ValidFilter(a: FilterAttribute) {
    a.predicateType == PathPatternKeyword
  }

  /** The tokens of `path_pattern = "..", order = N` for an attribute. */
  function UnparseFilter(a: FilterAttribute): (toks: seq<Token>)
    ensures |toks| == 7
  {
    [Ident(a.predicateType), Eq, LitStr(a.predicateValue), Comma, Ident(OrderKeyword), Eq, LitInt(a.order)]
  }

  /** Printing a valid filter attribute and parsing it back gives the attribute, whatever follows. */
  lemma FilterRoundTrip(a: FilterAttribute, rest: seq<Token>)
    requires ValidFilter(a)
    ensures ParseFilter(UnparseFilter(a) + rest) == Success(a)
  {
    var t := UnparseFilter(a) + rest;
    assert t[..7] == UnparseFilter(a);
  }

  /** Whatever parses begins with the printed form of what it parsed to. */
  lemma FilterParsedIsPrinted(toks: seq<Token>)
    requires ParseFilter(toks).Success?
    ensures ValidFilter(ParseFilter(toks).value)
    ensures toks[..7] == UnparseFilter(ParseFilter(toks).value)
  {
  }
}
