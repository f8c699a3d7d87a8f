/**
  The registry entries of core/src/lib.rs: the filter decision `Chain`, the
  filter `Predicate`, and the filter and route table entries. Handlers are
  function values; what their bodies do is outside the model.
 */
module Tables {
  import opened Wrappers
  import opened Requests
  import opened Responses
  import opened Paths

  /** A filter's decision: go on with this request, or stop with this error. */
  datatype Chain = Continue(req: Request) | Reject(err: ReturnError<string>)

  /** When a filter applies; the only kind is a regular expression over the request path. */
  datatype Predicate = PathPattern(exp: string)

  /** A filter's order key, Rust's `u32`. */
  type U32 = x: int | 0 <= x < 0x1_0000_0000

  /** `FilterInfo`: predicate, order key and handler. */
  datatype FilterInfo = FilterInfo(pred: Predicate, order: U32, handler: Request -> Chain)

  /** `RouteInfo`: the method text, the path template and the handler. */
  datatype RouteInfo = RouteInfo(verb: string, path: Path, handler: Request -> Reply)

  const PathPatternKind: string := "path_pattern"

  /**
    `Predicate::from_str`: kind "path_pattern" gives a path pattern over
    `exp`; every other kind is a panic naming the kind.
   */
  function PredicateFromStr(kind: string, exp: string): (r: Result<Predicate, string>)
    ensures r.Success? <==> kind == PathPatternKind
    ensures r.Success? ==> r.value == PathPattern(exp)
    ensures r.Failure? ==> r.error == "unsupported predicate type: " + kind
  {
    if kind == PathPatternKind then Success(PathPattern(exp))
    else Failure("unsupported predicate type: " + kind)
  }
}
