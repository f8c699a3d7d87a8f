/**
  The request dispatcher of core/src/server.rs (`Service::call`): run the
  filter table in order, then hand the request to the first route whose
  method and path template fit, or answer 404.
 */
module Server {
  import opened Wrappers
  import opened Requests
  import opened Responses
  import opened Paths
  import opened Tables
  import opened Strings

  /** The regular-expression engine: whether a pattern compiles, and whether it matches a text. */
  datatype Regex = Regex(compiles: string -> bool, isMatch: (string, string) -> bool)

  /**
    Whether a filter's predicate applies to a path: a pattern that does not
    compile never applies, and a compiled one applies exactly when it
    matches the path.
   */
  function PredicateHolds(p: Predicate, path: string, rx: Regex): (holds: bool)
    ensures !rx.compiles(p.exp) ==> !holds
    ensures rx.compiles(p.exp) ==> (holds <==> rx.isMatch(p.exp, path))
  {
    match p
    case PathPattern(exp) => rx.compiles(exp) && rx.isMatch(exp, path)
  }

  /** Where the filter table leaves a request: passed on (possibly changed), or rejected. */
  datatype ChainOutcome = Continued(req: Request) | Rejected(err: ReturnError<string>)

  /**
    One filter the chain reached: skipped because its predicate did not
    apply to the request it saw, or invoked on that request with the
    decision its handler returned.
   */
  datatype Step =
    | Skipped(index: nat, seen: Request)
    | Invoked(index: nat, seen: Request, decision: Chain)

  /** The chain's outcome together with every filter it reached, in order. */
  datatype FilterRun = FilterRun(outcome: ChainOutcome, steps: seq<Step>)

  predicate Stops(s: Step) {
    s.Invoked? && s.decision.Reject?
  }

  /** The request a step hands on: unchanged when skipped, the handler's request when it continued. */
  function HandedOn(s: Step): Request {
    if s.Invoked? && s.decision.Continue? then s.decision.req else s.seen
  }

  /** Step `k` follows on from step `k - 1`: that one did not reject, and handed on what step `k` sees. */
  ghost predicate Linked(steps: seq<Step>, k: int)
    requires 0 < k < |steps|
  {
    !Stops(steps[k - 1]) && steps[k].seen == HandedOn(steps[k - 1])
  }

  /** Step `k` treats filter `start + k` as the discipline demands. */
  ghost predicate Obeys(filters: seq<FilterInfo>, start: nat, rx: Regex, steps: seq<Step>, k: int)
    requires 0 <= k < |steps| && start + k < |filters|
  {
    var f := filters[start + k];
    && steps[k].index == start + k
    && (steps[k].Invoked? <==> PredicateHolds(f.pred, steps[k].seen.path, rx))
    && (steps[k].Invoked? ==> steps[k].decision == f.handler(steps[k].seen))
  }

  /** How a run ends: at the first rejection, or after the last filter. */
  ghost predicate Ends(filters: seq<FilterInfo>, start: nat, req: Request, run: FilterRun) {
    var steps := run.steps;
    && (run.outcome.Rejected? <==> |steps| > 0 && Stops(steps[|steps| - 1]))
    && (run.outcome.Rejected? ==> run.outcome.err == steps[|steps| - 1].decision.err)
    && (run.outcome.Continued? ==>
          && start + |steps| == |filters|
          && run.outcome.req == if |steps| == 0 then req else HandedOn(steps[|steps| - 1]))
  }

  /**
    The filter-chain discipline, stated step by step from filter `start` on:
    steps visit consecutive filters; the first sees the incoming request and
    each later one the request handed on by the step before, which must not
    have rejected; a filter is invoked exactly when its predicate applies to
    the request it sees, and then its decision is its handler's result on
    that request; the run ends at the first rejection, whose error is the
    outcome, or after the last filter, with the request handed on last.
   */
  ghost predicate ValidRun(filters: seq<FilterInfo>, start: nat, req: Request, rx: Regex, run: FilterRun)
    requires start <= |filters|
  {
    var steps := run.steps;
    && start + |steps| <= |filters|
    && (|steps| > 0 ==> steps[0].seen == req)
    && (forall k :: 0 <= k < |steps| ==> Obeys(filters, start, rx, steps, k))
    && (forall k :: 0 < k < |steps| ==> Linked(steps, k))
    && Ends(filters, start, req, run)
  }

  /** Prepending the step for filter `start` to a valid run from `start + 1` gives a valid run from `start`. */
  lemma ValidRunCons(filters: seq<FilterInfo>, start: nat, req: Request, rx: Regex, first: Step, rest: FilterRun)
    requires start < |filters|
    requires ValidRun(filters, start + 1, HandedOn(first), rx, rest)
    requires first.seen == req && !Stops(first)
    requires Obeys(filters, start, rx, [first], 0)
    ensures ValidRun(filters, start, req, rx, FilterRun(rest.outcome, [first] + rest.steps))
  {
    var steps := [first] + rest.steps;
    forall k | 0 < k < |steps| ensures Obeys(filters, start, rx, steps, k) {
      assert steps[k] == rest.steps[k - 1];
      assert Obeys(filters, start + 1, rx, rest.steps, k - 1);
    }
    forall k | 0 < k < |steps| ensures Linked(steps, k) {
      if k > 1 {
        assert steps[k] == rest.steps[k - 1] && steps[k - 1] == rest.steps[k - 2];
        assert Linked(rest.steps, k - 1);
      }
    }
    if |rest.steps| > 0 {
      assert steps[|steps| - 1] == rest.steps[|rest.steps| - 1];
    }
  }

  /**
    The `for filter_info in filter_table` loop of `Service::call`, from
    filter `start` on: skip a filter whose predicate does not apply, replace
    the request on `Continue`, stop on `Reject`.
   */
  function RunFilters(filters: seq<FilterInfo>, start: nat, req: Request, rx: Regex): (r: FilterRun)
    requires start <= |filters|
    ensures ValidRun(filters, start, req, rx, r)
    decreases |filters| - start
  {
    if start == |filters| then FilterRun(Continued(req), [])
    else
      var f := filters[start];
      if !PredicateHolds(f.pred, req.path, rx) then
        var rest := RunFilters(filters, start + 1, req, rx);
        ValidRunCons(filters, start, req, rx, Skipped(start, req), rest);
        FilterRun(rest.outcome, [Skipped(start, req)] + rest.steps)
      else
        match f.handler(req)
        case Reject(err) =>
          var r := FilterRun(Rejected(err), [Invoked(start, req, Reject(err))]);
          assert Obeys(filters, start, rx, r.steps, 0);
          r
        case Continue(next) =>
          var rest := RunFilters(filters, start + 1, next, rx);
          ValidRunCons(filters, start, req, rx, Invoked(start, req, Continue(next)), rest);
          FilterRun(rest.outcome, [Invoked(start, req, Continue(next))] + rest.steps)
  }

  /** Dropping the first step of a valid run that did not stop there leaves a valid run from the next filter. */
  lemma ValidRunTail(filters: seq<FilterInfo>, start: nat, req: Request, rx: Regex, run: FilterRun)
    requires start <= |filters|
    requires ValidRun(filters, start, req, rx, run)
    requires |run.steps| > 0 && !Stops(run.steps[0])
    ensures ValidRun(filters, start + 1, HandedOn(run.steps[0]), rx, FilterRun(run.outcome, run.steps[1..]))
  {
    var steps := run.steps;
    var tail := steps[1..];
    if |tail| > 0 {
      assert Linked(steps, 1);
    }
    var next := start + 1;
    forall k | 0 <= k < |tail| ensures Obeys(filters, next, rx, tail, k) {
      assert tail[k] == steps[k + 1];
      assert Obeys(filters, start, rx, steps, k + 1);
    }
    forall k | 0 < k < |tail| ensures Linked(tail, k) {
      assert tail[k] == steps[k + 1] && tail[k - 1] == steps[k];
      assert Linked(steps, k + 1);
    }
  }

  /**
    The discipline leaves no freedom: every run that follows it is the run
    `RunFilters` computes.
   */
  lemma {:induction false} ValidRunIsComputed(filters: seq<FilterInfo>, start: nat, req: Request, rx: Regex, run: FilterRun)
    requires start <= |filters|
    requires ValidRun(filters, start, req, rx, run)
    ensures run == RunFilters(filters, start, req, rx)
    decreases |filters| - start
  {
    var steps := run.steps;
    if |steps| > 0 {
      var first := steps[0];
      assert Obeys(filters, start, rx, steps, 0);
      if |steps| > 1 {
        assert Linked(steps, 1);
        ValidRunTail(filters, start, req, rx, run);
        ValidRunIsComputed(filters, start + 1, HandedOn(first), rx, FilterRun(run.outcome, steps[1..]));
        assert steps == [first] + steps[1..];
      } else if Stops(first) {
        assert run == FilterRun(Rejected(first.decision.err), [first]);
      } else {
        ValidRunTail(filters, start, req, rx, run);
        ValidRunIsComputed(filters, start + 1, HandedOn(first), rx, FilterRun(run.outcome, steps[1..]));
        assert steps == [first] + steps[1..];
      }
    }
  }

  /**
    A filter whose pattern does not compile never applies: the chain never
    invokes its handler, whatever the request.
   */
  lemma UncompilablePatternNeverInvoked(filters: seq<FilterInfo>, req: Request, rx: Regex, k: nat)
    requires k < |RunFilters(filters, 0, req, rx).steps|
    requires !rx.compiles(filters[k].pred.exp)
    ensures RunFilters(filters, 0, req, rx).steps[k].Skipped?
  {
    assert Obeys(filters, 0, rx, RunFilters(filters, 0, req, rx).steps, k);
  }

  /**
    A rejection ends the chain: the rejecting filter is the last one
    reached, so no later filter sees the request.
   */
  lemma RejectionIsLastStep(filters: seq<FilterInfo>, req: Request, rx: Regex, k: nat)
    requires k < |RunFilters(filters, 0, req, rx).steps|
    requires Stops(RunFilters(filters, 0, req, rx).steps[k])
    ensures k == |RunFilters(filters, 0, req, rx).steps| - 1
    ensures RunFilters(filters, 0, req, rx).outcome == Rejected(RunFilters(filters, 0, req, rx).steps[k].decision.err)
  {
    var steps := RunFilters(filters, 0, req, rx).steps;
    forall j | 0 <= j < |steps| - 1 ensures !Stops(steps[j]) {
      assert Linked(steps, j + 1);
    }
  }

  /**
    The loop as the Rust code writes it, with early return on rejection; it
    reaches the same outcome as the step-by-step definition.
   */
  method RunFilterTable(filters: seq<FilterInfo>, req: Request, rx: Regex) returns (outcome: ChainOutcome)
    ensures outcome == RunFilters(filters, 0, req, rx).outcome
  {
    var current := req;
    var i := 0;
    while i < |filters|
      invariant 0 <= i <= |filters|
      invariant RunFilters(filters, 0, req, rx).outcome == RunFilters(filters, i, current, rx).outcome
    {
      if PredicateHolds(filters[i].pred, current.path, rx) {
        match filters[i].handler(current)
        case Continue(next) =>
          current := next;
        case Reject(err) =>
          return Rejected(err);
      }
      i := i + 1;
    }
    return Continued(current);
  }

  /** A route fits when its method text equals the request's exactly and its template matches the path. */
  predicate RouteFits(route: RouteInfo, verb: string, path: string) {
    route.verb == verb && PatternMatch(route.path, path).Some?
  }

  /**
    What fitting means segment by segment: the method texts are equal, and
    template and path split on '/' into equally many segments with every
    literal template segment equal to its counterpart.
   */
  lemma RouteFitsBySegments(route: RouteInfo, verb: string, path: string)
    ensures RouteFits(route, verb, path) <==>
      route.verb == verb && SegmentsAgree(Split(route.path.inner, Separator), Split(path, Separator))
  {
  }

  /**
    `iter().find(..)` from position `from` on, for any predicate: the
    position of the first element that satisfies it, if any.
   */
  function FindFirst<T>(s: seq<T>, from: nat, p: T -> bool): (r: Option<nat>)
    requires from <= |s|
    ensures r.Some? ==> from <= r.value < |s| && p(s[r.value])
    ensures r.Some? ==> forall j :: from <= j < r.value ==> !p(s[j])
    ensures r.None? <==> forall j :: from <= j < |s| ==> !p(s[j])
    decreases |s| - from
  {
    if from == |s| then None
    else if p(s[from]) then Some(from)
    else FindFirst(s, from + 1, p)
  }

  /**
    `router_table.iter().find(..)` from position `from` on: the first route
    that fits, if any.
   */
  function FindRoute(routes: seq<RouteInfo>, from: nat, verb: string, path: string): (r: Option<nat>)
    requires from <= |routes|
    ensures r.Some? ==> from <= r.value < |routes| && RouteFits(routes[r.value], verb, path)
    ensures r.Some? ==> forall j :: from <= j < r.value ==> !RouteFits(routes[j], verb, path)
    ensures r.None? <==> forall j :: from <= j < |routes| ==> !RouteFits(routes[j], verb, path)
  {
    FindFirst(routes, from, route => RouteFits(route, verb, path))
  }

  /** The request as it reaches the server, before the framework wraps it. */
  datatype Incoming = Incoming(verb: string, path: string, query: Option<string>, headers: seq<Header>)

  /** The route handler called and the request it received. */
  datatype RouteCall = RouteCall(index: nat, req: Request)

  /** Everything one call does: the reply, the filter run, and the route handler call, if any. */
  datatype Dispatch = Dispatch(reply: Reply, filterRun: FilterRun, routed: Option<RouteCall>)

  const NotFoundStatus: int := 404
  const NotFoundBody: string := "not found!"

  /** The fixed answer when no route fits: 404 with body "not found!" and no headers. */
  function NotFound(): (r: Reply)
    ensures r.Ok? && r.response.status == NotFoundStatus && r.response.body == NotFoundBody
    ensures r.response.headers == []
  {
    Ok(Response(NotFoundStatus, [], NotFoundBody))
  }

  /**
    The answer to a rejection: the error's status, its body text and its
    headers, with no Content-Type added; a status the builder refuses is
    the unwrap's panic.
   */
  function RejectReply(err: ReturnError<string>): (r: Reply)
    ensures r.Ok? <==> ValidStatus(err.responseCode)
    ensures r.Ok? ==> r.response == Response(err.responseCode, err.headers, err.responseBody)
    ensures !r.Err?
  {
    BuildWithStatus(err.responseCode, err.headers, err.responseBody)
  }

  /**
    `Service::call`: wrap the incoming request, run the filter table, and
    then either answer the rejection, call the first fitting route's handler
    with the path parameters of its template, or answer 404. Routing uses
    the method and path of the request the last filter handed on.
   */
  function Call(filters: seq<FilterInfo>, routes: seq<RouteInfo>, incoming: Incoming, rx: Regex): (d: Dispatch)
    ensures var req := NewRequest(incoming.verb, incoming.path, incoming.query, incoming.headers);
      ValidRun(filters, 0, req, rx, d.filterRun)
    ensures d.filterRun.outcome.Rejected? ==>
      d.routed.None? && d.reply == RejectReply(d.filterRun.outcome.err)
    ensures d.filterRun.outcome.Continued? ==>
      var final := d.filterRun.outcome.req;
      && (d.routed.Some? <==> exists j :: 0 <= j < |routes| && RouteFits(routes[j], final.verb, final.path))
      && (d.routed.None? ==> d.reply == NotFound())
    ensures d.routed.Some? ==>
      var final := d.filterRun.outcome.req;
      var i := d.routed.value.index;
      && d.filterRun.outcome.Continued?
      && i < |routes|
      && RouteFits(routes[i], final.verb, final.path)
      && (forall j :: 0 <= j < i ==> !RouteFits(routes[j], final.verb, final.path))
      && d.routed.value.req == SetPathParams(final, PatternMatch(routes[i].path, final.path).value)
      && d.reply == routes[i].handler(d.routed.value.req)
  {
    var req := NewRequest(incoming.verb, incoming.path, incoming.query, incoming.headers);
    var run := RunFilters(filters, 0, req, rx);
    match run.outcome
    case Rejected(err) => Dispatch(RejectReply(err), run, None)
    case Continued(final) =>
      match FindRoute(routes, 0, final.verb, final.path)
      case None => Dispatch(NotFound(), run, None)
      case Some(i) =>
        var params := PatternMatch(routes[i].path, final.path);
        var handed := if params.Some? then SetPathParams(final, params.value) else final;
        Dispatch(routes[i].handler(handed), run, Some(RouteCall(i, handed)))
  }

  /**
    When no route handler resolves to `Err`, neither does the server: the
    reject reply and the 404 are a response or a panic, and otherwise the
    reply is a route handler's.
   */
  lemma CallNeverErr(filters: seq<FilterInfo>, routes: seq<RouteInfo>, incoming: Incoming, rx: Regex)
    requires forall i :: 0 <= i < |routes| ==> forall req :: !routes[i].handler(req).Err?
    ensures !Call(filters, routes, incoming, rx).reply.Err?
  {
    var d := Call(filters, routes, incoming, rx);
    if d.routed.Some? {
      assert d.reply == routes[d.routed.value.index].handler(d.routed.value.req);
    }
  }

  /**
    A filter that applies to the request and rejects it decides the reply
    alone: no route handler is called, whatever the routes.
   */
  lemma FirstFilterRejects(f: FilterInfo, routes: seq<RouteInfo>, incoming: Incoming, rx: Regex)
    requires PredicateHolds(f.pred, incoming.path, rx)
    requires f.handler(NewRequest(incoming.verb, incoming.path, incoming.query, incoming.headers)).Reject?
    ensures var err := f.handler(NewRequest(incoming.verb, incoming.path, incoming.query, incoming.headers)).err;
      Call([f], routes, incoming, rx) == Dispatch(RejectReply(err), FilterRun(Rejected(err),
        [Invoked(0, NewRequest(incoming.verb, incoming.path, incoming.query, incoming.headers), Reject(err))]), None)
  {
  }

  /**
    With no filters and one route "/<lit>/<seg>" whose second segment is a
    parameter, a request for "/<lit>/<value>" with the route's method reaches
    that route with exactly the parameter bound to `value` (for instance
    "/items/:id" and "/items/42").
   */
  lemma LiteralThenParamRouteBinds(verb: string, lit: string, seg: string, value: string,
                                   h: Request -> Reply, query: Option<string>, headers: seq<Header>, rx: Regex)
    requires Separator !in lit && Separator !in seg && Separator !in value
    requires !IsParam(lit) && IsParam(seg)
    ensures var template := [Separator] + lit + [Separator] + seg;
      var path := [Separator] + lit + [Separator] + value;
      var d := Call([], [RouteInfo(verb, Path(template), h)], Incoming(verb, path, query, headers), rx);
      && d.routed.Some?
      && d.routed.value.index == 0
      && d.routed.value.req.pathParams == map[ParamName(seg) := value]
  {
    var template := [Separator] + lit + [Separator] + seg;
    var path := [Separator] + lit + [Separator] + value;
    LiteralThenParam(lit, seg, value);
    var route := RouteInfo(verb, Path(template), h);
    var req := NewRequest(verb, path, query, headers);
    assert RunFilters([], 0, req, rx).outcome == Continued(req);
    assert RouteFits(route, verb, path);
    assert FindRoute([route], 0, verb, path) == Some(0);
  }
}
