# argos request dispatch, modelled in Dafny

This project models the request-dispatch core of the argos Rust HTTP
framework:

- the route template matcher (`Path::pattern_match`);
- the per-request pipeline of `Service::call`:
  - the ordered filter chain, with its path-pattern predicates and `Continune`/`Reject` decisions;
  - first-match route resolution;
  - path-parameter injection;
  - the reject response and the fixed 404;
- the request record and its query-string parser (`HttpRequest::url_params`);
- what the `#[route]`, `#[filter]` and `#[register]` attributes generate:
  - the attribute argument grammars;
  - formatter-dependent response shaping in generated route handlers;
  - route and filter registration, where filters are kept stably sorted by order;
  - `validate_item`.

Everything is pure:
- Handlers, regex compilation and matching, serde_json and `Display` are function values passed in.
- The global route and filter tables are explicit sequences.
- A panic in argos (an `unwrap` of a failed builder or serializer, `Predicate::from_str` on an unknown kind, `validate_item`) is an explicit `Panic` reply or `Failure` result.

Modules:

| file | module | models |
|---|---|---|
| wrappers.dfy | `Wrappers` | `Option` and `Result` |
| strings.dfy | `Strings` | Rust `str::split` on one character, and its inverse `Join` |
| paths.dfy | `Paths` | `Path`: pattern matching, equality, hash, display |
| requests.dfy | `Requests` | `HttpRequest`: construction, path params, attributes, `url_params` |
| responses.dfy | `Responses` | `ReturnError`, responses, and the response builder's status check |
| tables.dfy | `Tables` | `Chain`, `Predicate`, `FilterInfo`, `RouteInfo` |
| server.dfy | `Server` | `Service::call` |
| registry.dfy | `Registry` | route and filter registration; the stable sort by order |
| attribute_parse.dfy | `AttributeParse` | the `#[route]` and `#[filter]` argument grammars |
| codegen.dfy | `Codegen` | generated route handlers, table entries from attributes, `validate_item` |

A parameter segment of a template matches any candidate segment, the
empty one included: `Paths.EmptySegmentStillBinds` shows "/a/:id" against
"/a/" binding id to "".

## Model

| member | source | states |
|---|---|---|
| Strings.Split | core/src/lib.rs:32-33 | n separators give n + 1 pieces; no piece holds the separator; a single piece exactly when the separator is absent, and it is then the whole text; the first piece is the text before the first separator |
| Strings.JoinSplit | core/src/lib.rs:32-33 | joining the pieces with the separator gives the text back, so splitting loses nothing |
| Strings.SplitInjective | core/src/lib.rs:32-33 | two texts with the same pieces are the same text |
| Strings.SplitTail | core/src/request.rs:60-62 | the pieces after the first are the pieces of the text after the first separator |
| Strings.SplitPieceIsInfix | core/src/request.rs:59-64 | every piece is a contiguous substring of the input |
| Strings.SplitCons | core/src/lib.rs:32-33 | a separator-free head followed by a separator splits off as the first piece |
| Paths.Walk | core/src/lib.rs:34-50 | the lockstep walk succeeds exactly when the segment counts agree and every literal template segment equals its counterpart |
| Paths.WalkBindings | core/src/lib.rs:45-46 | a successful walk binds exactly the earlier names plus the template's parameter names, each to the candidate segment at its last occurrence, and keeps all other entries |
| Paths.PatternMatch | core/src/lib.rs:30-52 | Some exactly when template and candidate split on '/' into equally many segments and literal segments agree; keys are exactly the parameter names; each bound to the candidate segment at the name's last position |
| Paths.SamePath | core/src/lib.rs:55-67 | two paths are equal exactly when they display the same text, and equal paths hash alike under every hasher |
| Paths.Display | core/src/lib.rs:69-73 | the displayed text rebuilds the same path |
| Paths.HashWith | core/src/lib.rs:63-67 | the hasher sees exactly the text the path displays |
| Paths.SamePathIndistinguishable | core/src/lib.rs:55-73 | paths with the same raw text hash alike under any hasher, display alike and match alike |
| Paths.MatchesOwnText | core/src/lib.rs:45-51 | every template matches its own text |
| Paths.LiteralTemplateMatchesOnlyItself | core/src/lib.rs:45-51 | a template without parameter segments matches exactly its own text, and then with an empty map |
| Paths.EmptySegmentStillBinds | core/src/lib.rs:37-46 | "/a/:id" against "/a/" binds id to ""; "/a/:b" against "/a" does not match |
| Paths.LiteralThenParam | core/src/lib.rs:30-52 | "/lit/:name" against "/lit/value" binds exactly name to value, for every separator-free literal and value |
| Paths.RepeatedNameKeepsLater | core/src/lib.rs:46 | a parameter name used twice ("/:x/:x" against "/1/2") keeps the later segment's value |
| Requests.NewRequest | core/src/request.rs:26-32 | a new request carries the incoming method, path, query and headers, with empty path params and empty attributes |
| Requests.SetPathParams | core/src/request.rs:34-36 | the path params become exactly the given map; no old key survives unless the new map has it; nothing else changes |
| Requests.InsertAttribute | core/src/request.rs:71-73 | inserting an attribute adds or overwrites that key only and changes nothing outside the attributes |
| Requests.QueryKey | core/src/request.rs:60-61 | a key is the prefix of the piece before its first '=', and holds no '=' |
| Requests.QueryValue | core/src/request.rs:60-62 | a value is the text between the first and the second '=', or empty when the piece has no '='; it holds no '=' |
| Requests.Collect | core/src/request.rs:63-64 | collecting pairs into a map gives exactly the keys of the pairs |
| Requests.CollectLastWins | core/src/request.rs:59-64 | with repeated keys, the map holds the value of the key's last pair |
| Requests.UrlParams | core/src/request.rs:58-65 | the map's keys are exactly the keys of the '&'-separated pieces of the query, an absent query read as ""; a key given several times holds its last piece's value |
| Requests.EmptyQueryYieldsEmptyPair | core/src/request.rs:59-63 | an absent or empty query yields the single entry "" to "" |
| Requests.UrlParamsAreRawSubstrings | core/src/request.rs:59-64 | every key and value is a contiguous substring of the query, with no decoding |
| Responses.NewReturnError | core/src/error.rs:15-22 | a new error carries the given status and body and no headers |
| Responses.BuildWithStatus | core/src/server.rs:68-70 | the builder yields a response with the given status, headers and body exactly when the status is a valid three-digit code; otherwise the unwrap panics; never a hyper error |
| Tables.PredicateFromStr | core/src/lib.rs:131-138 | kind "path_pattern" yields a path pattern over the expression; every other kind is a panic naming the kind |
| Server.PredicateHolds | core/src/server.rs:33-44 | a pattern that does not compile never applies; a compiled one applies exactly when it matches the path |
| Server.RunFilters | core/src/server.rs:29-74 | the computed run is a valid filter run: filters visited in table order; one whose predicate fails is skipped and passes the request on unchanged; an invoked one sees the current request; Continue hands on exactly its request; Reject ends the run |
| Server.ValidRunIsComputed | core/src/server.rs:29-74 | any run that obeys those rules is the computed one, so the rules fix the chain's behaviour |
| Server.UncompilablePatternNeverInvoked | core/src/server.rs:33-42 | a filter whose pattern does not compile is never invoked |
| Server.RejectionIsLastStep | core/src/server.rs:59-72 | a rejection is the last step of the run; no later filter runs |
| Server.RunFilterTable | core/src/server.rs:29-74 | the loop over the filter table ends with the same outcome as the chain's definition |
| Server.RouteFitsBySegments | core/src/server.rs:81-83 | a route fits exactly when its method text equals the request's and template and path split on '/' into equally many segments, every literal template segment equal to its counterpart |
| Server.FindRoute | core/src/server.rs:81-85 | the chosen route is the first in table order whose method equals the request's exactly and whose template matches the path; None exactly when no route fits |
| Server.CallNeverErr | core/src/server.rs:59-101 | when no route handler resolves to `Err`, no call does: the reject reply and the 404 are a response or a panic |
| Server.NotFound | core/src/server.rs:95-98 | no route gives status 404, body "not found!" and no headers |
| Server.RejectReply | core/src/server.rs:63-71 | a rejection answers with the error's status, body text and headers, with no Content-Type added; an invalid status panics |
| Server.Call | core/src/server.rs:20-103 | the filter run is valid; a rejection routes nowhere and answers the reject reply; otherwise a route is called exactly when one fits the method and path left by the last filter; the first fitting route gets that request with its path params replaced by the match; its reply is the handler's; otherwise 404 |
| Server.FirstFilterRejects | core/src/server.rs:59-72 | a single applicable filter that rejects decides the reply alone and no route handler is called |
| Server.LiteralThenParamRouteBinds | core/src/server.rs:76-94 | with no filters, one route "/lit/:name" receives "/lit/value" with path params exactly {name: value} |
| Registry.RegisterRoute | macros/src/lib.rs:290-297 | registering a route appends it and keeps every earlier entry in place |
| Registry.RegisterRouteKeepsEarlierWinner | macros/src/lib.rs:290-297 | after registering a route, a request an earlier route served is still served by it; otherwise the new route serves it exactly when it fits |
| Registry.InsertByOrder | macros/src/lib.rs:348-356 | a sorted table with one filter put at its insertion position stays sorted and gains exactly that filter |
| Registry.InsertByOrderContents | macros/src/lib.rs:348-356 | inserting puts the new filter after every filter with its key, and leaves each other key's filters unchanged |
| Registry.SortByOrder | macros/src/lib.rs:356 | the sorted table is ordered by key and is a permutation of the input |
| Registry.SortByOrderStable | macros/src/lib.rs:356 | sorting keeps the relative order of filters with equal keys |
| Registry.SortedByKeysUnique | macros/src/lib.rs:356 | two sorted tables with the same filters per key, in the same order, are equal, so any stable sort gives this result |
| Registry.SortSortedIsIdentity | macros/src/lib.rs:356 | sorting a sorted table leaves it unchanged |
| Registry.RegisterFilter | macros/src/lib.rs:348-356 | registering a filter (push, then stable sort) leaves a sorted table holding exactly the old filters and the new one |
| Registry.RegisterFilterInserts | macros/src/lib.rs:348-356 | on a sorted table, registration inserts the filter after all filters whose key is at most its own and changes nothing else |
| Registry.RegisterFilterFromAttribute | macros/src/lib.rs:348-356 | registration from attribute arguments panics exactly for an unsupported predicate kind, and otherwise registers the path-pattern filter |
| Registry.RegisterAll | macros/src/lib.rs:348-356 | registering filters one by one, each a push followed by a stable sort, gives the single stable sort of the whole registration sequence |
| Registry.RegisterAllPermutes | macros/src/lib.rs:348-356 | the final table holds exactly the registered filters, with equal keys in registration order |
| AttributeParse.ParseRoute | macros/src/parse.rs:13-43 | a route attribute is accepted exactly when its tokens are a listed method, a comma, `path = "lit"`, a comma and `formatter = "json"/"text"/"html"`; the result holds exactly that method and the two literals |
| AttributeParse.RouteRejectsUnknownMethod | macros/src/parse.rs:14-19 | a method identifier outside GET, POST, OPTIONS, HEAD, DELETE, PUT, TRACE, CONNECT, PATCH, compared case-sensitively, fails with "expected http method" |
| AttributeParse.RouteNeedsPathKey | macros/src/parse.rs:20-26 | after the method and comma, anything but `path` followed by `=` fails with "expected path" |
| AttributeParse.RouteNeedsFormatterKey | macros/src/parse.rs:27-33 | after the path literal and comma, anything but `formatter` followed by `=` fails with "expected formatter" |
| AttributeParse.RouteRejectsUnknownFormatter | macros/src/parse.rs:34-37 | a formatter literal other than json, text, html fails with "formatter only support json, text, html" |
| AttributeParse.RouteRoundTrip | macros/src/parse.rs:38-42 | printing a valid route attribute and parsing it back gives the attribute, whatever follows |
| AttributeParse.RouteParsedIsPrinted | macros/src/parse.rs:38-42 | whatever parses is valid and begins with the printed form of its result |
| AttributeParse.ParseFilter | macros/src/parse.rs:55-76 | a filter attribute is accepted exactly when its tokens are `path_pattern = "lit", order = N`; the result holds that kind, literal and number |
| AttributeParse.FilterNeedsPathPatternKey | macros/src/parse.rs:56-75 | anything but `path_pattern` followed by `=` at the start fails with "expected path_pattern" |
| AttributeParse.FilterNeedsOrderKey | macros/src/parse.rs:60-72 | after the pattern literal and comma, anything but `order` followed by `=` fails with "expected order" |
| AttributeParse.FilterRoundTrip | macros/src/parse.rs:65-69 | printing a valid filter attribute and parsing it back gives the attribute, whatever follows |
| AttributeParse.FilterParsedIsPrinted | macros/src/parse.rs:65-69 | whatever parses is valid and begins with the printed form of its result |
| Codegen.ContentTypeFor | macros/src/lib.rs:187-283 | json gives application/json, text gives text/plain, any other formatter text/html, each exactly |
| Codegen.GeneratedReply | macros/src/lib.rs:187-283 | a success gets status 200, only the Content-Type header and the rendered data; an error gets its status, its headers followed by Content-Type, and its rendered body; a failed serialization or invalid status panics; never `Err` |
| Codegen.GeneratedHandler | macros/src/lib.rs:187-283 | for every request the generated handler never resolves to `Err`; any response it gives ends with the formatter's Content-Type header; a success is answered with status 200 and that header alone, an error with its own status |
| Codegen.GeneratedRoutesNeverErr | macros/src/lib.rs:187-297 | a server whose routes are all registered by `#[route]` never answers a request with `Err` |
| Codegen.Render | macros/src/lib.rs:187-283 | json renders with the serializer, which may fail; every other formatter renders with `Display`, which always yields text |
| Codegen.TextAndHtmlDifferOnlyInContentType | macros/src/lib.rs:221-283 | text and html give the same status and body and the same headers except the final Content-Type |
| Codegen.FreshErrorHasOnlyContentType | macros/src/lib.rs:203-212 | an error made by `ReturnError::new` is answered with its status and the Content-Type header alone |
| Codegen.RouteEntry | macros/src/lib.rs:291-296 | the registered route carries the attribute's method text, path template and the handler |
| Codegen.FilterEntry | macros/src/lib.rs:348-355 | the filter entry panics exactly for an unsupported predicate kind, and otherwise is the path-pattern filter with the attribute's order |
| Codegen.ParsedFilterEntryNeverPanics | macros/src/lib.rs:316-319 | an attribute the filter grammar accepted always yields a path-pattern entry |
| Codegen.ValidateItem | macros/src/lib.rs:366-384 | a function passes exactly when it has no visibility modifier, no parameters and no return type; each failure names the attribute, checked in that order |
| Codegen.GeneratedRegistrationPasses | macros/src/lib.rs:287-290 | the generated `fn register_<name>()` passes the check of `#[register]` |

## Left out

- Network I/O, TLS, the accept loop, HTTP/1 and HTTP/2 serving, and `tokio` scheduling, including the bridging of filter futures with `block_in_place`. These are I/O and concurrency. Handlers are pure functions of the request.
- Regex compilation and matching, serde_json serialization and `Display` formatting. They are foreign libraries, passed in as function values.
- The `RwLock`/`lazy_static` global tables. They become explicit sequences. Lock poisoning after a panic during registration is not modelled.
- The order in which the linker runs the registration constructors. It is platform-defined, so `Registry.RegisterAll` is stated for any registration sequence.
- The `#[register]` constructor emission and the `quote!` token output. This is code generation, not behaviour.
- `HeaderMap` internals. Names are case-sensitive text here, and a header map is a sequence of name/value pairs.
  - `Server.RejectReply`: copies the error's headers as they are. The Rust code `insert`s them one by one, so there repeated names collapse to one entry.
  - `Codegen.GeneratedReply`: appends the Content-Type header after the error's headers, as `.header` does. It does not model how `insert` collapses repeated names among the error's own headers.
- syn's own checks:
  - that the whole attribute input is consumed, so trailing tokens are not looked at;
  - that an identifier is not a keyword;
  - Rust's type check that the order literal fits `u32`, which `Codegen.FilterEntry` takes as a precondition.
- The exact wording of syn's "expected ..." errors. They are represented by the token kind that was expected.
- The text of a panic raised by an `unwrap`. Only the fact of the panic is modelled.
- The example binaries and the `println!` logging.
