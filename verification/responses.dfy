/**
  What handlers and filters produce: the typed error of core/src/error.rs,
  the response value, and the outcome of a handler future, which may also be
  a panic when the Rust code unwraps a failed builder or serializer.
 */
module Responses {
  import opened Requests

  /** A status code as Rust's `u16` holds it. */
  type U16 = x: int | 0 <= x < 0x1_0000

  /** `ReturnError<B>`: a status, a body to render, and extra headers. */
  datatype ReturnError<B> = ReturnError(responseCode: U16, responseBody: B, headers: seq<Header>)

  /** `ReturnError::new`: the given status and body, starting with no headers. */
  function NewReturnError<B>(responseCode: U16, responseBody: B): (e: ReturnError<B>)
    ensures e.responseCode == responseCode && e.responseBody == responseBody
    ensures e.headers == []
  {
    ReturnError(responseCode, responseBody, [])
  }

  /** A finished HTTP response: status, headers in insertion order, and body text. */
  datatype Response = Response(status: int, headers: seq<Header>, body: string)

  /** `hyper::Error`, which no modelled code path constructs. */
  datatype HyperError = HyperError(reason: string)

  /**
    What a handler future resolves to: `Ok(response)`, `Err(hyper::Error)`,
    or a panic raised while building the response.
   */
  datatype Reply = Ok(response: Response) | Err(error: HyperError) | Panic(message: string)

  /** The response builder's status when none is set. */
  const DefaultStatus: int := 200

  /** `StatusCode::from_u16` accepts exactly the three-digit codes. */
  predicate ValidStatus(code: int) {
    100 <= code <= 999
  }

  /**
    `builder.status(code) ... .body(b).unwrap()`: the response when the code
    is a valid status, and the unwrap's panic otherwise.
   */
  function BuildWithStatus(code: U16, headers: seq<Header>, body: string): (r: Reply)
    ensures r.Ok? <==> ValidStatus(code)
    ensures r.Ok? ==> r.response.status == code && r.response.headers == headers && r.response.body == body
    ensures !r.Err?
  {
    if ValidStatus(code) then Ok(Response(code, headers, body))
    else Panic("called `Result::unwrap()` on an `Err` value: InvalidStatusCode")
  }
}
