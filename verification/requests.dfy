/**
  The per-request value handed through the pipeline (`HttpRequest` in
  core/src/request.rs): the parts of the underlying HTTP request that the
  dispatcher reads, plus the path-parameter and attribute maps the framework
  adds, and the query-string parser handlers use.
 */
module Requests {
  import opened Wrappers
  import opened Strings

  /** One header as a name/value pair; a header map is a sequence of them. */
  type Header = (string, string)

  /**
    `verb` (the HTTP method), `path`, `query` and `headers` come from the wrapped HTTP request
    (`query` is absent when the URI has none); `pathParams` and `attributes`
    belong to the framework.
   */
  datatype Request = Request(
    verb: string,
    path: string,
    query: Option<string>,
    headers: seq<Header>,
    pathParams: map<string, string>,
    attributes: map<string, string>)

  /** `HttpRequest::new`: wrap an incoming request with no path parameters and no attributes yet. */
  function NewRequest(verb: string, path: string, query: Option<string>, headers: seq<Header>): (r: Request)
    ensures r.pathParams == map[] && r.attributes == map[]
    ensures r.verb == verb && r.path == path && r.query == query && r.headers == headers
  {
    Request(verb, path, query, headers, map[], map[])
  }

  /**
    `set_path_params`: the new map replaces the old one outright (no key of
    the old map survives unless the new map has it) and nothing else changes.
   */
  function SetPathParams(req: Request, params: map<string, string>): (r: Request)
    ensures r.pathParams == params
    ensures forall k :: k in req.pathParams && k !in params ==> k !in r.pathParams
    ensures r.verb == req.verb && r.path == req.path && r.query == req.query
    ensures r.headers == req.headers && r.attributes == req.attributes
  {
    req.(pathParams := params)
  }

  /**
    `attributes_mut().insert(k, v)`, the way filters record facts for later
    filters and handlers: `k` now maps to `v`, every other attribute is kept,
    and nothing outside the attributes changes.
   */
  function InsertAttribute(req: Request, k: string, v: string): (r: Request)
    ensures r.attributes.Keys == req.attributes.Keys + {k}
    ensures r.attributes[k] == v
    ensures forall k' :: k' in req.attributes && k' != k ==> r.attributes[k'] == req.attributes[k']
    ensures r.verb == req.verb && r.path == req.path && r.query == req.query
    ensures r.headers == req.headers && r.pathParams == req.pathParams
  {
    req.(attributes := req.attributes[k := v])
  }

  const PairSeparator: char := '&'
  const KeyValueSeparator: char := '='

  /** The `&`-separated pieces of the query; an absent query counts as the empty text. */
  function QueryPieces(req: Request): seq<string> {
    Split(req.query.GetOr(""), PairSeparator)
  }

  /** The key of one query piece: its text before the first '=' (all of it when there is none). */
  function QueryKey(kv: string): (k: string)
    ensures k <= kv && KeyValueSeparator !in k
    ensures |k| < |kv| ==> kv[|k|] == KeyValueSeparator
    ensures KeyValueSeparator !in kv ==> k == kv
  {
    Split(kv, KeyValueSeparator)[0]
  }

  /**
    The value of one query piece: the text between the first and the second
    '=' (up to the end when there is no second one); empty when the piece has
    no '=' at all. Whatever follows a second '=' is dropped.
   */
  function QueryValue(kv: string): (v: string)
    ensures KeyValueSeparator !in v
    ensures KeyValueSeparator !in kv ==> v == ""
    ensures KeyValueSeparator in kv ==>
      var rest := kv[|QueryKey(kv)| + 1..];
      v <= rest && (|v| < |rest| ==> rest[|v|] == KeyValueSeparator)
  {
    var parts := Split(kv, KeyValueSeparator);
    if |parts| >= 2 then
      SplitTail(kv, KeyValueSeparator);
      assert parts[1] == Split(kv[|parts[0]| + 1..], KeyValueSeparator)[0];
      parts[1]
    else ""
  }

  /** The keys of `pairs`. */
  ghost function KeysOf(pairs: seq<(string, string)>): set<string> {
    set i | 0 <= i < |pairs| :: pairs[i].0
  }

  /** No pair after position `i` has the key of pair `i`. */
  ghost predicate LastForKey(pairs: seq<(string, string)>, i: int)
    requires 0 <= i < |pairs|
  {
    forall j :: i < j < |pairs| ==> pairs[j].0 != pairs[i].0
  }

  /**
    Collecting pairs into a map as `HashMap::from_iter` does, inserting them
    in order: the keys are exactly the pairs' keys.
   */
  function Collect(pairs: seq<(string, string)>): (m: map<string, string>)
    ensures m.Keys == KeysOf(pairs)
  {
    if |pairs| == 0 then map[]
    else
      var init := pairs[..|pairs| - 1];
      var last := pairs[|pairs| - 1];
      var m := Collect(init)[last.0 := last.1];
      assert m.Keys == KeysOf(pairs) by {
        forall k | k in m.Keys ensures k in KeysOf(pairs) {
          if k != last.0 {
            var i :| 0 <= i < |init| && init[i].0 == k;
            assert pairs[i].0 == k;
          }
        }
        forall k | k in KeysOf(pairs) ensures k in m.Keys {
          var i :| 0 <= i < |pairs| && pairs[i].0 == k;
          if i < |init| { assert init[i].0 == k; }
        }
      }
      m
  }

  /** With repeated keys, the value of the last pair with that key is the one kept. */
  lemma {:induction false} CollectLastWins(pairs: seq<(string, string)>, i: int)
    requires 0 <= i < |pairs| && LastForKey(pairs, i)
    ensures pairs[i].0 in Collect(pairs) && Collect(pairs)[pairs[i].0] == pairs[i].1
  {
    var init := pairs[..|pairs| - 1];
    if i < |pairs| - 1 {
      assert init[i] == pairs[i];
      assert LastForKey(init, i) by {
        forall j | i < j < |init| ensures init[j].0 != init[i].0 {
          assert init[j] == pairs[j];
        }
      }
      CollectLastWins(init, i);
    }
  }

  /** Every entry of the collected map is one of the pairs. */
  lemma {:induction false} CollectEntryFromPair(pairs: seq<(string, string)>, k: string)
    requires k in Collect(pairs)
    ensures exists i :: 0 <= i < |pairs| && pairs[i] == (k, Collect(pairs)[k])
  {
    var init := pairs[..|pairs| - 1];
    var last := pairs[|pairs| - 1];
    if k != last.0 {
      CollectEntryFromPair(init, k);
      var i :| 0 <= i < |init| && init[i] == (k, Collect(init)[k]);
      assert pairs[i] == init[i];
    } else {
      assert pairs[|pairs| - 1] == (k, Collect(pairs)[k]);
    }
  }

  /** The parsed query: one pair per `&`-separated piece. */
  function QueryPairs(req: Request): (ps: seq<(string, string)>)
    ensures |ps| == |QueryPieces(req)|
    ensures forall i :: 0 <= i < |ps| ==> ps[i] == (QueryKey(QueryPieces(req)[i]), QueryValue(QueryPieces(req)[i]))
  {
    var pieces := QueryPieces(req);
    seq(|pieces|, i requires 0 <= i < |pieces| => (QueryKey(pieces[i]), QueryValue(pieces[i])))
  }

  /**
    `url_params`: split the query on '&', each piece into key and value as
    above; the keys are exactly the pieces' keys, and a key given several
    times keeps the value of its last piece.
   */
  function UrlParams(req: Request): (m: map<string, string>)
    ensures m.Keys == set i | 0 <= i < |QueryPieces(req)| :: QueryKey(QueryPieces(req)[i])
    ensures forall i | 0 <= i < |QueryPieces(req)| && LastForKey(QueryPairs(req), i) ::
      m[QueryKey(QueryPieces(req)[i])] == QueryValue(QueryPieces(req)[i])
  {
    var ps := QueryPairs(req);
    assert KeysOf(ps) == set i | 0 <= i < |QueryPieces(req)| :: QueryKey(QueryPieces(req)[i]);
    assert forall i | 0 <= i < |ps| && LastForKey(ps, i) :: Collect(ps)[ps[i].0] == ps[i].1 by {
      forall i | 0 <= i < |ps| && LastForKey(ps, i)
        ensures ps[i].0 in Collect(ps) && Collect(ps)[ps[i].0] == ps[i].1
      {
        CollectLastWins(ps, i);
      }
    }
    Collect(ps)
  }

  /** An absent or empty query still yields one entry, the empty key with the empty value. */
  lemma EmptyQueryYieldsEmptyPair(req: Request)
    requires req.query == None || req.query == Some("")
    ensures UrlParams(req) == map["" := ""]
  {
    assert QueryPieces(req) == [""];
    assert QueryPairs(req) == [("", "")];
  }

  /**
    No decoding happens: every key and every value of the parsed query is a
    contiguous piece of the raw query text.
   */
  lemma UrlParamsAreRawSubstrings(req: Request, k: string)
    requires k in UrlParams(req)
    ensures IsInfix(k, req.query.GetOr("")) && IsInfix(UrlParams(req)[k], req.query.GetOr(""))
  {
    var q := req.query.GetOr("");
    var ps := QueryPairs(req);
    CollectEntryFromPair(ps, k);
    var i :| 0 <= i < |ps| && ps[i] == (k, UrlParams(req)[k]);
    var kv := QueryPieces(req)[i];
    PieceEntryIsInfix(kv, q, i);
  }

  lemma PieceEntryIsInfix(kv: string, q: string, i: nat)
    requires i < |Split(q, PairSeparator)| && kv == Split(q, PairSeparator)[i]
    ensures IsInfix(QueryKey(kv), q) && IsInfix(QueryValue(kv), q)
  {
    var k := QueryKey(kv);
    var v := QueryValue(kv);
    SplitPieceIsInfix(q, PairSeparator, i);
    PrefixIsInfix(k, kv);
    InfixTransitive(k, kv, q);
    if KeyValueSeparator in kv {
      var rest := kv[|k| + 1..];
      PrefixIsInfix(v, rest);
      SuffixIsInfix(kv, |k| + 1);
      InfixTransitive(v, rest, kv);
    } else {
      assert kv[0..0] == v;
    }
    InfixTransitive(v, kv, q);
  }
}
