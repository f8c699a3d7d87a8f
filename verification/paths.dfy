/**
  Route templates (`Path` in core/src/lib.rs) and the segment matcher that
  decides whether a request path fits a template and extracts its named
  parameters.
 */
module Paths {
  import opened Wrappers
  import opened Strings

  /** A route template such as "/items/:id", kept as its raw text. */
  datatype Path = Path(inner: string)

  const Separator: char := '/'

  /** A template segment that binds a parameter: it starts with ':'. */
  predicate IsParam(seg: string) {
    |seg| > 0 && seg[0] == ':'
  }

  /** The parameter name of a binding segment: everything after the ':'. */
  function ParamName(seg: string): string
    requires IsParam(seg)
  {
    seg[1..]
  }

  /**
    Template segments `ts` fit candidate segments `cs`: the counts are equal
    and every literal template segment equals its counterpart.
   */
  ghost predicate SegmentsAgree(ts: seq<string>, cs: seq<string>) {
    && |ts| == |cs|
    && forall i :: 0 <= i < |ts| && !IsParam(ts[i]) ==> ts[i] == cs[i]
  }

  /** The names bound by the parameter segments of `ts`. */
  ghost function ParamNames(ts: seq<string>): set<string> {
    set i | 0 <= i < |ts| && IsParam(ts[i]) :: ParamName(ts[i])
  }

  /** Segment `i` of `ts` binds a name that no later segment binds again. */
  ghost predicate LastBinder(ts: seq<string>, i: int)
    requires 0 <= i < |ts|
  {
    && IsParam(ts[i])
    && forall j :: i < j < |ts| && IsParam(ts[j]) ==> ParamName(ts[j]) != ParamName(ts[i])
  }

  /**
    The lockstep walk over template and candidate segments: both exhausted
    means success, one exhausted means failure, a parameter segment binds
    its name to the candidate segment (overwriting an earlier binding), and
    a literal segment must equal its counterpart.
   */
  function Walk(ts: seq<string>, cs: seq<string>, acc: map<string, string>): (r: Option<map<string, string>>)
    ensures r.Some? <==> SegmentsAgree(ts, cs)
    decreases |ts|
  {
    if |ts| == 0 && |cs| == 0 then Some(acc)
    else if |ts| == 0 || |cs| == 0 then None
    else if IsParam(ts[0]) then
      var r := Walk(ts[1..], cs[1..], acc[ParamName(ts[0]) := cs[0]]);
      assert SegmentsAgree(ts, cs) <==> SegmentsAgree(ts[1..], cs[1..]) by {
        if SegmentsAgree(ts[1..], cs[1..]) {
          forall i | 0 <= i < |ts| && !IsParam(ts[i]) ensures ts[i] == cs[i] {
            assert ts[i] == ts[1..][i - 1];
          }
        }
      }
      r
    else if ts[0] != cs[0] then None
    else
      var r := Walk(ts[1..], cs[1..], acc);
      assert SegmentsAgree(ts, cs) <==> SegmentsAgree(ts[1..], cs[1..]) by {
        if SegmentsAgree(ts[1..], cs[1..]) {
          forall i | 0 <= i < |ts| && !IsParam(ts[i]) ensures ts[i] == cs[i] {
            if i > 0 { assert ts[i] == ts[1..][i - 1]; }
          }
        }
      }
      r
  }

  lemma ParamNamesCons(ts: seq<string>)
    requires |ts| > 0
    ensures IsParam(ts[0]) ==> ParamNames(ts) == {ParamName(ts[0])} + ParamNames(ts[1..])
    ensures !IsParam(ts[0]) ==> ParamNames(ts) == ParamNames(ts[1..])
  {
    forall n | n in ParamNames(ts[1..]) ensures n in ParamNames(ts) {
      var i :| 0 <= i < |ts[1..]| && IsParam(ts[1..][i]) && ParamName(ts[1..][i]) == n;
      assert ts[i + 1] == ts[1..][i];
    }
    forall i | 0 < i < |ts| && IsParam(ts[i]) ensures ParamName(ts[i]) in ParamNames(ts[1..]) {
      assert ts[1..][i - 1] == ts[i];
    }
  }

  /**
    What a successful walk returns: exactly the names already in `acc` plus
    the names of the parameter segments, each parameter bound to the
    candidate segment at the position of its last occurrence, and every
    other entry of `acc` untouched.
   */
  lemma {:induction false} WalkBindings(ts: seq<string>, cs: seq<string>, acc: map<string, string>)
    requires Walk(ts, cs, acc).Some?
    ensures Walk(ts, cs, acc).value.Keys == acc.Keys + ParamNames(ts)
    ensures forall i :: 0 <= i < |ts| && LastBinder(ts, i) ==> Walk(ts, cs, acc).value[ParamName(ts[i])] == cs[i]
    ensures forall k :: k in acc && k !in ParamNames(ts) ==> Walk(ts, cs, acc).value[k] == acc[k]
    decreases |ts|
  {
    var m := Walk(ts, cs, acc).value;
    if |ts| > 0 {
      ParamNamesCons(ts);
      var acc' := if IsParam(ts[0]) then acc[ParamName(ts[0]) := cs[0]] else acc;
      assert m == Walk(ts[1..], cs[1..], acc').value;
      WalkBindings(ts[1..], cs[1..], acc');
      forall i | 0 <= i < |ts| && LastBinder(ts, i) ensures m[ParamName(ts[i])] == cs[i] {
        if i > 0 {
          assert ts[1..][i - 1] == ts[i];
          assert LastBinder(ts[1..], i - 1) by {
            forall j | i - 1 < j < |ts[1..]| && IsParam(ts[1..][j])
              ensures ParamName(ts[1..][j]) != ParamName(ts[1..][i - 1])
            {
              assert ts[1..][j] == ts[j + 1];
            }
          }
        } else {
          assert ParamName(ts[0]) !in ParamNames(ts[1..]);
        }
      }
    }
  }

  /**
    `Path::pattern_match`: split template and candidate on '/' and walk the
    two segment lists in lockstep. The result is present exactly when the
    segments agree, and then binds exactly the template's parameter names,
    each to the candidate segment at its last occurrence (a later repeat of
    a name overwrites an earlier one).
   */
  function PatternMatch(p: Path, other: string): (r: Option<map<string, string>>)
    ensures r.Some? <==> SegmentsAgree(Split(p.inner, Separator), Split(other, Separator))
    ensures r.Some? ==> r.value.Keys == ParamNames(Split(p.inner, Separator))
    ensures r.Some? ==>
      forall i :: 0 <= i < |Split(p.inner, Separator)| && LastBinder(Split(p.inner, Separator), i) ==>
        r.value[ParamName(Split(p.inner, Separator)[i])] == Split(other, Separator)[i]
  {
    var ts := Split(p.inner, Separator);
    var cs := Split(other, Separator);
    var r := Walk(ts, cs, map[]);
    if r.Some? then WalkBindings(ts, cs, map[]); r else r
  }

  /**
    `Path` equality (`PartialEq`): two paths are equal exactly when they
    display the same text, and equal paths hash alike under every hasher, as
    `Eq` and `Hash` must agree.
   */
  function SamePath(a: Path, b: Path): (same: bool)
    ensures same <==> Display(a) == Display(b)
    ensures same ==> forall hasher :: HashWith(a, hasher) == HashWith(b, hasher)
  {
    a.inner == b.inner
  }

  /** `Path`'s `Display`: the raw template text, from which `Path::new` rebuilds the same path. */
  function Display(p: Path): (s: string)
    ensures Path(s) == p
  {
    p.inner
  }

  /** `Path`'s `Hash`: the hasher sees exactly the text the path displays. */
  function HashWith(p: Path, hasher: string -> int): (h: int)
    ensures h == hasher(Display(p))
  {
    hasher(p.inner)
  }

  /**
    Equality, hashing and display look only at the raw template: equal
    paths hash alike under every hasher, display alike and match alike.
   */
  lemma SamePathIndistinguishable(a: Path, b: Path, hasher: string -> int, other: string)
    requires SamePath(a, b)
    ensures HashWith(a, hasher) == HashWith(b, hasher)
    ensures Display(a) == Display(b)
    ensures PatternMatch(a, other) == PatternMatch(b, other)
  {
  }

  /** Every template matches its own text. */
  lemma MatchesOwnText(p: Path)
    ensures PatternMatch(p, p.inner).Some?
  {
  }

  /**
    A template without parameter segments matches exactly its own text, and
    then binds nothing.
   */
  lemma LiteralTemplateMatchesOnlyItself(p: Path, other: string)
    requires forall i :: 0 <= i < |Split(p.inner, Separator)| ==> !IsParam(Split(p.inner, Separator)[i])
    ensures PatternMatch(p, other).Some? <==> other == p.inner
    ensures PatternMatch(p, other).Some? ==> PatternMatch(p, other).value == map[]
  {
    var ts := Split(p.inner, Separator);
    var cs := Split(other, Separator);
    if PatternMatch(p, other).Some? {
      assert ts == cs;
      SplitInjective(p.inner, other, Separator);
      assert ParamNames(ts) == {};
    }
  }

  lemma SplitExamplesA()
    ensures Split("/a/", Separator) == ["", "a", ""]
    ensures Split("/a", Separator) == ["", "a"]
  {
    SplitThree("", "a", "", Separator);
    assert "/a/" == "" + [Separator] + ("a" + [Separator] + "");
    SplitCons("", Separator, "a");
    assert "/a" == "" + [Separator] + "a";
  }

  lemma SplitExamplesB()
    ensures Split("/a/:id", Separator) == ["", "a", ":id"]
    ensures Split("/a/:b", Separator) == ["", "a", ":b"]
  {
    SplitThree("", "a", ":id", Separator);
    assert "/a/:id" == "" + [Separator] + ("a" + [Separator] + ":id");
    SplitThree("", "a", ":b", Separator);
    assert "/a/:b" == "" + [Separator] + ("a" + [Separator] + ":b");
  }

  /**
    A parameter binds even an empty candidate segment ("/a/:id" against
    "/a/" binds id to ""), while a missing segment fails ("/a/:b" against
    "/a").
   */
  lemma EmptySegmentStillBinds()
    ensures PatternMatch(Path("/a/:id"), "/a/") == Some(map["id" := ""])
    ensures PatternMatch(Path("/a/:b"), "/a") == None
  {
    SplitExamplesA();
    SplitExamplesB();
    var ts: seq<string> := ["", "a", ":id"];
    var cs: seq<string> := ["", "a", ""];
    assert ParamName(":id") == "id";
    assert Walk(ts[2..], cs[2..], map[]) == Walk([], [], map["id" := ""]);
    assert Walk(ts[1..], cs[1..], map[]) == Walk(ts[2..], cs[2..], map[]);
    assert Walk(ts, cs, map[]) == Walk(ts[1..], cs[1..], map[]);
  }

  /** "/x/y" splits into "", x and y when neither piece holds a separator. */
  lemma SplitTwoSegments(x: string, y: string)
    requires Separator !in x && Separator !in y
    ensures Split([Separator] + x + [Separator] + y, Separator) == ["", x, y]
  {
    SplitThree("", x, y, Separator);
    assert [Separator] + x + [Separator] + y == "" + [Separator] + (x + [Separator] + y);
  }

  /**
    A template of one literal segment and one parameter segment, such as
    "/items/:id", matches "/<literal>/<value>" and binds the parameter's name
    to the value, whatever separator-free value it is.
   */
  lemma LiteralThenParam(lit: string, seg: string, value: string)
    requires Separator !in lit && Separator !in seg && Separator !in value
    requires !IsParam(lit) && IsParam(seg)
    ensures PatternMatch(Path([Separator] + lit + [Separator] + seg), [Separator] + lit + [Separator] + value)
         == Some(map[ParamName(seg) := value])
  {
    SplitTwoSegments(lit, seg);
    SplitTwoSegments(lit, value);
    var ts: seq<string> := ["", lit, seg];
    var cs: seq<string> := ["", lit, value];
    assert Walk(ts[2..], cs[2..], map[]) == Walk([], [], map[ParamName(seg) := value]);
    assert Walk(ts[1..], cs[1..], map[]) == Walk(ts[2..], cs[2..], map[]);
    assert Walk(ts, cs, map[]) == Walk(ts[1..], cs[1..], map[]);
  }

  /**
    A name repeated in the template keeps the later segment's value: "/:x/:x"
    against "/1/2" binds x to "2".
   */
  lemma RepeatedNameKeepsLater(seg: string, first: string, second: string)
    requires Separator !in seg && Separator !in first && Separator !in second
    requires IsParam(seg)
    ensures PatternMatch(Path([Separator] + seg + [Separator] + seg), [Separator] + first + [Separator] + second)
         == Some(map[ParamName(seg) := second])
  {
    SplitTwoSegments(seg, seg);
    SplitTwoSegments(first, second);
    var ts: seq<string> := ["", seg, seg];
    var cs: seq<string> := ["", first, second];
    var n := ParamName(seg);
    assert Walk(ts[2..], cs[2..], map[n := first]) == Walk([], [], map[n := first][n := second]);
    assert Walk(ts[1..], cs[1..], map[]) == Walk(ts[2..], cs[2..], map[n := first]);
    assert Walk(ts, cs, map[]) == Walk(ts[1..], cs[1..], map[]);
    assert map[n := first][n := second] == map[n := second];
  }
}
