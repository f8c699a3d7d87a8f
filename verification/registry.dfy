/**
  The global route and filter tables as the generated registration functions
  of macros/src/lib.rs fill them: a route is pushed at the end of the route
  table; a filter is pushed and the whole filter table is then stably sorted
  by order key (`sort_by` on `order().cmp(..)`).

  The stable sort is modelled by insertion sort, which is stable; the lemmas
  below show it is the only sorted rearrangement that keeps the relative
  order of filters with equal keys, so any stable sort yields the same table.
 */
module Registry {
  import opened Wrappers
  import opened Requests
  import opened Tables
  import opened Server

  // ---------------------------------------------------------------- routes

  /** Route registration: push onto the end of the table. */
  function RegisterRoute(table: seq<RouteInfo>, route: RouteInfo): (r: seq<RouteInfo>)
    ensures |r| == |table| + 1
    ensures r[..|table|] == table && r[|table|] == route
  {
    table + [route]
  }

  /**
    Registering a route never changes which route serves a request that an
    earlier route already serves; a request no earlier route served goes to
    the new route exactly when the new route fits it.
   */
  lemma {:induction false} RegisterRouteKeepsEarlierWinner(table: seq<RouteInfo>, route: RouteInfo, from: nat,
                                                           verb: string, path: string)
    requires from <= |table|
    ensures FindRoute(RegisterRoute(table, route), from, verb, path) ==
      match FindRoute(table, from, verb, path)
      case Some(i) => Some(i)
      case None => if RouteFits(route, verb, path) then Some(|table|) else None
    decreases |table| - from
  {
    var t := table + [route];
    if from == |table| {
      assert t[from] == route;
      assert FindRoute(t, from + 1, verb, path) == None;
    } else {
      assert t[from] == table[from];
      RegisterRouteKeepsEarlierWinner(table, route, from + 1, verb, path);
    }
  }

  // --------------------------------------------------------------- filters

  /** Filters appear in ascending order of their keys. */
  predicate Sorted(t: seq<FilterInfo>) {
    forall i, j :: 0 <= i < j < |t| ==> t[i].order <= t[j].order
  }

  /** The filters of `t` whose key is `k`, in the order `t` holds them. */
  function WithOrder(t: seq<FilterInfo>, k: U32): (r: seq<FilterInfo>)
    ensures |r| <= |t|
    ensures forall i :: 0 <= i < |r| ==> r[i].order == k
  {
    if |t| == 0 then []
    else (if t[0].order == k then [t[0]] else []) + WithOrder(t[1..], k)
  }

  lemma {:induction false} WithOrderAppend(a: seq<FilterInfo>, b: seq<FilterInfo>, k: U32)
    ensures WithOrder(a + b, k) == WithOrder(a, k) + WithOrder(b, k)
    decreases |a|
  {
    if |a| > 0 {
      var head := if a[0].order == k then [a[0]] else [];
      assert (a + b)[0] == a[0] && (a + b)[1..] == a[1..] + b;
      assert WithOrder(a + b, k) == head + WithOrder(a[1..] + b, k);
      WithOrderAppend(a[1..], b, k);
      assert WithOrder(a, k) == head + WithOrder(a[1..], k);
    } else {
      assert a + b == b;
    }
  }

  /** The filters with key `k` are filters of the table. */
  lemma {:induction false} WithOrderMember(t: seq<FilterInfo>, k: U32, i: nat)
    requires i < |WithOrder(t, k)|
    ensures WithOrder(t, k)[i] in t
  {
    var head := if t[0].order == k then [t[0]] else [];
    assert WithOrder(t, k) == head + WithOrder(t[1..], k);
    if i >= |head| {
      WithOrderMember(t[1..], k, i - |head|);
      assert WithOrder(t[1..], k)[i - |head|] in t[1..];
    }
  }

  lemma WithOrderSlices(t: seq<FilterInfo>, i: nat, k: U32)
    requires i <= |t|
    ensures WithOrder(t, k) == WithOrder(t[..i], k) + WithOrder(t[i..], k)
  {
    assert t == t[..i] + t[i..];
    WithOrderAppend(t[..i], t[i..], k);
  }

  /** A table whose keys all differ from `k` has no filter with key `k`. */
  lemma {:induction false} WithOrderNone(t: seq<FilterInfo>, k: U32)
    requires forall i :: 0 <= i < |t| ==> t[i].order != k
    ensures WithOrder(t, k) == []
    decreases |t|
  {
    if |t| > 0 {
      WithOrderNone(t[1..], k);
    }
  }

  /**
    Where the stable sort places one new filter in an already sorted table:
    after every filter whose key is at most the new key, before the rest.
   */
  function InsertPosition(t: seq<FilterInfo>, f: FilterInfo): (i: nat)
    requires Sorted(t)
    ensures i <= |t|
    ensures forall j :: 0 <= j < i ==> t[j].order <= f.order
    ensures forall j :: i <= j < |t| ==> f.order < t[j].order
  {
    if |t| == 0 || f.order < t[0].order then 0
    else
      var i := InsertPosition(t[1..], f);
      assert forall j :: 0 < j < |t| ==> t[j] == t[1..][j - 1];
      1 + i
  }

  lemma SortedSlices(t: seq<FilterInfo>, i: nat)
    requires Sorted(t) && i <= |t|
    ensures Sorted(t[..i]) && Sorted(t[i..])
  {
    forall p, q | 0 <= p < q < |t[i..]| ensures t[i..][p].order <= t[i..][q].order {
      assert t[i..][p] == t[i + p] && t[i..][q] == t[i + q];
    }
  }

  /** Sorted pieces around `f`, with `f`'s key between them, make a sorted table. */
  lemma SpliceSorted(a: seq<FilterInfo>, f: FilterInfo, b: seq<FilterInfo>)
    requires Sorted(a) && Sorted(b)
    requires forall j :: 0 <= j < |a| ==> a[j].order <= f.order
    requires forall j :: 0 <= j < |b| ==> f.order < b[j].order
    ensures Sorted(a + [f] + b)
  {
    var r := a + [f] + b;
    forall p, q | 0 <= p < q < |r| ensures r[p].order <= r[q].order {
      if q < |a| {
        assert r[p] == a[p] && r[q] == a[q];
      } else if q == |a| {
        assert r[p] == a[p];
      } else if p < |a| {
        assert r[p] == a[p] && r[q] == b[q - |a| - 1];
      } else if p == |a| {
        assert r[q] == b[q - |a| - 1];
      } else {
        assert r[p] == b[p - |a| - 1] && r[q] == b[q - |a| - 1];
      }
    }
  }

  /**
    A sorted table with `f` placed at its insertion position: the table
    stays sorted and gains exactly `f`.
   */
  function InsertByOrder(t: seq<FilterInfo>, f: FilterInfo): (r: seq<FilterInfo>)
    requires Sorted(t)
    ensures Sorted(r)
    ensures multiset(r) == multiset(t) + multiset{f}
  {
    var i := InsertPosition(t, f);
    SplitAroundSorted(t, f, i);
    SplitAroundAdds(t, f, i);
    t[..i] + [f] + t[i..]
  }

  /** Cutting a sorted table where `f`'s key fits and putting `f` there keeps it sorted. */
  lemma SplitAroundSorted(t: seq<FilterInfo>, f: FilterInfo, i: nat)
    requires Sorted(t) && i <= |t|
    requires forall j :: 0 <= j < i ==> t[j].order <= f.order
    requires forall j :: i <= j < |t| ==> f.order < t[j].order
    ensures Sorted(t[..i] + [f] + t[i..])
  {
    var a, b := t[..i], t[i..];
    SortedSlices(t, i);
    assert forall j :: 0 <= j < |a| ==> a[j] == t[j];
    assert forall j :: 0 <= j < |b| ==> b[j] == t[i + j];
    SpliceSorted(a, f, b);
  }

  /** Putting `f` anywhere into a table adds exactly `f` to its contents. */
  lemma SplitAroundAdds(t: seq<FilterInfo>, f: FilterInfo, i: nat)
    requires i <= |t|
    ensures multiset(t[..i] + [f] + t[i..]) == multiset(t) + multiset{f}
  {
    assert t == t[..i] + t[i..];
  }

  /** The filters with key `k` of a table spliced around `f`. */
  lemma WithOrderSplice(a: seq<FilterInfo>, f: FilterInfo, b: seq<FilterInfo>, k: U32)
    ensures WithOrder(a + [f] + b, k) == WithOrder(a, k) + (if f.order == k then [f] else []) + WithOrder(b, k)
    ensures WithOrder(a + b, k) == WithOrder(a, k) + WithOrder(b, k)
  {
    WithOrderAppend(a + [f], b, k);
    WithOrderAppend(a, [f], k);
    WithOrderAppend(a, b, k);
    assert [f][1..] == [];
  }

  lemma InsertByOrderSplices(t: seq<FilterInfo>, f: FilterInfo)
    requires Sorted(t)
    ensures InsertByOrder(t, f) == t[..InsertPosition(t, f)] + [f] + t[InsertPosition(t, f)..]
  {
  }

  /** The part of a sorted table after `f`'s insertion position has only larger keys. */
  lemma AfterPositionLarger(t: seq<FilterInfo>, f: FilterInfo, i: nat)
    requires i <= |t| && forall j :: i <= j < |t| ==> f.order < t[j].order
    ensures forall j :: 0 <= j < |t[i..]| ==> f.order < t[i..][j].order
  {
    forall j | 0 <= j < |t[i..]| ensures f.order < t[i..][j].order {
      assert t[i..][j] == t[i + j];
    }
  }

  /** Inserting adds the new filter after its equal-key peers and changes no other key's filters. */
  lemma InsertByOrderContents(t: seq<FilterInfo>, f: FilterInfo, k: U32)
    requires Sorted(t)
    ensures WithOrder(InsertByOrder(t, f), k) == WithOrder(t, k) + (if f.order == k then [f] else [])
  {
    InsertByOrderSplices(t, f);
    SpliceContents(t, f, InsertPosition(t, f), k);
  }

  /**
    Putting `f` in front of a part of the table whose keys are all larger
    than its own adds `f` after every filter of its key and changes no other
    key's filters.
   */
  lemma SpliceContents(t: seq<FilterInfo>, f: FilterInfo, i: nat, k: U32)
    requires i <= |t| && forall j :: i <= j < |t| ==> f.order < t[j].order
    ensures WithOrder(t[..i] + [f] + t[i..], k) == WithOrder(t, k) + (if f.order == k then [f] else [])
  {
    WithOrderSplice(t[..i], f, t[i..], k);
    WithOrderSlices(t, i, k);
    var wa, wb := WithOrder(t[..i], k), WithOrder(t[i..], k);
    if f.order == k {
      AfterPositionLarger(t, f, i);
      WithOrderNone(t[i..], k);
      assert wa + [f] + wb == (wa + wb) + [f];
    } else {
      assert wa + [] + wb == wa + wb;
    }
  }

  /**
    The stable sort by key: insertion sort that takes the filters left to
    right, each inserted after the equal-key filters placed before it.
   */
  function SortByOrder(t: seq<FilterInfo>): (r: seq<FilterInfo>)
    ensures Sorted(r)
    ensures multiset(r) == multiset(t)
  {
    if |t| == 0 then []
    else
      assert t == t[..|t| - 1] + [t[|t| - 1]];
      InsertByOrder(SortByOrder(t[..|t| - 1]), t[|t| - 1])
  }

  /** The sort is stable: filters with equal keys keep their relative order. */
  lemma {:induction false} SortByOrderStable(t: seq<FilterInfo>, k: U32)
    ensures WithOrder(SortByOrder(t), k) == WithOrder(t, k)
  {
    if |t| > 0 {
      var n := |t| - 1;
      var front := t[..n];
      SortByOrderStable(front, k);
      assert SortByOrder(t) == InsertByOrder(SortByOrder(front), t[n]);
      InsertByOrderContents(SortByOrder(front), t[n], k);
      WithOrderSplice(front, t[n], [], k);
      assert t == front + [t[n]] + [];
    }
  }

  /** A sorted table's first filter has the smallest key of any filter in it. */
  lemma FirstIsLeast(t: seq<FilterInfo>, x: FilterInfo)
    requires Sorted(t) && x in t
    ensures t[0].order <= x.order
  {
    var p :| 0 <= p < |t| && t[p] == x;
    if p > 0 {
      assert t[0].order <= t[p].order;
    }
  }

  /** Sorted tables with the same filters per key start with the same filter. */
  lemma FirstAgrees(a: seq<FilterInfo>, b: seq<FilterInfo>)
    requires Sorted(a) && Sorted(b) && |a| > 0
    requires forall k: U32 :: WithOrder(a, k) == WithOrder(b, k)
    ensures |b| > 0 && b[0] == a[0]
  {
    var k := a[0].order;
    assert WithOrder(a, k) == [a[0]] + WithOrder(a[1..], k);
    var w := WithOrder(b, k);
    assert w == WithOrder(a, k) && w[0] == a[0];
    WithOrderMember(b, k, 0);
    FirstIsLeast(b, w[0]);
    var kb := b[0].order;
    assert WithOrder(b, kb) == [b[0]] + WithOrder(b[1..], kb);
    assert WithOrder(a, kb) == WithOrder(b, kb);
    WithOrderMember(a, kb, 0);
    FirstIsLeast(a, WithOrder(a, kb)[0]);
    assert kb == k;
    assert w == [b[0]] + WithOrder(b[1..], k);
  }

  /**
    Two sorted tables with the same filters per key, in the same relative
    order, are the same table: a stable sort has only one possible result.
   */
  lemma {:induction false} SortedByKeysUnique(a: seq<FilterInfo>, b: seq<FilterInfo>)
    requires Sorted(a) && Sorted(b)
    requires forall k: U32 :: WithOrder(a, k) == WithOrder(b, k)
    ensures a == b
    decreases |a|
  {
    if |a| > 0 {
      FirstAgrees(a, b);
      forall k: U32 ensures WithOrder(a[1..], k) == WithOrder(b[1..], k) {
        var head := if a[0].order == k then [a[0]] else [];
        assert WithOrder(a, k) == head + WithOrder(a[1..], k);
        assert WithOrder(b, k) == head + WithOrder(b[1..], k);
        assert WithOrder(a[1..], k) == WithOrder(a, k)[|head|..];
        assert WithOrder(b[1..], k) == WithOrder(b, k)[|head|..];
      }
      SortedByKeysUnique(a[1..], b[1..]);
      assert a == [a[0]] + a[1..] && b == [b[0]] + b[1..];
    } else if |b| > 0 {
      FirstAgrees(b, a);
      assert false;
    }
  }

  /** A table that is already sorted is left as it is. */
  lemma {:induction false} SortSortedIsIdentity(t: seq<FilterInfo>)
    requires Sorted(t)
    ensures SortByOrder(t) == t
  {
    forall k: U32 ensures WithOrder(SortByOrder(t), k) == WithOrder(t, k) {
      SortByOrderStable(t, k);
    }
    SortedByKeysUnique(SortByOrder(t), t);
  }

  /** Filter registration: push onto the table, then stably sort by key. */
  function RegisterFilter(table: seq<FilterInfo>, f: FilterInfo): (r: seq<FilterInfo>)
    ensures Sorted(r)
    ensures multiset(r) == multiset(table) + multiset{f}
    ensures |r| == |table| + 1
  {
    SortByOrder(table + [f])
  }

  /**
    On a sorted table, registration inserts the new filter after every
    filter whose key is at most its own and changes nothing else.
   */
  lemma RegisterFilterInserts(table: seq<FilterInfo>, f: FilterInfo)
    requires Sorted(table)
    ensures RegisterFilter(table, f) == InsertByOrder(table, f)
  {
    var t := table + [f];
    assert t[..|t| - 1] == table;
    SortSortedIsIdentity(table);
  }

  /** What a filter registration function does, from its attribute's arguments. */
  function RegisterFilterFromAttribute(table: seq<FilterInfo>, kind: string, exp: string, order: U32,
                                       handler: Request -> Chain): (r: Result<seq<FilterInfo>, string>)
    ensures r.Failure? <==> kind != PathPatternKind
    ensures r.Success? ==> r.value == RegisterFilter(table, FilterInfo(PathPattern(exp), order, handler))
  {
    var pred :- PredicateFromStr(kind, exp);
    Success(RegisterFilter(table, FilterInfo(pred, order, handler)))
  }

  /** The table after registering `fs` one by one, starting from an empty table. */
  function RegisterAll(fs: seq<FilterInfo>): (r: seq<FilterInfo>)
    ensures r == SortByOrder(fs)
  {
    if |fs| == 0 then []
    else
      var before := RegisterAll(fs[..|fs| - 1]);
      RegisterFilterInserts(before, fs[|fs| - 1]);
      RegisterFilter(before, fs[|fs| - 1])
  }

  /** Every filter registered is in the final table, and nothing else is. */
  lemma RegisterAllPermutes(fs: seq<FilterInfo>, k: U32)
    ensures multiset(RegisterAll(fs)) == multiset(fs)
    ensures WithOrder(RegisterAll(fs), k) == WithOrder(fs, k)
  {
    SortByOrderStable(fs, k);
  }
}
