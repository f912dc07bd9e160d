/** The counting sort that groups routes by expert, and the two ways of accumulating experts. */
module RouteGrouping {
  import opened Routes

  /** The router's choices: for each token a row of expert ids and a row of weights. */
  datatype Batch = Batch(ids: seq<seq<int>>, weights: seq<seq<real>>, topk: nat) {
    predicate Valid() {
      && |ids| == |weights|
      && (forall t :: 0 <= t < |ids| ==> |ids[t]| == topk)
      && forall t :: 0 <= t < |weights| ==> |weights[t]| == topk
    }
  }

  function RouteAt(b: Batch, t: nat, k: nat): Route
    requires b.Valid() && t < |b.ids| && k < b.topk
  { Route(t, b.ids[t][k], b.weights[t][k]) }

  /** The routes in front of (t, k), token by token. */
  function Before(b: Batch, t: nat, k: nat): seq<Route>
    requires b.Valid() && k <= b.topk && (t < |b.ids| || (t == |b.ids| && k == 0))
    decreases t, k
  {
    if k > 0 then Before(b, t, k - 1) + [RouteAt(b, t, k - 1)]
    else if t > 0 then Before(b, t - 1, b.topk)
    else []
  }

  function All(b: Batch): seq<Route>
    requires b.Valid()
  { Before(b, |b.ids|, 0) }

  /** Token by token, choice by choice: every route has its own choice's expert and weight. */
  lemma {:induction false} RoutesAreChoices(b: Batch, t: nat, k: nat)
    requires b.Valid() && t < |b.ids| && k < b.topk
    ensures |All(b)| == |b.ids| * b.topk && t * b.topk + k < |All(b)|
    ensures All(b)[t * b.topk + k] == Route(t, b.ids[t][k], b.weights[t][k])
  {
    RouteCount(b);
    BeforeCount(b, t, k);
    BeforeNext(b, t, k);
    assert Before(b, t, k + 1)[|Before(b, t, k)|] == RouteAt(b, t, k);
  }

  /** Where the segment of the j-th expert starts. */
  function Start(rs: seq<Route>, lo: int, j: nat): nat {
    if j == 0 then 0 else Start(rs, lo, j - 1) + |Select(rs, lo + j - 1)|
  }

  lemma {:induction false} StartsApart(rs: seq<Route>, lo: int, i: nat, j: nat)
    requires i < j
    ensures Start(rs, lo, i) + |Select(rs, lo + i)| <= Start(rs, lo, j)
    decreases j
  {
    if i < j - 1 { StartsApart(rs, lo, i, j - 1); }
  }

  lemma {:induction false} SelectAppend(a: seq<Route>, b: seq<Route>, e: int)
    ensures Select(a + b, e) == Select(a, e) + Select(b, e)
    decreases |b|
  {
    assert b == [] ==> Select(b, e) == [];
    hide Select;
    if b == [] {
      assert a + b == a && Select(a, e) + [] == Select(a, e);
    } else {
      var front, r := b[..|b| - 1], b[|b| - 1];
      assert a + b == (a + front) + [r] && b == front + [r];
      SelectAppend(a, front, e);
      SelectStep(a + front, r, e);
      SelectStep(front, r, e);
      assert Select(a, e) + Select(front, e) + [r] == Select(a, e) + (Select(front, e) + [r]);
    }
  }

  /** What is still to come behind (t, k). */
  lemma {:induction false} BeforeIsPrefix(b: Batch, t: nat, k: nat)
    requires b.Valid() && k <= b.topk && (t < |b.ids| || (t == |b.ids| && k == 0))
    ensures Before(b, t, k) <= All(b)
    decreases |b.ids| - t, b.topk - k
  {
    if t < |b.ids| {
      if k < b.topk {
        BeforeIsPrefix(b, t, k + 1);
      } else {
        BeforeIsPrefix(b, t + 1, 0);
      }
    }
  }

  lemma {:induction false} StartBound(rs: seq<Route>, lo: int, j: nat)
    ensures Start(rs, lo, j) <= |rs|
    decreases |rs|
  {
    if rs == [] {
      StartOfNothing(lo, j);
    } else {
      StartBound(rs[..|rs| - 1], lo, j);
      StartStep(rs[..|rs| - 1], rs[|rs| - 1], lo, j);
      assert rs == rs[..|rs| - 1] + [rs[|rs| - 1]];
    }
  }

  lemma {:induction false} StartOfNothing(lo: int, j: nat)
    ensures Start([], lo, j) == 0
  {
    if j > 0 { StartOfNothing(lo, j - 1); }
  }

  lemma {:induction false} StartStep(rs: seq<Route>, r: Route, lo: int, j: nat)
    ensures Start(rs + [r], lo, j) == Start(rs, lo, j) + if lo <= r.expert < lo + j then 1 else 0
    decreases j
  {
    if j > 0 {
      StartStep(rs, r, lo, j - 1);
      SelectStep(rs, r, lo + j - 1);
    }
  }

  // ----- counting -----

  predicate Counted(counts: seq<nat>, rs: seq<Route>, lo: int) {
    forall j :: 0 <= j < |counts| ==> counts[j] == |Select(rs, lo + j)|
  }

  lemma CountedStep(counts: seq<nat>, rs: seq<Route>, r: Route, lo: int)
    requires Counted(counts, rs, lo)
    ensures lo <= r.expert < lo + |counts| ==> Counted(counts[r.expert - lo := counts[r.expert - lo] + 1], rs + [r], lo)
    ensures !(lo <= r.expert < lo + |counts|) ==> Counted(counts, rs + [r], lo)
  {
    hide Select;
    var after := if lo <= r.expert < lo + |counts| then counts[r.expert - lo := counts[r.expert - lo] + 1] else counts;
    forall j | 0 <= j < |counts| ensures after[j] == |Select(rs + [r], lo + j)| {
      SelectStep(rs, r, lo + j);
      assert counts[j] == |Select(rs, lo + j)|;
    }
  }

  method CountRoutes(b: Batch, lo: int, hi: int) returns (counts: array<nat>)
    requires b.Valid() && lo <= hi
    ensures fresh(counts) && counts.Length == hi - lo && Counted(counts[..], All(b), lo)
  {
    hide Counted;
    counts := new nat[hi - lo](_ => 0);
    NothingCounted(counts[..], lo);
    for t := 0 to |b.ids|
      invariant Counted(counts[..], Before(b, t, 0), lo)
    {
      for k := 0 to b.topk
        invariant Counted(counts[..], Before(b, t, k), lo)
      {
        var expert := b.ids[t][k];
        CountedStep(counts[..], Before(b, t, k), RouteAt(b, t, k), lo);
        if lo <= expert < hi {
          ghost var was := counts[..];
          counts[expert - lo] := counts[expert - lo] + 1;
          assert counts[..] == was[expert - lo := was[expert - lo] + 1];
        }
      }
    }
  }

  lemma NothingCounted(counts: seq<nat>, lo: int)
    requires forall j :: 0 <= j < |counts| ==> counts[j] == 0
    ensures Counted(counts, [], lo)
  {
  }

  // ----- placing -----

  /** The routes s stand in the two arrays from `at` on. */
  predicate Placed(tokens: seq<nat>, weights: seq<real>, at: nat, s: seq<Route>) {
    at + |s| <= |tokens| == |weights|
    && forall i :: 0 <= i < |s| ==> tokens[at + i] == s[i].token && weights[at + i] == s[i].weight
  }

  /** The routes seen so far stand at the front of their experts' segments. */
  predicate Filled(tokens: seq<nat>, weights: seq<real>, cursor: seq<nat>, all: seq<Route>, seen: seq<Route>, lo: int) {
    forall j :: 0 <= j < |cursor| ==>
      && cursor[j] == Start(all, lo, j) + |Select(seen, lo + j)|
      && Placed(tokens, weights, Start(all, lo, j), Select(seen, lo + j))
  }

  /** A route goes to the cursor of its expert, which is inside that expert's segment. */
  lemma FilledStep(
      tokens: seq<nat>, weights: seq<real>, cursor: seq<nat>, all: seq<Route>, seen: seq<Route>, r: Route, lo: int)
    requires Filled(tokens, weights, cursor, all, seen, lo) && seen + [r] <= all && |all| <= |tokens| == |weights|
    requires lo <= r.expert < lo + |cursor|
    ensures var j := r.expert - lo; var pos := cursor[j];
            && pos < |tokens|
            && Filled(tokens[pos := r.token], weights[pos := r.weight], cursor[j := pos + 1], all, seen + [r], lo)
  {
    hide Select, Start, Placed;
    var j0 := r.expert - lo;
    var pos := cursor[j0];
    CursorInside(all, seen, r, lo);
    StartsApart(all, lo, j0, j0 + 1);
    StartBound(all, lo, j0 + 1);
    forall j | 0 <= j < |cursor|
      ensures cursor[j0 := pos + 1][j] == Start(all, lo, j) + |Select(seen + [r], lo + j)|
      ensures Placed(tokens[pos := r.token], weights[pos := r.weight], Start(all, lo, j), Select(seen + [r], lo + j))
    {
      SelectStep(seen, r, lo + j);
      if j == j0 {
        PlacedMore(tokens, weights, Start(all, lo, j), Select(seen, lo + j), r);
      } else {
        if j < j0 { StartsApart(all, lo, j, j0); } else { StartsApart(all, lo, j0, j); }
        SegmentFits(all, seen, r, lo + j);
        PlacedElsewhere(tokens, weights, Start(all, lo, j), Select(seen, lo + j), pos, r);
      }
    }
  }

  lemma CursorInside(all: seq<Route>, seen: seq<Route>, r: Route, lo: int)
    requires seen + [r] <= all
    ensures |Select(seen, r.expert)| < |Select(all, r.expert)|
  {
    hide Select;
    assert all == (seen + [r]) + all[|seen| + 1..];
    SelectAppend(seen + [r], all[|seen| + 1..], r.expert);
    SelectStep(seen, r, r.expert);
  }

  lemma SegmentFits(all: seq<Route>, seen: seq<Route>, r: Route, e: int)
    requires seen + [r] <= all
    ensures |Select(seen, e)| <= |Select(all, e)|
  {
    hide Select;
    assert all == seen + all[|seen|..];
    SelectAppend(seen, all[|seen|..], e);
  }

  lemma PlacedMore(tokens: seq<nat>, weights: seq<real>, at: nat, s: seq<Route>, r: Route)
    requires Placed(tokens, weights, at, s) && at + |s| < |tokens|
    ensures Placed(tokens[at + |s| := r.token], weights[at + |s| := r.weight], at, s + [r])
  {
  }

  lemma PlacedElsewhere(tokens: seq<nat>, weights: seq<real>, at: nat, s: seq<Route>, pos: nat, r: Route)
    requires Placed(tokens, weights, at, s) && pos < |tokens| && (pos < at || at + |s| <= pos)
    ensures Placed(tokens[pos := r.token], weights[pos := r.weight], at, s)
  {
  }

  lemma FilledSkip(
      tokens: seq<nat>, weights: seq<real>, cursor: seq<nat>, all: seq<Route>, seen: seq<Route>, r: Route, lo: int)
    requires Filled(tokens, weights, cursor, all, seen, lo) && !(lo <= r.expert < lo + |cursor|)
    ensures Filled(tokens, weights, cursor, all, seen + [r], lo)
  {
    hide Select, Start, Placed;
    forall j | 0 <= j < |cursor|
      ensures cursor[j] == Start(all, lo, j) + |Select(seen + [r], lo + j)|
      ensures Placed(tokens, weights, Start(all, lo, j), Select(seen + [r], lo + j))
    {
      SelectStep(seen, r, lo + j);
    }
  }

  lemma NothingFilled(tokens: seq<nat>, weights: seq<real>, cursor: seq<nat>, all: seq<Route>, lo: int)
    requires |all| <= |tokens| == |weights| && forall j :: 0 <= j < |cursor| ==> cursor[j] == Start(all, lo, j)
    ensures Filled(tokens, weights, cursor, all, [], lo)
  {
    forall j | 0 <= j < |cursor| ensures Placed(tokens, weights, Start(all, lo, j), Select([], lo + j)) {
      StartBound(all, lo, j);
    }
  }

  /** The grouping: offsets bound the segments, and each segment holds its expert's routes in their
      order, each with its own weight. */
  predicate Grouped(offsets: seq<nat>, tokens: seq<nat>, weights: seq<real>, rs: seq<Route>, lo: int) {
    && |offsets| > 0 && offsets[0] == 0
    && forall j :: 0 <= j < |offsets| - 1 ==>
         && offsets[j + 1] == offsets[j] + |Select(rs, lo + j)|
         && Placed(tokens, weights, offsets[j], Select(rs, lo + j))
  }

  method PrefixSums(counts: array<nat>, ghost rs: seq<Route>, lo: int) returns (offsets: array<nat>)
    requires Counted(counts[..], rs, lo)
    ensures fresh(offsets) && offsets.Length == counts.Length + 1
    ensures forall j :: 0 <= j <= counts.Length ==> offsets[j] == Start(rs, lo, j)
  {
    hide Start;
    offsets := new nat[counts.Length + 1];
    NoStart(rs, lo);
    offsets[0] := 0;
    for e := 0 to counts.Length
      invariant forall j :: 0 <= j <= e ==> offsets[j] == Start(rs, lo, j)
    {
      NextStart(counts[..], rs, lo, e);
      offsets[e + 1] := offsets[e] + counts[e];
    }
  }

  lemma NoStart(rs: seq<Route>, lo: int)
    ensures Start(rs, lo, 0) == 0
  {
  }

  lemma NextStart(counts: seq<nat>, rs: seq<Route>, lo: int, e: nat)
    requires Counted(counts, rs, lo) && e < |counts|
    ensures Start(rs, lo, e + 1) == Start(rs, lo, e) + counts[e]
  {
  }

  /** All offsets but the last. */
  method CopyFront(offsets: array<nat>) returns (cursor: array<nat>)
    requires offsets.Length > 0
    ensures fresh(cursor) && cursor.Length == offsets.Length - 1
    ensures forall j :: 0 <= j < cursor.Length ==> cursor[j] == offsets[j]
  {
    cursor := new nat[offsets.Length - 1];
    for e := 0 to cursor.Length
      invariant forall j :: 0 <= j < e ==> cursor[j] == offsets[j]
    {
      cursor[e] := offsets[e];
    }
  }

  method PlaceRoutes(b: Batch, lo: int, hi: int, cursor: array<nat>) returns (tokens: array<nat>, weights: array<real>)
    requires b.Valid() && lo <= hi && cursor.Length == hi - lo
    requires forall j :: 0 <= j < cursor.Length ==> cursor[j] == Start(All(b), lo, j)
    modifies cursor
    ensures fresh(tokens) && fresh(weights)
    ensures Filled(tokens[..], weights[..], cursor[..], All(b), All(b), lo)
  {
    hide Filled, Before, Start, All;
    ghost var all := All(b);
    var total := |b.ids| * b.topk;
    RouteCount(b);
    tokens := new nat[total](_ => 0);
    weights := new real[total](_ => 0.0);
    NothingFilled(tokens[..], weights[..], cursor[..], all, lo);
    BeforeStart(b);
    for t := 0 to |b.ids|
      invariant tokens.Length == weights.Length == total
      invariant Filled(tokens[..], weights[..], cursor[..], all, Before(b, t, 0), lo)
    {
      for k := 0 to b.topk
        invariant tokens.Length == weights.Length == total
        invariant Filled(tokens[..], weights[..], cursor[..], all, Before(b, t, k), lo)
      {
        var expert := b.ids[t][k];
        ghost var seen, r := Before(b, t, k), RouteAt(b, t, k);
        BeforeNext(b, t, k);
        if lo <= expert < hi {
          FilledStep(tokens[..], weights[..], cursor[..], all, seen, r, lo);
          PlaceOne(tokens, weights, cursor, expert - lo, t, b.weights[t][k]);
        } else {
          FilledSkip(tokens[..], weights[..], cursor[..], all, seen, r, lo);
        }
      }
      BeforeRow(b, t);
    }
    BeforeAll(b);
  }

  method PlaceOne(tokens: array<nat>, weights: array<real>, cursor: array<nat>, j: nat, t: nat, w: real)
    requires j < cursor.Length && cursor[j] < tokens.Length == weights.Length && tokens != cursor
    modifies tokens, weights, cursor
    ensures tokens[..] == old(tokens[..])[old(cursor[j]) := t]
    ensures weights[..] == old(weights[..])[old(cursor[j]) := w]
    ensures cursor[..] == old(cursor[..])[j := old(cursor[j]) + 1]
  {
    var pos := cursor[j];
    cursor[j] := cursor[j] + 1;
    tokens[pos] := t;
    weights[pos] := w;
  }

  lemma BeforeStart(b: Batch)
    requires b.Valid()
    ensures Before(b, 0, 0) == []
  {
  }

  lemma BeforeAll(b: Batch)
    requires b.Valid()
    ensures Before(b, |b.ids|, 0) == All(b)
  {
  }

  lemma BeforeRow(b: Batch, t: nat)
    requires b.Valid() && t < |b.ids|
    ensures Before(b, t + 1, 0) == Before(b, t, b.topk)
  {
  }

  lemma BeforeNext(b: Batch, t: nat, k: nat)
    requires b.Valid() && t < |b.ids| && k < b.topk
    ensures Before(b, t, k + 1) == Before(b, t, k) + [RouteAt(b, t, k)] <= All(b)
  {
    BeforeIsPrefix(b, t, k + 1);
  }

  lemma {:induction false} BeforeCount(b: Batch, t: nat, k: nat)
    requires b.Valid() && k <= b.topk && (t < |b.ids| || (t == |b.ids| && k == 0))
    ensures |Before(b, t, k)| == t * b.topk + k
    decreases t, k
  {
    if k > 0 {
      BeforeCount(b, t, k - 1);
    } else if t > 0 {
      BeforeCount(b, t - 1, b.topk);
      assert t * b.topk == (t - 1) * b.topk + b.topk;
    }
  }

  lemma RouteCount(b: Batch)
    requires b.Valid()
    ensures |All(b)| == |b.ids| * b.topk
  {
    BeforeCount(b, |b.ids|, 0);
  }

  method CountingSort(b: Batch, lo: int, hi: int)
    returns (offsets: array<nat>, tokens: array<nat>, weights: array<real>)
    requires b.Valid() && lo <= hi
    ensures fresh(offsets) && fresh(tokens) && fresh(weights) && offsets.Length == hi - lo + 1
    ensures Grouped(offsets[..], tokens[..], weights[..], All(b), lo)
  {
    hide Filled, All, Counted, Start, Select, Placed;
    var counts := CountRoutes(b, lo, hi);
    offsets := PrefixSums(counts, All(b), lo);
    var cursor := CopyFront(offsets);
    tokens, weights := PlaceRoutes(b, lo, hi, cursor);
    FilledIsGrouped(offsets[..], tokens[..], weights[..], cursor[..], All(b), lo);
  }

  lemma FilledIsGrouped(
      offsets: seq<nat>, tokens: seq<nat>, weights: seq<real>, cursor: seq<nat>, rs: seq<Route>, lo: int)
    requires Filled(tokens, weights, cursor, rs, rs, lo) && |offsets| == |cursor| + 1
    requires forall j :: 0 <= j < |offsets| ==> offsets[j] == Start(rs, lo, j)
    ensures Grouped(offsets, tokens, weights, rs, lo)
  {
    hide Select, Placed;
  }

  // ----- accumulating, one output column -----

  /** Adds s's contributions to the column. */
  predicate Accumulated(before: seq<real>, after: seq<real>, s: seq<Route>, f: Route -> real) {
    |after| == |before| && forall t :: 0 <= t < |after| ==> after[t] == before[t] + Gathered(s, f, t)
  }

  predicate TokensBelow(rs: seq<Route>, n: nat) { forall i :: 0 <= i < |rs| ==> rs[i].token < n }

  lemma AccumulatedStep(before: seq<real>, after: seq<real>, s: seq<Route>, r: Route, f: Route -> real)
    requires Accumulated(before, after, s, f) && r.token < |after|
    ensures Accumulated(before, after[r.token := after[r.token] + f(r)], s + [r], f)
  {
    hide Gathered;
    forall t | 0 <= t < |after|
      ensures after[r.token := after[r.token] + f(r)][t] == before[t] + Gathered(s + [r], f, t)
    {
      GatheredAppend(s, [r], f, t);
      GatheredOne(r, f, t);
    }
  }

  lemma NothingAccumulated(column: seq<real>, f: Route -> real)
    ensures Accumulated(column, column, [], f)
  {
  }

  lemma AccumulatedTwice(a: seq<real>, b: seq<real>, c: seq<real>, s: seq<Route>, s': seq<Route>, f: Route -> real)
    requires Accumulated(a, b, s, f) && Accumulated(b, c, s', f)
    ensures Accumulated(a, c, s + s', f)
  {
    hide Gathered;
    forall t | 0 <= t < |a| ensures c[t] == a[t] + Gathered(s + s', f, t) { GatheredAppend(s, s', f, t); }
  }

  /** The routes kept by the per-route path. */
  method CollectRoutes(b: Batch, lo: int, hi: int, loaded: set<int>) returns (routes: seq<Route>)
    requires b.Valid()
    ensures routes == InRange(All(b), lo, hi, loaded)
  {
    hide InRange, Before, All;
    routes := [];
    BeforeStart(b);
    NoneInRange(lo, hi, loaded);
    for t := 0 to |b.ids|
      invariant routes == InRange(Before(b, t, 0), lo, hi, loaded)
    {
      for k := 0 to b.topk
        invariant routes == InRange(Before(b, t, k), lo, hi, loaded)
      {
        var expert := b.ids[t][k];
        BeforeNext(b, t, k);
        InRangeStep(Before(b, t, k), RouteAt(b, t, k), lo, hi, loaded);
        if lo <= expert < hi && expert in loaded { routes := routes + [Route(t, expert, b.weights[t][k])]; }
      }
      BeforeRow(b, t);
    }
    BeforeAll(b);
  }

  lemma NoneInRange(lo: int, hi: int, loaded: set<int>)
    ensures InRange([], lo, hi, loaded) == []
  {
  }

  /** `int8_decode_accumulate_routes_impl`, one output column. */
  method PerRoute(b: Batch, lo: int, hi: int, loaded: set<int>, f: Route -> real, output: array<real>)
    requires b.Valid() && output.Length == |b.ids|
    modifies output
    ensures Accumulated(old(output[..]), output[..], InRange(All(b), lo, hi, loaded), f)
  {
    hide Accumulated, InRange, All;
    var routes := CollectRoutes(b, lo, hi, loaded);
    RoutesInBatch(b, lo, hi, loaded);
    NothingAccumulated(output[..], f);
    for r := 0 to |routes|
      invariant Accumulated(old(output[..]), output[..], routes[..r], f)
    {
      var route := routes[r];
      ghost var was := output[..];
      AccumulatedStep(old(output[..]), was, routes[..r], route, f);
      output[route.token] := output[route.token] + f(route);
      assert output[..] == was[route.token := was[route.token] + f(route)];
      assert routes[..r + 1] == routes[..r] + [route];
    }
    assert routes[..|routes|] == routes;
  }

  lemma {:induction false} BeforeTokens(b: Batch, t: nat, k: nat)
    requires b.Valid() && k <= b.topk && (t < |b.ids| || (t == |b.ids| && k == 0))
    ensures TokensBelow(Before(b, t, k), |b.ids|)
    decreases t, k
  {
    if k > 0 { BeforeTokens(b, t, k - 1); } else if t > 0 { BeforeTokens(b, t - 1, b.topk); }
  }

  lemma {:induction false} SelectTokens(rs: seq<Route>, e: int, n: nat)
    requires TokensBelow(rs, n)
    ensures TokensBelow(Select(rs, e), n) && forall i :: 0 <= i < |Select(rs, e)| ==> Select(rs, e)[i].expert == e
    decreases |rs|
  {
    if rs != [] { SelectTokens(rs[..|rs| - 1], e, n); }
  }

  lemma {:induction false} InRangeTokens(rs: seq<Route>, lo: int, hi: int, loaded: set<int>, n: nat)
    requires TokensBelow(rs, n)
    ensures TokensBelow(InRange(rs, lo, hi, loaded), n)
    decreases |rs|
  {
    if rs != [] { InRangeTokens(rs[..|rs| - 1], lo, hi, loaded, n); }
  }

  lemma RoutesInBatch(b: Batch, lo: int, hi: int, loaded: set<int>)
    requires b.Valid()
    ensures TokensBelow(InRange(All(b), lo, hi, loaded), |b.ids|)
  {
    BeforeTokens(b, |b.ids|, 0);
    InRangeTokens(All(b), lo, hi, loaded, |b.ids|);
  }

  /** `int8_expert_accumulate_group_impl`, one output column: the group's routes in their order. */
  method AccumulateGroup(
      tokens: array<nat>, weights: array<real>, start: nat, size: nat, e: int, ghost s: seq<Route>, f: Route -> real,
      output: array<real>)
    requires Placed(tokens[..], weights[..], start, s) && |s| == size && TokensBelow(s, output.Length)
    requires forall i :: 0 <= i < |s| ==> s[i].expert == e
    requires output != weights
    modifies output
    ensures Accumulated(old(output[..]), output[..], s, f)
  {
    hide Accumulated;
    NothingAccumulated(output[..], f);
    for j := 0 to size
      invariant Accumulated(old(output[..]), output[..], s[..j], f)
    {
      var route := Route(tokens[start + j], e, weights[start + j]);
      assert tokens[..][start + j] == s[j].token && weights[..][start + j] == s[j].weight;
      ghost var was := output[..];
      AccumulatedStep(old(output[..]), was, s[..j], route, f);
      output[route.token] := output[route.token] + f(route);
      assert output[..] == was[route.token := was[route.token] + f(route)];
      assert s[..j + 1] == s[..j] + [route];
    }
    assert s[..size] == s;
  }

  /** The grouped path of `routed_int8_moe_forward`, one output column: every token gets exactly the
      sum the per-route path gives it. */
  method GroupedForward(b: Batch, lo: int, hi: int, loaded: set<int>, f: Route -> real, output: array<real>)
    requires b.Valid() && lo <= hi && output.Length == |b.ids|
    modifies output
    ensures Accumulated(old(output[..]), output[..], InRange(All(b), lo, hi, loaded), f)
  {
    hide Accumulated, All, Select, Segments, Placed, Grouped;
    var offsets, tokens, weights := CountingSort(b, lo, hi);
    ghost var rs := All(b);
    BeforeTokens(b, |b.ids|, 0);
    BeforeAll(b);
    NothingAccumulated(output[..], f);
    NoSegmentsYet(rs, lo, loaded);
    for e := 0 to hi - lo
      invariant Grouped(offsets[..], tokens[..], weights[..], rs, lo)
      invariant Accumulated(old(output[..]), output[..], Segments(rs, lo, lo + e, loaded), f)
    {
      var start := offsets[e];
      ghost var s := Select(rs, lo + e);
      GroupAt(offsets[..], tokens[..], weights[..], rs, lo, e);
      var size := offsets[e + 1] - start;
      ghost var was := output[..];
      SegmentsNext(rs, lo, lo + e, loaded);
      NothingAccumulated(was, f);
      if size > 0 && lo + e in loaded {
        SelectTokens(rs, lo + e, |b.ids|);
        AccumulateGroup(tokens, weights, start, size, lo + e, s, f, output);
      }
      ghost var added := if lo + e in loaded then s else [];
      AccumulatedTwice(old(output[..]), was, output[..], Segments(rs, lo, lo + e, loaded), added, f);
    }
    RegroupColumn(old(output[..]), output[..], rs, lo, hi, loaded, f);
  }

  lemma NoSegmentsYet(rs: seq<Route>, lo: int, loaded: set<int>)
    ensures Segments(rs, lo, lo, loaded) == []
  {
  }

  lemma SegmentsNext(rs: seq<Route>, lo: int, e: int, loaded: set<int>)
    requires lo <= e
    ensures Segments(rs, lo, e + 1, loaded) == Segments(rs, lo, e, loaded) + if e in loaded then Select(rs, e) else []
  {
  }

  lemma GroupAt(offsets: seq<nat>, tokens: seq<nat>, weights: seq<real>, rs: seq<Route>, lo: int, j: nat)
    requires Grouped(offsets, tokens, weights, rs, lo) && j < |offsets| - 1
    ensures offsets[j + 1] == offsets[j] + |Select(rs, lo + j)|
            && Placed(tokens, weights, offsets[j], Select(rs, lo + j))
  {
  }

  lemma RegroupColumn(
      before: seq<real>, after: seq<real>, rs: seq<Route>, lo: int, hi: int, loaded: set<int>, f: Route -> real)
    requires Accumulated(before, after, Segments(rs, lo, hi, loaded), f)
    ensures Accumulated(before, after, InRange(rs, lo, hi, loaded), f)
  {
    hide Gathered, Segments, InRange;
    forall t | 0 <= t < |after| ensures after[t] == before[t] + Gathered(InRange(rs, lo, hi, loaded), f, t) {
      GroupingKeepsSums(rs, lo, hi, loaded, f, t);
    }
  }
}
