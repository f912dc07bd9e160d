/** Routes of tokens to experts: selecting, grouping by expert, and adding up what they contribute. */
module Routes {

  /** `token` is the token, or in the single-token case the position in the list of choices. */
  datatype Route = Route(token: nat, expert: int, weight: real)

  /** The routes of one expert, in their order. */
  function Select(rs: seq<Route>, e: int): (s: seq<Route>)
    ensures |s| <= |rs|
  {
    if rs == [] then []
    else
      var last := rs[|rs| - 1];
      Select(rs[..|rs| - 1], e) + if last.expert == e then [last] else []
  }

  /** The routes of the experts in [lo, hi) that are loaded, in their order. */
  function InRange(rs: seq<Route>, lo: int, hi: int, loaded: set<int>): seq<Route> {
    if rs == [] then []
    else
      var last := rs[|rs| - 1];
      InRange(rs[..|rs| - 1], lo, hi, loaded) + if lo <= last.expert < hi && last.expert in loaded then [last] else []
  }

  /** The routes of the loaded experts in [lo, hi), expert by expert. */
  function Segments(rs: seq<Route>, lo: int, hi: int, loaded: set<int>): seq<Route>
    decreases hi - lo
  {
    if hi <= lo then []
    else Segments(rs, lo, hi - 1, loaded) + if hi - 1 in loaded then Select(rs, hi - 1) else []
  }

  /** What the routes contribute to one token, each route adding f of itself. */
  function Gathered(rs: seq<Route>, f: Route -> real, t: nat): real {
    if rs == [] then 0.0
    else
      var last := rs[|rs| - 1];
      Gathered(rs[..|rs| - 1], f, t) + if last.token == t then f(last) else 0.0
  }

  lemma {:induction false} GatheredAppend(a: seq<Route>, b: seq<Route>, f: Route -> real, t: nat)
    ensures Gathered(a + b, f, t) == Gathered(a, f, t) + Gathered(b, f, t)
    decreases |b|
  {
    if b == [] {
      assert a + b == a;
    } else {
      assert (a + b)[..|a + b| - 1] == a + b[..|b| - 1];
      GatheredAppend(a, b[..|b| - 1], f, t);
    }
  }

  lemma GatheredOne(r: Route, f: Route -> real, t: nat)
    ensures Gathered([r], f, t) == if r.token == t then f(r) else 0.0
  {
    assert [r][..0] == [];
    assert Gathered([r][..0], f, t) == 0.0;
  }

  lemma SelectStep(rs: seq<Route>, r: Route, e: int)
    ensures Select(rs + [r], e) == if r.expert == e then Select(rs, e) + [r] else Select(rs, e)
  {
    assert (rs + [r])[..|rs|] == rs;
  }

  lemma InRangeStep(rs: seq<Route>, r: Route, lo: int, hi: int, loaded: set<int>)
    ensures InRange(rs + [r], lo, hi, loaded)
         == if lo <= r.expert < hi && r.expert in loaded then InRange(rs, lo, hi, loaded) + [r]
            else InRange(rs, lo, hi, loaded)
  {
    assert (rs + [r])[..|rs|] == rs;
  }

  /** Each route of a loaded expert in the range is there as often as it was, and no other route. */
  lemma {:induction false} InRangeExactly(rs: seq<Route>, lo: int, hi: int, loaded: set<int>, r: Route)
    ensures multiset(InRange(rs, lo, hi, loaded))[r]
         == if lo <= r.expert < hi && r.expert in loaded then multiset(rs)[r] else 0
    decreases |rs|
  {
    if rs != [] {
      var front, last := rs[..|rs| - 1], rs[|rs| - 1];
      assert rs == front + [last];
      InRangeExactly(front, lo, hi, loaded, r);
      InRangeStep(front, last, lo, hi, loaded);
    }
  }

  /** The positions of an expert's routes, in order. */
  ghost predicate PositionsOf(rs: seq<Route>, e: int, ps: seq<nat>) {
    && (forall i :: 0 <= i < |ps| ==> ps[i] < |rs| && rs[ps[i]].expert == e)
    && (forall i, j :: 0 <= i < j < |ps| ==> ps[i] < ps[j])
    && forall p :: 0 <= p < |rs| && rs[p].expert == e ==> p in ps
  }

  /** An expert's routes are those at its positions, in their order. */
  lemma {:induction false} SelectExactly(rs: seq<Route>, e: int) returns (ps: seq<nat>)
    ensures PositionsOf(rs, e, ps) && |Select(rs, e)| == |ps|
    ensures forall i :: 0 <= i < |ps| ==> ps[i] < |rs| && Select(rs, e)[i] == rs[ps[i]]
    decreases |rs|
  {
    if rs == [] {
      ps := [];
    } else {
      hide Select, PositionsOf;
      var n := |rs| - 1;
      var front := SelectExactly(rs[..n], e);
      assert rs == rs[..n] + [rs[n]];
      SelectStep(rs[..n], rs[n], e);
      ps := if rs[n].expert == e then front + [n] else front;
      OnePosition(rs, e, front);
    }
  }

  lemma OnePosition(rs: seq<Route>, e: int, front: seq<nat>)
    requires rs != [] && PositionsOf(rs[..|rs| - 1], e, front)
    ensures PositionsOf(rs, e, if rs[|rs| - 1].expert == e then front + [|rs| - 1] else front)
    ensures forall i :: 0 <= i < |front| ==> front[i] < |rs| - 1
  {
    var n := |rs| - 1;
    var ps := if rs[n].expert == e then front + [n] else front;
    forall p | 0 <= p < |rs| && rs[p].expert == e ensures p in ps {
      if p < n {
        assert rs[..n][p] == rs[p];
        var i :| 0 <= i < |front| && front[i] == p;
        assert ps[i] == p;
      } else {
        assert ps[|front|] == n;
      }
    }
  }

  /** Adding one route adds it to its own expert's segment and to no other. */
  lemma {:induction false} SegmentsStep(
      rs: seq<Route>, r: Route, lo: int, hi: int, loaded: set<int>, f: Route -> real, t: nat)
    ensures Gathered(Segments(rs + [r], lo, hi, loaded), f, t)
         == Gathered(Segments(rs, lo, hi, loaded), f, t)
            + if lo <= r.expert < hi && r.expert in loaded then Gathered([r], f, t) else 0.0
    ensures multiset(Segments(rs + [r], lo, hi, loaded))
         == multiset(Segments(rs, lo, hi, loaded))
            + if lo <= r.expert < hi && r.expert in loaded then multiset{r} else multiset{}
    decreases hi - lo
  {
    hide Gathered, Select;
    if lo < hi {
      var e := hi - 1;
      var s := if e in loaded then Select(rs, e) else [];
      var s' := if e in loaded then Select(rs + [r], e) else [];
      SegmentsStep(rs, r, lo, e, loaded, f, t);
      SelectStep(rs, r, e);
      GatheredAppend(Segments(rs, lo, e, loaded), s, f, t);
      GatheredAppend(Segments(rs + [r], lo, e, loaded), s', f, t);
      if r.expert == e && e in loaded { GatheredAppend(s, [r], f, t); } else { assert s' == s; }
    } else {
      assert Segments(rs + [r], lo, hi, loaded) == Segments(rs, lo, hi, loaded) == [];
    }
  }

  lemma {:induction false} NoSegments(lo: int, hi: int, loaded: set<int>)
    ensures Segments([], lo, hi, loaded) == []
    decreases hi - lo
  {
    if lo < hi { NoSegments(lo, hi - 1, loaded); }
  }

  /** Grouping by expert loses no route, doubles none, and changes no token's sum. */
  lemma {:induction false} GroupingKeepsSums(
      rs: seq<Route>, lo: int, hi: int, loaded: set<int>, f: Route -> real, t: nat)
    ensures multiset(Segments(rs, lo, hi, loaded)) == multiset(InRange(rs, lo, hi, loaded))
    ensures Gathered(Segments(rs, lo, hi, loaded), f, t) == Gathered(InRange(rs, lo, hi, loaded), f, t)
    decreases |rs|
  {
    hide Gathered;
    if rs == [] {
      NoSegments(lo, hi, loaded);
    } else {
      var front, r := rs[..|rs| - 1], rs[|rs| - 1];
      assert rs == front + [r];
      GroupingKeepsSums(front, lo, hi, loaded, f, t);
      SegmentsStep(front, r, lo, hi, loaded, f, t);
      InRangeStep(front, r, lo, hi, loaded);
      if lo <= r.expert < hi && r.expert in loaded { GatheredAppend(InRange(front, lo, hi, loaded), [r], f, t); }
    }
  }

  lemma {:induction false} SplitInTwo(
      rs: seq<Route>, lo: int, mid: int, hi: int, loaded: set<int>, f: Route -> real, t: nat)
    requires lo <= mid <= hi
    ensures Gathered(InRange(rs, lo, hi, loaded), f, t)
         == Gathered(InRange(rs, lo, mid, loaded), f, t) + Gathered(InRange(rs, mid, hi, loaded), f, t)
    decreases |rs|
  {
    hide Gathered;
    if rs != [] {
      var front, r := rs[..|rs| - 1], rs[|rs| - 1];
      assert rs == front + [r];
      SplitInTwo(front, lo, mid, hi, loaded, f, t);
      InRangeStep(front, r, lo, hi, loaded);
      InRangeStep(front, r, lo, mid, loaded);
      InRangeStep(front, r, mid, hi, loaded);
      if lo <= r.expert < hi && r.expert in loaded {
        GatheredAppend(InRange(front, lo, hi, loaded), [r], f, t);
        if r.expert < mid { GatheredAppend(InRange(front, lo, mid, loaded), [r], f, t); }
        else { GatheredAppend(InRange(front, mid, hi, loaded), [r], f, t); }
      }
    } else {
      NothingGathered(f, t);
    }
  }

  lemma NothingGathered(f: Route -> real, t: nat)
    ensures Gathered([], f, t) == 0.0
  {
  }

  /** The sums of the ranges between consecutive cuts. */
  function OverRanges(rs: seq<Route>, cuts: seq<int>, loaded: set<int>, f: Route -> real, t: nat): real
    requires cuts != []
  {
    if |cuts| == 1 then 0.0
    else Gathered(InRange(rs, cuts[0], cuts[1], loaded), f, t) + OverRanges(rs, cuts[1..], loaded, f, t)
  }

  ghost predicate Ascending(cuts: seq<int>) { forall i, j :: 0 <= i <= j < |cuts| ==> cuts[i] <= cuts[j] }

  /** Experts shared out over any consecutive ranges: the parts add up to the whole. */
  lemma {:induction false} RangesAddUp(rs: seq<Route>, cuts: seq<int>, loaded: set<int>, f: Route -> real, t: nat)
    requires cuts != [] && Ascending(cuts)
    ensures OverRanges(rs, cuts, loaded, f, t) == Gathered(InRange(rs, cuts[0], cuts[|cuts| - 1], loaded), f, t)
    decreases |cuts|
  {
    if |cuts| == 1 {
      EmptyRange(rs, cuts[0], loaded);
    } else {
      hide Gathered, InRange;
      RangesAddUp(rs, cuts[1..], loaded, f, t);
      SplitInTwo(rs, cuts[0], cuts[1], cuts[|cuts| - 1], loaded, f, t);
    }
  }

  lemma {:induction false} EmptyRange(rs: seq<Route>, at: int, loaded: set<int>)
    ensures InRange(rs, at, at, loaded) == []
    decreases |rs|
  {
    if rs != [] { EmptyRange(rs[..|rs| - 1], at, loaded); }
  }
}
