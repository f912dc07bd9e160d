/** Compacting one token's routes to the experts that have any: the host side of the CUDA path. */
module RouteCompaction {
  import opened Routes

  /** The choices by position; `expert` is the local expert number, in range or not. */
  function Choices(ids: seq<int>, weights: seq<real>, start: int, n: nat): seq<Route>
    requires n <= |ids| == |weights|
  {
    if n == 0 then [] else Choices(ids, weights, start, n - 1) + [Route(n - 1, ids[n - 1] - start, weights[n - 1])]
  }

  /** The i-th choice has the i-th id and the i-th weight. */
  lemma {:induction false} ChoicesExactly(ids: seq<int>, weights: seq<real>, start: int, n: nat, i: nat)
    requires i < n <= |ids| == |weights|
    ensures |Choices(ids, weights, start, n)| == n
    ensures Choices(ids, weights, start, n)[i] == Route(i, ids[i] - start, weights[i])
  {
    ChoicesCount(ids, weights, start, n - 1);
    if i < n - 1 { ChoicesExactly(ids, weights, start, n - 1, i); }
  }

  lemma {:induction false} ChoicesCount(ids: seq<int>, weights: seq<real>, start: int, n: nat)
    requires n <= |ids| == |weights|
    ensures |Choices(ids, weights, start, n)| == n
  {
    if n > 0 { ChoicesCount(ids, weights, start, n - 1); }
  }

  function Locals(experts: nat): (l: set<int>)
    ensures forall e :: e in l <==> 0 <= e < experts
  {
    if experts == 0 then {} else Locals(experts - 1) + {experts - 1}
  }

  /** Compact experts, and for every route its slot and its position. */
  datatype Compact = Compact(localIds: seq<nat>, slots: seq<nat>, positions: seq<nat>, starts: seq<nat>)

  function Positions(rs: seq<Route>): (p: seq<nat>)
    ensures |p| == |rs|
  {
    seq(|rs|, i requires 0 <= i < |rs| => rs[i].token)
  }

  /** What the compact form says about the experts below n. */
  predicate Compacts(c: Compact, rs: seq<Route>, n: nat) {
    && |c.starts| == |c.localIds| + 1 && c.starts[0] == 0
    && c.starts[|c.localIds|] == |c.positions| == |c.slots|
    && (forall s :: 0 <= s < |c.localIds| ==> c.localIds[s] < n && RunOf(c, rs, s))
    && (forall s, s' :: 0 <= s < s' < |c.localIds| ==> c.localIds[s] < c.localIds[s'])
    && (forall e :: 0 <= e < n ==> (e in c.localIds <==> Select(rs, e) != []))
    && c.positions == Positions(Segments(rs, 0, n, Locals(n)))
  }

  /** Slot s owns a non-empty run of routes: its expert's positions, in their order. */
  predicate RunOf(c: Compact, rs: seq<Route>, s: nat)
    requires |c.starts| == |c.localIds| + 1 && s < |c.localIds|
  {
    && c.starts[s] < c.starts[s + 1] <= |c.positions| == |c.slots|
    && c.positions[c.starts[s]..c.starts[s + 1]] == Positions(Select(rs, c.localIds[s]))
    && forall j :: c.starts[s] <= j < c.starts[s + 1] ==> c.slots[j] == s
  }

  lemma {:induction false} SegmentsOfLocals(rs: seq<Route>, n: nat, a: set<int>, b: set<int>)
    requires forall e :: 0 <= e < n ==> (e in a <==> e in b)
    ensures Segments(rs, 0, n, a) == Segments(rs, 0, n, b)
    decreases n
  {
    if n > 0 { SegmentsOfLocals(rs, n - 1, a, b); }
  }

  lemma NextSegment(rs: seq<Route>, n: nat)
    ensures Segments(rs, 0, n + 1, Locals(n + 1)) == Segments(rs, 0, n, Locals(n)) + Select(rs, n)
  {
    SegmentsOfLocals(rs, n, Locals(n + 1), Locals(n));
  }

  /** An expert with routes takes the next slot. */
  function Extended(c: Compact, n: nat, run: seq<nat>): Compact {
    Compact(c.localIds + [n], c.slots + seq(|run|, i => |c.localIds|), c.positions + run,
      c.starts + [|c.positions| + |run|])
  }

  lemma CompactsMore(c: Compact, rs: seq<Route>, n: nat)
    requires Compacts(c, rs, n) && Select(rs, n) != []
    ensures Compacts(Extended(c, n, Positions(Select(rs, n))), rs, n + 1)
  {
    hide Select, Segments, Locals, RunOf;
    var run := Positions(Select(rs, n));
    var d := Extended(c, n, run);
    NextSegment(rs, n);
    NewRun(c, rs, n);
    forall s | 0 <= s < |c.localIds| ensures RunOf(d, rs, s) { OldRun(c, rs, n, run, s); }
    forall e | 0 <= e < n + 1 ensures e in d.localIds <==> Select(rs, e) != [] {
      if e < n { assert e in d.localIds <==> e in c.localIds; } else { assert d.localIds[|c.localIds|] == n; }
    }
  }

  lemma NewRun(c: Compact, rs: seq<Route>, n: nat)
    requires |c.starts| == |c.localIds| + 1 && c.starts[|c.localIds|] == |c.positions| == |c.slots|
             && Select(rs, n) != []
    ensures RunOf(Extended(c, n, Positions(Select(rs, n))), rs, |c.localIds|)
  {
    hide Select;
    var run := Positions(Select(rs, n));
    var d := Extended(c, n, run);
    var m := |c.localIds|;
    assert d.positions[d.starts[m]..d.starts[m + 1]] == run;
  }

  lemma OldRun(c: Compact, rs: seq<Route>, n: nat, run: seq<nat>, s: nat)
    requires |c.starts| == |c.localIds| + 1 && |c.positions| == |c.slots| && s < |c.localIds| && RunOf(c, rs, s)
    ensures RunOf(Extended(c, n, run), rs, s)
  {
    hide Select, Positions;
    var d := Extended(c, n, run);
    assert d.positions[d.starts[s]..d.starts[s + 1]] == c.positions[c.starts[s]..c.starts[s + 1]];
  }

  lemma CompactsSkip(c: Compact, rs: seq<Route>, n: nat)
    requires Compacts(c, rs, n) && Select(rs, n) == []
    ensures Compacts(c, rs, n + 1)
  {
    hide Select, Segments, RunOf;
    NextSegment(rs, n);
    assert Segments(rs, 0, n, Locals(n)) + [] == Segments(rs, 0, n, Locals(n));
  }

  lemma CompactsNothing(rs: seq<Route>)
    ensures Compacts(Compact([], [], [], [0]), rs, 0)
  {
  }

  /** Positions by local expert, as they are pushed. */
  method RoutesByLocal(ids: seq<int>, weights: seq<real>, start: int, experts: nat) returns (byLocal: array<seq<nat>>)
    requires |ids| == |weights|
    ensures fresh(byLocal) && byLocal.Length == experts
    ensures forall e :: 0 <= e < experts ==> byLocal[e] == Positions(Select(Choices(ids, weights, start, |ids|), e))
  {
    hide Select, Positions;
    byLocal := new seq<nat>[experts](_ => []);
    NoChoices(ids, weights, start);
    for p := 0 to |ids|
      invariant forall e :: 0 <= e < experts ==> byLocal[e] == Positions(Select(Choices(ids, weights, start, p), e))
    {
      var local := ids[p] - start;
      ChoicesStep(ids, weights, start, p, experts);
      if 0 <= local < experts { byLocal[local] := byLocal[local] + [p]; }
    }
  }

  lemma NoChoices(ids: seq<int>, weights: seq<real>, start: int)
    requires |ids| == |weights|
    ensures forall e: int :: Positions(Select(Choices(ids, weights, start, 0), e)) == []
  {
  }

  lemma ChoicesStep(ids: seq<int>, weights: seq<real>, start: int, p: nat, experts: nat)
    requires p < |ids| == |weights|
    ensures forall e: int :: Positions(Select(Choices(ids, weights, start, p + 1), e))
                          == Positions(Select(Choices(ids, weights, start, p), e))
                             + if e == ids[p] - start then [p] else []
  {
    hide Select;
    var rs, r := Choices(ids, weights, start, p), Route(p, ids[p] - start, weights[p]);
    forall e: int
      ensures Positions(Select(rs + [r], e)) == Positions(Select(rs, e)) + if e == r.expert then [p] else []
    {
      SelectStep(rs, r, e);
    }
  }

  /** `gguf_single_token_route_slots`, host side. */
  method CompactRoutes(ids: seq<int>, weights: seq<real>, start: int, experts: nat) returns (c: Compact)
    requires |ids| == |weights|
    ensures Compacts(c, Choices(ids, weights, start, |ids|), experts)
  {
    hide Compacts, Positions;
    var byLocal := RoutesByLocal(ids, weights, start, experts);
    ghost var rs := Choices(ids, weights, start, |ids|);
    c := Compact([], [], [], [0]);
    CompactsNothing(rs);
    for local := 0 to experts
      invariant Compacts(c, rs, local)
      invariant byLocal.Length == experts && forall e :: 0 <= e < experts ==> byLocal[e] == Positions(Select(rs, e))
    {
      var positions := byLocal[local];
      PositionsSize(Select(rs, local));
      if positions == [] {
        CompactsSkip(c, rs, local);
      } else {
        CompactsMore(c, rs, local);
        c := AppendRun(c, local, positions);
      }
    }
  }

  lemma PositionsSize(rs: seq<Route>)
    ensures |Positions(rs)| == |rs|
  {
  }

  method AppendRun(c: Compact, local: nat, positions: seq<nat>) returns (d: Compact)
    ensures d == Extended(c, local, positions)
  {
    var activePos := |c.localIds|;
    var slots, out := c.slots, c.positions;
    for i := 0 to |positions|
      invariant slots == c.slots + seq(i, k => activePos) && out == c.positions + positions[..i]
    {
      slots := slots + [activePos];
      out := out + [positions[i]];
    }
    assert positions[..|positions|] == positions;
    d := Compact(c.localIds + [local], slots, out, c.starts + [|out|]);
  }

  // ----- what the compact form means -----

  /** The compact routes: expert by slot, weight by position. */
  function Routed(c: Compact, weights: seq<real>): seq<Route>
    requires |c.slots| == |c.positions|
    requires forall j :: 0 <= j < |c.slots| ==> c.slots[j] < |c.localIds| && c.positions[j] < |weights|
  {
    seq(|c.slots|,
      j requires 0 <= j < |c.slots| => Route(c.positions[j], c.localIds[c.slots[j]], weights[c.positions[j]]))
  }

  lemma {:induction false} ChoicesAre(ids: seq<int>, weights: seq<real>, start: int, n: nat)
    requires n <= |ids| == |weights|
    ensures var rs := Choices(ids, weights, start, n);
            |rs| == n && forall i :: 0 <= i < n ==> rs[i] == Route(i, ids[i] - start, weights[i])
    decreases n
  {
    if n > 0 { ChoicesAre(ids, weights, start, n - 1); }
  }

  /** A route with its position's weight. */
  predicate FromInput(r: Route, ids: seq<int>, weights: seq<real>, start: int)
    requires |ids| == |weights|
  {
    r.token < |ids| && r == Route(r.token, ids[r.token] - start, weights[r.token])
  }

  lemma {:induction false} SelectFromInput(rs: seq<Route>, e: int, ids: seq<int>, weights: seq<real>, start: int)
    requires |ids| == |weights| && forall i :: 0 <= i < |rs| ==> FromInput(rs[i], ids, weights, start)
    ensures forall i :: 0 <= i < |Select(rs, e)| ==>
              FromInput(Select(rs, e)[i], ids, weights, start) && Select(rs, e)[i].expert == e
    decreases |rs|
  {
    if rs != [] { SelectFromInput(rs[..|rs| - 1], e, ids, weights, start); }
  }

  lemma {:induction false} SegmentsFromInput(
      rs: seq<Route>, n: nat, loaded: set<int>, ids: seq<int>, weights: seq<real>, start: int)
    requires |ids| == |weights| && forall i :: 0 <= i < |rs| ==> FromInput(rs[i], ids, weights, start)
    ensures forall i :: 0 <= i < |Segments(rs, 0, n, loaded)| ==>
              FromInput(Segments(rs, 0, n, loaded)[i], ids, weights, start)
    decreases n
  {
    hide FromInput;
    if n > 0 {
      SegmentsFromInput(rs, n - 1, loaded, ids, weights, start);
      SelectFromInput(rs, n - 1, ids, weights, start);
    }
  }

  /** Every route index lies in exactly one slot's run. */
  lemma {:induction false} RunAround(c: Compact, rs: seq<Route>, n: nat, j: nat, m: nat) returns (s: nat)
    requires Compacts(c, rs, n) && m <= |c.localIds| && j < c.starts[m]
    ensures s < m && c.starts[s] <= j < c.starts[s + 1]
    decreases m
  {
    if m > 0 && c.starts[m - 1] <= j { s := m - 1; } else { s := RunAround(c, rs, n, j, m - 1); }
  }

  /** The expert that a route's slot names is the expert its position chose. */
  lemma SlotNamesExpert(c: Compact, ids: seq<int>, weights: seq<real>, start: int, n: nat, j: nat)
    requires |ids| == |weights| && Compacts(c, Choices(ids, weights, start, |ids|), n) && j < |c.slots|
    ensures c.slots[j] < |c.localIds| && c.positions[j] < |ids| && c.localIds[c.slots[j]] == ids[c.positions[j]] - start
  {
    hide Select, Segments;
    var rs := Choices(ids, weights, start, |ids|);
    var s := RunAround(c, rs, n, j, |c.localIds|);
    assert RunOf(c, rs, s);
    var e := c.localIds[s];
    ChoicesAre(ids, weights, start, |ids|);
    SelectFromInput(rs, e, ids, weights, start);
    var i := j - c.starts[s];
    assert c.positions[j] == c.positions[c.starts[s]..c.starts[s + 1]][i] == Select(rs, e)[i].token;
  }

  /** The compact routes are the chosen in-range routes, grouped by expert: each exactly once, with
      its own weight. */
  lemma RoutedIsSegments(c: Compact, ids: seq<int>, weights: seq<real>, start: int, n: nat)
    requires |ids| == |weights| && Compacts(c, Choices(ids, weights, start, |ids|), n)
    ensures forall j :: 0 <= j < |c.slots| ==> c.slots[j] < |c.localIds| && c.positions[j] < |weights|
    ensures Routed(c, weights) == Segments(Choices(ids, weights, start, |ids|), 0, n, Locals(n))
  {
    hide Select, Segments, Compacts;
    var rs := Choices(ids, weights, start, |ids|);
    var g := Segments(rs, 0, n, Locals(n));
    PositionsAre(c, rs, n);
    ChoicesAre(ids, weights, start, |ids|);
    SegmentsFromInput(rs, n, Locals(n), ids, weights, start);
    forall j | 0 <= j < |c.slots|
      ensures c.slots[j] < |c.localIds| && c.positions[j] < |weights|
      ensures Route(c.positions[j], c.localIds[c.slots[j]], weights[c.positions[j]]) == g[j]
    {
      SlotNamesExpert(c, ids, weights, start, n, j);
      assert FromInput(g[j], ids, weights, start);
    }
  }

  lemma PositionsAre(c: Compact, rs: seq<Route>, n: nat)
    requires Compacts(c, rs, n)
    ensures var g := Segments(rs, 0, n, Locals(n));
            |c.slots| == |c.positions| == |g| && forall j :: 0 <= j < |g| ==> c.positions[j] == g[j].token
  {
  }

  function Total(rs: seq<Route>, f: Route -> real): real {
    if rs == [] then 0.0 else f(rs[0]) + Total(rs[1..], f)
  }

  lemma {:induction false} TotalWithout(rs: seq<Route>, i: nat, f: Route -> real)
    requires i < |rs|
    ensures Total(rs, f) == f(rs[i]) + Total(rs[..i] + rs[i + 1..], f)
    decreases i
  {
    if i == 0 {
      assert rs[..0] + rs[1..] == rs[1..];
    } else {
      TotalWithout(rs[1..], i - 1, f);
      assert (rs[..i] + rs[i + 1..])[1..] == rs[1..][..i - 1] + rs[1..][i..];
    }
  }

  lemma CancelOne(a: seq<Route>, b: seq<Route>, i: nat)
    requires a != [] && i < |b| && b[i] == a[0] && multiset(a) == multiset(b)
    ensures multiset(a[1..]) == multiset(b[..i] + b[i + 1..])
  {
    WithoutOne(a, 0);
    WithoutOne(b, i);
    assert a[..0] + a[1..] == a[1..];
  }

  /** A sum does not depend on the order. */
  lemma {:induction false} TotalOfMultiset(a: seq<Route>, b: seq<Route>, f: Route -> real)
    requires multiset(a) == multiset(b)
    ensures Total(a, f) == Total(b, f)
    decreases |a|
  {
    if a == [] {
      assert |multiset(b)| == 0;
    } else {
      assert a[0] in multiset(a);
      var i :| 0 <= i < |b| && b[i] == a[0];
      var rest := b[..i] + b[i + 1..];
      CancelOne(a, b, i);
      TotalOfMultiset(a[1..], rest, f);
      TotalWithout(b, i, f);
    }
  }

  lemma WithoutOne(s: seq<Route>, i: nat)
    requires i < |s|
    ensures multiset(s[..i] + s[i + 1..]) == multiset(s) - multiset{s[i]}
  {
    assert s == s[..i] + ([s[i]] + s[i + 1..]);
  }

  /** The weighted sum over the compact routes is the one over the raw in-range choices. */
  lemma CompactionKeepsSum(c: Compact, ids: seq<int>, weights: seq<real>, start: int, n: nat, f: Route -> real)
    requires |ids| == |weights| && Compacts(c, Choices(ids, weights, start, |ids|), n)
    ensures forall j :: 0 <= j < |c.slots| ==> c.slots[j] < |c.localIds| && c.positions[j] < |weights|
    ensures var raw := InRange(Choices(ids, weights, start, |ids|), 0, n, Locals(n));
            multiset(Routed(c, weights)) == multiset(raw) && Total(Routed(c, weights), f) == Total(raw, f)
  {
    hide Compacts, Routed, Segments, InRange, Choices, Total;
    var rs := Choices(ids, weights, start, |ids|);
    RoutedIsSegments(c, ids, weights, start, n);
    GroupingKeepsSums(rs, 0, n, Locals(n), f, 0);
    assert multiset(Segments(rs, 0, n, Locals(n))) == multiset(InRange(rs, 0, n, Locals(n)));
    TotalOfMultiset(Segments(rs, 0, n, Locals(n)), InRange(rs, 0, n, Locals(n)), f);
  }
}
