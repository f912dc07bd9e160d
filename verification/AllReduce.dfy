/** The shared-memory all-reduce: N ranks, two ever-growing counters, one buffer row per rank.
    Every memory access another rank can observe is one step of the relation below, so a
    schedule (a sequence of rank numbers) is an arbitrary interleaving. A rank scheduled while
    its spin condition is false does nothing. */
module AllReduce {
  import opened Sums

  const COUNTER_MODULUS := 0x1_0000_0000_0000_0000

  /** `input(r, g, i)` is cell i of what rank r brings to generation g; `add` and `zero` are the
      float addition and 0.0f of the summation loop and nothing is assumed about them. */
  datatype Config<!T> = Config(
    n: nat, count: nat, gens: nat,
    input: (nat, nat, nat) -> T, zero: T, add: (T, T) -> T)
  {
    ghost predicate Valid() { n > 1 && count > 0 && Times(n, gens) < COUNTER_MODULUS }

    /** The sum of generation g's cell i over ranks 0..k, added in rank order. */
    function PartialSum(g: nat, i: nat, k: nat): T {
      if k == 0 then zero else add(PartialSum(g, i, k - 1), input(k - 1, g, i))
    }

    function RankOrderSum(g: nat): seq<T> { seq(count, (i: nat) => PartialSum(g, i, n)) }

    function InputRow(r: nat, g: nat): seq<T> { seq(count, (i: nat) => input(r, g, i)) }
  }

  datatype Phase<T> =
    | Copy(i: nat)                    // memcpy: cells 0..i are in the rank's buffer row
    | Arrive                          // about to add to counter 0
    | WaitArrive                      // spinning on counter 0
    | Sum(i: nat, k: nat, acc: T)     // cells 0..i written back, ranks 0..k added for cell i
    | Depart                          // about to add to counter 1
    | WaitDepart                      // spinning on counter 1
    | Finished

  datatype Rank<T> = Rank(gen: nat, phase: Phase<T>, data: seq<T>, results: seq<seq<T>>)

  datatype State<T> = State(arrived: nat, departed: nat, buf: seq<seq<T>>, ranks: seq<Rank<T>>)

  ghost predicate Init<T>(c: Config<T>, s: State<T>) {
    && s.arrived == 0 && s.departed == 0
    && |s.buf| == c.n && (forall r :: 0 <= r < c.n ==> |s.buf[r]| == c.count)
    && |s.ranks| == c.n
    && forall r :: 0 <= r < c.n ==> s.ranks[r] == Enter(c, r, 0, [])
  }

  /** The rank as it enters generation g, or as it leaves the last one. */
  function Enter<T>(c: Config<T>, r: nat, g: nat, results: seq<seq<T>>): Rank<T> {
    if g < c.gens then Rank(g, Copy(0), c.InputRow(r, g), results)
    else Rank(g, Finished, [], results)
  }

  predicate Shape<T>(c: Config<T>, s: State<T>) {
    && |s.buf| == c.n && (forall r :: 0 <= r < c.n ==> |s.buf[r]| == c.count)
    && |s.ranks| == c.n
    && forall r :: 0 <= r < c.n ==> WellFormed(c, s.ranks[r])
  }

  predicate WellFormed<T>(c: Config<T>, rk: Rank<T>) {
    && rk.gen <= c.gens
    && (rk.phase.Finished? <==> rk.gen == c.gens)
    && (!rk.phase.Finished? ==> |rk.data| == c.count)
    && (rk.phase.Copy? ==> rk.phase.i <= c.count)
    && (rk.phase.Sum? ==> rk.phase.i <= c.count && rk.phase.k <= c.n && (rk.phase.i == c.count ==> rk.phase.k == 0))
  }

  /** The spin condition for generation g: the counter has reached (g + 1) * n, in uint64. */
  predicate Reached(counter: nat, g: nat, n: nat) { counter >= Times(n, g + 1) % COUNTER_MODULUS }

  predicate Enabled<T>(c: Config<T>, s: State<T>, r: nat)
    requires Shape(c, s)
  {
    r < c.n &&
    match s.ranks[r].phase
    case WaitArrive => Reached(s.arrived, s.ranks[r].gen, c.n)
    case WaitDepart => Reached(s.departed, s.ranks[r].gen, c.n)
    case Finished => false
    case _ => true
  }

  function Next<T>(c: Config<T>, s: State<T>, r: nat): State<T>
    requires Shape(c, s) && Enabled(c, s, r)
  {
    var rk := s.ranks[r];
    match rk.phase
    case Copy(i) =>
      if i < c.count then
        s.(buf := s.buf[r := s.buf[r][i := rk.data[i]]], ranks := s.ranks[r := rk.(phase := Copy(i + 1))])
      else s.(ranks := s.ranks[r := rk.(phase := Arrive)])
    case Arrive =>
      s.(arrived := (s.arrived + 1) % COUNTER_MODULUS, ranks := s.ranks[r := rk.(phase := WaitArrive)])
    case WaitArrive => s.(ranks := s.ranks[r := rk.(phase := Sum(0, 0, c.zero))])
    case Sum(i, k, acc) =>
      if i == c.count then s.(ranks := s.ranks[r := rk.(phase := Depart)])
      else if k < c.n then
        s.(ranks := s.ranks[r := rk.(phase := Sum(i, k + 1, c.add(acc, s.buf[k][i])))])
      else
        s.(ranks := s.ranks[r := rk.(phase := Sum(i + 1, 0, c.zero), data := rk.data[i := acc])])
    case Depart =>
      s.(departed := (s.departed + 1) % COUNTER_MODULUS, ranks := s.ranks[r := rk.(phase := WaitDepart)])
    case WaitDepart =>
      s.(ranks := s.ranks[r := Enter(c, r, rk.gen + 1, rk.results + [rk.data])])
    case Finished => s
  }

  // ----- the invariant -----

  function Arrivals<T>(rk: Rank<T>): nat {
    rk.gen + if rk.phase.WaitArrive? || rk.phase.Sum? || rk.phase.Depart? || rk.phase.WaitDepart? then 1 else 0
  }

  function Departures<T>(rk: Rank<T>): nat { rk.gen + if rk.phase.WaitDepart? then 1 else 0 }

  predicate PastArrival<T>(rk: Rank<T>) { rk.phase.Sum? || rk.phase.Depart? || rk.phase.WaitDepart? }

  function ArrivalsOf<T>(ranks: seq<Rank<T>>): seq<nat> {
    seq(|ranks|, i requires 0 <= i < |ranks| => Arrivals(ranks[i]))
  }

  function DeparturesOf<T>(ranks: seq<Rank<T>>): seq<nat> {
    seq(|ranks|, i requires 0 <= i < |ranks| => Departures(ranks[i]))
  }

  /** What one rank's own cells hold. */
  ghost predicate Local<T>(c: Config<T>, s: State<T>, r: nat)
    requires Shape(c, s) && r < c.n
  {
    var rk := s.ranks[r];
    && rk.results == seq(rk.gen, (g: nat) => c.RankOrderSum(g))
    && (match rk.phase
        case Copy(i) => rk.data == c.InputRow(r, rk.gen) && s.buf[r][..i] == c.InputRow(r, rk.gen)[..i]
        case Sum(i, k, acc) =>
          && rk.data[..i] == c.RankOrderSum(rk.gen)[..i]
          && (i < c.count ==> acc == c.PartialSum(rk.gen, i, k))
        case Depart => rk.data == c.RankOrderSum(rk.gen)
        case WaitDepart => rk.data == c.RankOrderSum(rk.gen)
        case _ => true)
    && (!rk.phase.Copy? && !rk.phase.Finished? ==> s.buf[r] == c.InputRow(r, rk.gen))
  }

  /** How far apart two ranks can be. */
  ghost predicate Lockstep<T>(a: Rank<T>, b: Rank<T>) {
    && Departures(b) >= a.gen
    && (PastArrival(a) ==> Arrivals(b) >= a.gen + 1)
  }

  ghost predicate Inv<T>(c: Config<T>, s: State<T>) {
    && Shape(c, s)
    && s.arrived == Total(ArrivalsOf(s.ranks))
    && s.departed == Total(DeparturesOf(s.ranks))
    && (forall r :: 0 <= r < c.n ==> Local(c, s, r))
    && (forall a, b :: 0 <= a < c.n && 0 <= b < c.n ==> Lockstep(s.ranks[a], s.ranks[b]))
  }

  lemma InitInv<T>(c: Config<T>, s: State<T>)
    requires c.Valid() && Init(c, s)
    ensures Inv(c, s)
  {
    assert forall i :: 0 <= i < c.n ==> Arrivals(s.ranks[i]) == 0 && Departures(s.ranks[i]) == 0;
    TotalAtMost(ArrivalsOf(s.ranks), 0);
    TotalAtMost(DeparturesOf(s.ranks), 0);
  }

  /** Neither counter wraps: it never exceeds one count per rank and generation. */
  lemma CountersFit<T>(c: Config<T>, s: State<T>)
    requires c.Valid() && Inv(c, s)
    ensures s.arrived <= Times(c.n, c.gens) < COUNTER_MODULUS
    ensures s.departed <= Times(c.n, c.gens)
  {
    TimesSwap(c.n, c.gens);
    TotalAtMost(ArrivalsOf(s.ranks), c.gens);
    TotalAtMost(DeparturesOf(s.ranks), c.gens);
  }

  lemma TargetFits(g: nat, gens: nat, n: nat)
    requires g < gens && Times(n, gens) < COUNTER_MODULUS
    ensures Times(n, g + 1) % COUNTER_MODULUS == Times(n, g + 1) == Times(g + 1, n)
  {
    TimesMonotone(n, g + 1, gens);
    TimesSwap(n, g + 1);
  }

  /** Passing the first spin of generation g means that every rank has arrived in g. */
  lemma AllArrived<T>(c: Config<T>, s: State<T>, r: nat)
    requires c.Valid() && Inv(c, s) && r < c.n
    requires s.ranks[r].phase.WaitArrive? && Reached(s.arrived, s.ranks[r].gen, c.n)
    ensures forall b :: 0 <= b < c.n ==> Arrivals(s.ranks[b]) == s.ranks[r].gen + 1
  {
    var g := s.ranks[r].gen;
    var xs := ArrivalsOf(s.ranks);
    TargetFits(g, c.gens, c.n);
    forall b | 0 <= b < c.n ensures xs[b] <= g + 1 {
      assert Lockstep(s.ranks[b], s.ranks[r]);
    }
    TotalAtMost(xs, g + 1);
    assert Total(xs) == Times(g + 1, |xs|);
    assert forall b :: 0 <= b < c.n ==> xs[b] == Arrivals(s.ranks[b]);
  }

  /** Passing the second spin of generation g means that every rank has departed from g. */
  lemma AllDeparted<T>(c: Config<T>, s: State<T>, r: nat)
    requires c.Valid() && Inv(c, s) && r < c.n
    requires s.ranks[r].phase.WaitDepart? && Reached(s.departed, s.ranks[r].gen, c.n)
    ensures forall b :: 0 <= b < c.n ==> Departures(s.ranks[b]) == s.ranks[r].gen + 1
  {
    var g := s.ranks[r].gen;
    var xs := DeparturesOf(s.ranks);
    TargetFits(g, c.gens, c.n);
    forall b | 0 <= b < c.n ensures xs[b] <= g + 1 {
      assert Lockstep(s.ranks[b], s.ranks[r]);
      assert Lockstep(s.ranks[r], s.ranks[b]);
    }
    TotalAtMost(xs, g + 1);
    assert Total(xs) == Times(g + 1, |xs|);
    assert forall b :: 0 <= b < c.n ==> xs[b] == Departures(s.ranks[b]);
  }

  /** While any rank is adding up generation g, every buffer row holds its owner's generation-g
      input: no row is overwritten while somebody still reads it. */
  lemma ReadersSeeStableBuffers<T>(c: Config<T>, s: State<T>, reader: nat, owner: nat)
    requires c.Valid() && Inv(c, s) && reader < c.n && owner < c.n
    requires s.ranks[reader].phase.Sum?
    ensures s.buf[owner] == c.InputRow(owner, s.ranks[reader].gen)
    ensures !s.ranks[owner].phase.Copy?
  {
    assert Lockstep(s.ranks[reader], s.ranks[owner]);
    assert Lockstep(s.ranks[owner], s.ranks[reader]);
    assert Local(c, s, owner);
  }

  lemma CountersStep<T>(c: Config<T>, s: State<T>, r: nat)
    requires c.Valid() && Inv(c, s) && Enabled(c, s, r)
    ensures var s' := Next(c, s, r);
            s'.arrived == Total(ArrivalsOf(s'.ranks)) && s'.departed == Total(DeparturesOf(s'.ranks))
  {
    var s' := Next(c, s, r);
    CountersMove(c, s, r);
    hide Next, Enabled, Arrivals, Departures, Local, Lockstep;
    assert ArrivalsOf(s'.ranks) == ArrivalsOf(s.ranks)[r := Arrivals(s'.ranks[r])];
    assert DeparturesOf(s'.ranks) == DeparturesOf(s.ranks)[r := Departures(s'.ranks[r])];
    TotalUpdate(ArrivalsOf(s.ranks), r, Arrivals(s'.ranks[r]));
    TotalUpdate(DeparturesOf(s.ranks), r, Departures(s'.ranks[r]));
  }

  /** A counter moves exactly as the rank's own count of its increments does. */
  lemma CountersMove<T>(c: Config<T>, s: State<T>, r: nat)
    requires c.Valid() && Inv(c, s) && Enabled(c, s, r)
    ensures var s' := Next(c, s, r);
      && |s'.ranks| == c.n == |s.ranks| && r < c.n && (forall q :: 0 <= q < c.n && q != r ==> s'.ranks[q] == s.ranks[q])
      && s'.arrived == s.arrived + Arrivals(s'.ranks[r]) - Arrivals(s.ranks[r])
      && s'.departed == s.departed + Departures(s'.ranks[r]) - Departures(s.ranks[r])
  {
    CountersBelowModulus(c, s, r);
    hide Local, Lockstep, Total;
  }

  /** A counter about to be incremented is still short of its last value. */
  lemma CountersBelowModulus<T>(c: Config<T>, s: State<T>, r: nat)
    requires c.Valid() && Inv(c, s) && Enabled(c, s, r)
    ensures s.arrived + 1 < COUNTER_MODULUS || !s.ranks[r].phase.Arrive?
    ensures s.departed + 1 < COUNTER_MODULUS || !s.ranks[r].phase.Depart?
  {
    var g := s.ranks[r].gen;
    TimesSwap(c.n, c.gens);
    if s.ranks[r].phase.Arrive? {
      var xs := ArrivalsOf(s.ranks)[r := g + 1];
      TotalUpdate(ArrivalsOf(s.ranks), r, g + 1);
      TotalAtMost(xs, c.gens);
    } else if s.ranks[r].phase.Depart? {
      var xs := DeparturesOf(s.ranks)[r := g + 1];
      TotalUpdate(DeparturesOf(s.ranks), r, g + 1);
      TotalAtMost(xs, c.gens);
    }
  }

  lemma LockstepStep<T>(c: Config<T>, s: State<T>, r: nat)
    requires c.Valid() && Inv(c, s) && Enabled(c, s, r)
    ensures var s' := Next(c, s, r);
            forall a, b :: 0 <= a < c.n && 0 <= b < c.n ==> Lockstep(s'.ranks[a], s'.ranks[b])
  {
    var s' := Next(c, s, r);
    var p := s.ranks[r].phase;
    if p.WaitArrive? { AllArrived(c, s, r); }
    if p.WaitDepart? { AllDeparted(c, s, r); }
    forall a, b | 0 <= a < c.n && 0 <= b < c.n ensures Lockstep(s'.ranks[a], s'.ranks[b]) {
      assert Lockstep(s.ranks[a], s.ranks[b]);
    }
  }

  lemma LocalStep<T>(c: Config<T>, s: State<T>, r: nat, q: nat)
    requires c.Valid() && Inv(c, s) && Enabled(c, s, r) && q < c.n
    requires Shape(c, Next(c, s, r))
    ensures Local(c, Next(c, s, r), q)
  {
    if q == r { OwnLocalStep(c, s, r); } else { assert Local(c, s, q); }
  }

  lemma OwnLocalStep<T>(c: Config<T>, s: State<T>, r: nat)
    requires c.Valid() && Inv(c, s) && Enabled(c, s, r)
    requires Shape(c, Next(c, s, r))
    ensures Local(c, Next(c, s, r), r)
  {
    hide Arrivals, Departures, ArrivalsOf, DeparturesOf, Lockstep, Total;
    var s' := Next(c, s, r);
    var rk := s.ranks[r];
    assert Local(c, s, r);
    match rk.phase {
      case Copy(i) =>
        if i < c.count {
          assert s'.buf[r][..i + 1] == s.buf[r][..i] + [rk.data[i]];
          assert c.InputRow(r, rk.gen)[..i + 1] == c.InputRow(r, rk.gen)[..i] + [rk.data[i]];
        } else {
          assert s.buf[r][..i] == s.buf[r];
          assert c.InputRow(r, rk.gen)[..i] == c.InputRow(r, rk.gen);
        }
      case Sum(i, k, acc) =>
        if i == c.count {
          assert rk.data[..i] == rk.data && c.RankOrderSum(rk.gen)[..i] == c.RankOrderSum(rk.gen);
        } else if k < c.n {
          ReadersSeeStableBuffers(c, s, r, k);
          assert s.buf[k][i] == c.input(k, rk.gen, i);
        } else {
          assert rk.data[i := acc][..i + 1] == rk.data[..i] + [acc];
          assert c.RankOrderSum(rk.gen)[..i + 1] == c.RankOrderSum(rk.gen)[..i] + [acc];
        }
      case WaitDepart =>
        assert rk.results + [rk.data] == seq(rk.gen + 1, (g: nat) => c.RankOrderSum(g));
      case _ =>
    }
  }

  lemma ShapeStep<T>(c: Config<T>, s: State<T>, r: nat)
    requires c.Valid() && Shape(c, s) && Enabled(c, s, r)
    ensures Shape(c, Next(c, s, r))
  {
  }

  /** Every step of every rank keeps the invariant. */
  lemma StepKeepsInv<T>(c: Config<T>, s: State<T>, r: nat)
    requires c.Valid() && Inv(c, s) && Enabled(c, s, r)
    ensures Inv(c, Next(c, s, r))
  {
    ShapeStep(c, s, r);
    CountersStep(c, s, r);
    LockstepStep(c, s, r);
    forall q | 0 <= q < c.n ensures Local(c, Next(c, s, r), q) { LocalStep(c, s, r, q); }
  }

  // ----- whole runs -----

  /** The state after a schedule; a rank scheduled while it spins leaves everything as it was. */
  ghost function Run<T>(c: Config<T>, s: State<T>, schedule: seq<nat>): State<T>
    requires c.Valid() && Inv(c, s)
    ensures Inv(c, Run(c, s, schedule))
    decreases |schedule|
  {
    if schedule == [] then s
    else if Enabled(c, s, schedule[0]) then
      StepKeepsInv(c, s, schedule[0]); Run(c, Next(c, s, schedule[0]), schedule[1..])
    else Run(c, s, schedule[1..])
  }

  /** Safety over whole runs: whatever the interleaving, a rank that has left generations
      0..g holds exactly the rank-order sums of all ranks' inputs to them, and a rank that is
      still adding up generation g reads only generation-g inputs. */
  lemma EveryRunIsCorrect<T>(c: Config<T>, s0: State<T>, schedule: seq<nat>, r: nat)
    requires c.Valid() && Init(c, s0) && r < c.n
    ensures Inv(c, s0)
    ensures var s := Run(c, s0, schedule);
      && |s.ranks[r].results| == s.ranks[r].gen <= c.gens
      && (forall g :: 0 <= g < s.ranks[r].gen ==> s.ranks[r].results[g] == c.RankOrderSum(g))
      && (s.ranks[r].phase.Sum? ==> forall q :: 0 <= q < c.n ==> s.buf[q] == c.InputRow(q, s.ranks[r].gen))
  {
    InitInv(c, s0);
    var s := Run(c, s0, schedule);
    assert Local(c, s, r);
    if s.ranks[r].phase.Sum? {
      forall q | 0 <= q < c.n ensures s.buf[q] == c.InputRow(q, s.ranks[r].gen) {
        ReadersSeeStableBuffers(c, s, r, q);
      }
    }
  }

  /** With nobody able to move, every rank has arrived in the generation of the slowest. */
  lemma StuckMeansArrived<T>(c: Config<T>, s: State<T>, g: nat)
    requires c.Valid() && Inv(c, s) && g < c.gens
    requires forall b :: 0 <= b < c.n ==> g <= s.ranks[b].gen && !Enabled(c, s, b)
    ensures Reached(s.arrived, g, c.n)
  {
    TargetFits(g, c.gens, c.n);
    var xs := ArrivalsOf(s.ranks);
    forall b | 0 <= b < c.n ensures xs[b] >= g + 1 { assert !Enabled(c, s, b); }
    TotalAtLeast(xs, g + 1);
  }

  /** Then every rank has departed from it as well. */
  lemma StuckMeansDeparted<T>(c: Config<T>, s: State<T>, g: nat)
    requires c.Valid() && Inv(c, s) && g < c.gens
    requires forall b :: 0 <= b < c.n ==> g <= s.ranks[b].gen && !Enabled(c, s, b)
    ensures Reached(s.departed, g, c.n)
  {
    StuckMeansArrived(c, s, g);
    TargetFits(g, c.gens, c.n);
    var xs := DeparturesOf(s.ranks);
    forall b | 0 <= b < c.n ensures xs[b] >= g + 1 { assert !Enabled(c, s, b); }
    TotalAtLeast(xs, g + 1);
  }

  /** No deadlock: until every rank has finished, some rank can move. */
  lemma SomeRankCanStep<T>(c: Config<T>, s: State<T>)
    requires c.Valid() && Inv(c, s)
    requires exists r :: 0 <= r < c.n && !s.ranks[r].phase.Finished?
    ensures exists r :: 0 <= r < c.n && Enabled(c, s, r)
  {
    var gens := seq(c.n, i requires 0 <= i < c.n => s.ranks[i].gen);
    var m := Least(gens);
    var g := s.ranks[m].gen;
    assert forall b :: 0 <= b < c.n ==> g <= gens[b] == s.ranks[b].gen;
    if forall b :: 0 <= b < c.n ==> !Enabled(c, s, b) {
      assert !Enabled(c, s, m);
      StuckMeansArrived(c, s, g);
      StuckMeansDeparted(c, s, g);
    }
  }

  // ----- how long a run can be -----

  /** Memory accesses one rank makes per generation: the copy, the n reads and one write per
      cell of the summation, and the two counters. */
  function UnitsPerGeneration(n: nat, count: nat): nat { count + Times(n + 1, count) + 6 }

  /** Effective steps still to come in the current generation. */
  function PhaseWork<T>(n: nat, count: nat, p: Phase<T>): int {
    match p
    case Copy(i) => (count - i) + Times(n + 1, count) + 6
    case Arrive => Times(n + 1, count) + 5
    case WaitArrive => Times(n + 1, count) + 4
    case Sum(i, k, _) => Times(n + 1, count - i) - k + 3
    case Depart => 2
    case WaitDepart => 1
    case Finished => 0
  }

  function Work<T>(c: Config<T>, rk: Rank<T>): int {
    Times(UnitsPerGeneration(c.n, c.count), c.gens - 1 - rk.gen) + PhaseWork(c.n, c.count, rk.phase)
  }

  lemma StepIsOneUnit<T>(c: Config<T>, s: State<T>, r: nat)
    requires c.Valid() && Shape(c, s) && Enabled(c, s, r)
    ensures Work(c, Next(c, s, r).ranks[r]) == Work(c, s.ranks[r]) - 1
    ensures forall q :: 0 <= q < c.n && q != r ==> Next(c, s, r).ranks[q] == s.ranks[q]
  {
  }

  lemma WorkLeft<T>(c: Config<T>, rk: Rank<T>)
    requires WellFormed(c, rk)
    ensures Work(c, rk) >= 0
    ensures Work(c, rk) == 0 <==> rk.phase.Finished?
  {
  }

  lemma WorkAtStart<T>(c: Config<T>, s: State<T>, r: nat)
    requires c.Valid() && Init(c, s) && r < c.n
    ensures Work(c, s.ranks[r]) == Times(UnitsPerGeneration(c.n, c.count), c.gens)
  {
  }

  /** How often rank r really moved in a schedule. */
  ghost function Moves<T>(c: Config<T>, s: State<T>, schedule: seq<nat>, r: nat): nat
    requires c.Valid() && Inv(c, s)
    decreases |schedule|
  {
    if schedule == [] then 0
    else if Enabled(c, s, schedule[0]) then
      StepKeepsInv(c, s, schedule[0]);
      (if schedule[0] == r then 1 else 0) + Moves(c, Next(c, s, schedule[0]), schedule[1..], r)
    else Moves(c, s, schedule[1..], r)
  }

  lemma {:induction false} MovesSpendWork<T>(c: Config<T>, s: State<T>, schedule: seq<nat>, r: nat)
    requires c.Valid() && Inv(c, s) && r < c.n
    ensures Work(c, Run(c, s, schedule).ranks[r]) == Work(c, s.ranks[r]) - Moves(c, s, schedule, r)
    decreases |schedule|
  {
    if schedule != [] {
      var q := schedule[0];
      if Enabled(c, s, q) {
        StepKeepsInv(c, s, q);
        StepIsOneUnit(c, s, q);
        MovesSpendWork(c, Next(c, s, q), schedule[1..], r);
      } else {
        MovesSpendWork(c, s, schedule[1..], r);
      }
    }
  }

  /** Liveness over whole runs: no rank ever makes more than G generations' worth of moves, it has
      finished exactly when it has made them all, and until all have finished somebody can move. */
  lemma EveryRunEnds<T>(c: Config<T>, s0: State<T>, schedule: seq<nat>, r: nat)
    requires c.Valid() && Init(c, s0) && r < c.n
    ensures Inv(c, s0)
    ensures Moves(c, s0, schedule, r) <= Times(UnitsPerGeneration(c.n, c.count), c.gens)
    ensures Moves(c, s0, schedule, r) == Times(UnitsPerGeneration(c.n, c.count), c.gens)
            <==> Run(c, s0, schedule).ranks[r].phase.Finished?
    ensures (forall q :: 0 <= q < c.n ==> Run(c, s0, schedule).ranks[q].phase.Finished?)
            || exists q :: 0 <= q < c.n && Enabled(c, Run(c, s0, schedule), q)
  {
    InitInv(c, s0);
    var s := Run(c, s0, schedule);
    WorkAtStart(c, s0, r);
    MovesSpendWork(c, s0, schedule, r);
    assert WellFormed(c, s.ranks[r]);
    hide Inv, Init, Work, Moves, Enabled, WellFormed;
    WorkLeft(c, s.ranks[r]);
    if exists q :: 0 <= q < c.n && !s.ranks[q].phase.Finished? { SomeRankCanStep(c, s); }
  }
}
