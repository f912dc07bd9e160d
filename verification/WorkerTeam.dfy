/** The persistent worker team: one caller hands ranges to a pool of workers through a
    generation counter. Each lock-held section and each call of the function on one index is one
    step; a schedule is an arbitrary interleaving of them. Waiting on a condition variable is two
    things: a look at the predicate, which puts the thread to sleep when it is false, and the
    notification (or a spurious wake-up) that lets it look again. */
module WorkerTeam {
  import opened Sums

  /** One `parallel_for` call; `threads` is the configured thread count at that moment. */
  datatype Call = Call(begin: int, end: int, threads: int)
  {
    function Threads(): nat { if threads > 0 then threads else 1 }

    predicate Empty() { end <= begin }

    /** The share of worker `tid`: from Lo up to, not including, Hi. */
    function Chunk(): int { (end - begin + Threads() - 1) / Threads() }

    function Lo(tid: nat): int { begin + tid * Chunk() }

    function Hi(tid: nat): int { if Lo(tid) + Chunk() < end then Lo(tid) + Chunk() else end }

    /** The one worker whose share holds index i. */
    function Owner(i: int): int
      requires begin <= i < end
    {
      ChunkIsPositive();
      (i - begin) / Chunk()
    }

    lemma ChunkIsPositive()
      requires !Empty()
      ensures 1 <= Chunk() && Chunk() * Threads() >= end - begin
    {
      var t, n := end - begin, Threads();
      assert Chunk() == (t + n - 1) / n;
      assert (t + n - 1) / n * n + (t + n - 1) % n == t + n - 1;
    }

    /** No share is larger than the range divided by the workers, rounded up. */
    lemma SharesAreFair(tid: nat)
      requires !Empty()
      ensures (Hi(tid) - Lo(tid)) * Threads() < end - begin + Threads()
    {
      var t, n, c := end - begin, Threads(), Chunk();
      assert c == (t + n - 1) / n;
      assert (t + n - 1) / n * n + (t + n - 1) % n == t + n - 1;
      assert c * n < t + n;
      NoMore(Hi(tid) - Lo(tid), c, n);
    }

    /** The shares partition the range: index i lies in the share of its owner, who is one of the
        workers, and in nobody else's. */
    lemma SharesPartition(i: int, tid: nat)
      requires begin <= i < end
      ensures 0 <= Owner(i) < Threads()
      ensures Lo(tid) <= i < Hi(tid) <==> tid == Owner(i)
    {
      ChunkIsPositive();
      var c, d := Chunk(), i - begin;
      DivBounds(d, c, tid, Threads());
    }
  }

  lemma NoMore(a: int, b: int, n: nat)
    requires a <= b
    ensures a * n <= b * n
  {
    assert (b - a) * n >= 0;
  }

  /** Distinct multiples of c are at least c apart. */
  lemma {:induction false} Scaled(a: int, b: int, c: nat)
    requires a < b
    ensures a * c + c <= b * c
    decreases b - a
  {
    if a + 1 < b { Scaled(a + 1, b, c); }
    assert (a + 1) * c == a * c + c;
  }

  lemma DivBounds(d: int, c: nat, tid: nat, n: nat)
    requires c > 0 && 0 <= d < c * n
    ensures 0 <= d / c < n
    ensures tid * c <= d < tid * c + c <==> tid == d / c
  {
    var q := d / c;
    assert q * c <= d < q * c + c;
    if n < q { Scaled(n, q, c); }
    if tid < q { Scaled(tid, q, c); }
    if q < tid { Scaled(q, tid, c); }
  }

  datatype Pc =
    | Idle(k: nat)        // call k has not begun; calls 0..k have returned
    | Stale(k: nat)       // `ensure` found no team, or one of another size
    | Joining(k: nat)     // `stop` has raised the flag and joins the workers
    | Cleared(k: nat)     // all joined, the thread list is empty
    | Restart(k: nat)     // about to spawn the new team
    | Publish(k: nat)     // about to hand out the work
    | Await(k: nat)       // about to look, or asleep, until `has_work_` falls

  datatype Work =
    | Waiting                               // about to look, or asleep, until there is something to do
    | Running(call: nat, i: int, hi: int)   // next index, end of the share
    | Reporting                             // share done, about to count itself finished
    | Exited

  datatype Worker = Worker(seen: nat, work: Work)

  datatype State = State(
    pc: Pc, started: bool, stop: bool, hasWork: bool,
    generation: nat, finished: nat, nThreads: nat,
    fn: nat, begin: int, end: int,
    workers: seq<Worker>, asleep: set<nat>, callerAsleep: bool, log: multiset<(nat, int)>)

  function Init(): State {
    State(Idle(0), false, false, false, 0, 0, 1, 0, 0, 0, [], {}, false, multiset{})
  }

  /** The last two are spurious wake-ups. */
  datatype Actor = Caller | Member(tid: nat) | Wake(tid: nat) | WakeCaller

  predicate Enabled(calls: seq<Call>, s: State, a: Actor) {
    match a
    case Caller =>
      (match s.pc
       case Idle(k) => k < |calls|
       case Joining(_) => forall t :: 0 <= t < |s.workers| ==> s.workers[t].work.Exited?
       case Await(_) => !s.callerAsleep
       case _ => s.pc.k < |calls|)
    case Member(t) =>
      t < |s.workers| &&
      (match s.workers[t].work
       case Waiting => t !in s.asleep
       case Exited => false
       case _ => true)
    case Wake(t) => t in s.asleep
    case WakeCaller => s.callerAsleep
  }

  function Next(calls: seq<Call>, s: State, a: Actor): State
    requires Enabled(calls, s, a)
    requires s.pc.k <= |calls|
    requires !s.pc.Idle? ==> s.pc.k < |calls|
  {
    match a
    case Caller =>
      (match s.pc
       case Idle(k) =>
         if calls[k].Empty() then s.(pc := Idle(k + 1))
         else if s.started && s.nThreads == calls[k].Threads() then s.(pc := Publish(k))
         else s.(pc := Stale(k))
       case Stale(k) =>
         if !s.started then s.(pc := Restart(k))
         else s.(stop := true, generation := s.generation + 1, asleep := {}, pc := Joining(k))
       case Joining(k) => s.(workers := [], pc := Cleared(k))
       case Cleared(k) => s.(started := false, stop := false, pc := Restart(k))
       case Restart(k) =>
         var n := calls[k].Threads();
         s.(nThreads := n, stop := false, generation := 0, finished := 0, hasWork := false,
            workers := seq(n, (t: nat) => Worker(0, Waiting)), asleep := {}, started := true, pc := Publish(k))
       case Publish(k) =>
         s.(begin := calls[k].begin, end := calls[k].end, fn := k, finished := 0, hasWork := true,
            generation := s.generation + 1, asleep := {}, pc := Await(k))
       case Await(k) => if s.hasWork then s.(callerAsleep := true) else s.(pc := Idle(k + 1)))
    case Wake(t) => s.(asleep := s.asleep - {t})
    case WakeCaller => s.(callerAsleep := false)
    case Member(t) =>
      var w := s.workers[t];
      match w.work
      case Waiting =>
        if !s.stop && s.generation == w.seen then s.(asleep := s.asleep + {t})
        else if s.stop then s.(workers := s.workers[t := w.(work := Exited)])
        else
          var mine := Call(s.begin, s.end, s.nThreads);
          var lo, hi := mine.Lo(t), mine.Hi(t);
          s.(workers := s.workers[t := Worker(s.generation, Running(s.fn, lo, hi))])
      case Running(call, i, hi) =>
        if i < hi then
          s.(log := s.log + multiset{(call, i)}, workers := s.workers[t := w.(work := Running(call, i + 1, hi))])
        else s.(workers := s.workers[t := w.(work := Reporting)])
      case Reporting =>
        s.(finished := s.finished + 1, hasWork := s.hasWork && s.finished + 1 != s.nThreads,
           callerAsleep := s.callerAsleep && s.finished + 1 != s.nThreads,
           workers := s.workers[t := w.(work := Waiting)])
      case Exited => s
  }

  // ----- the invariant -----

  /** No worker has anything left from an earlier call. */
  predicate Quiet(s: State) {
    forall t :: 0 <= t < |s.workers| ==> s.workers[t] == Worker(s.generation, Waiting)
  }

  /** Worker t while call k is out: not yet woken, inside its own share, or done with it. */
  predicate Serving(s: State, t: nat, k: nat, call: Call)
    requires t < |s.workers|
  {
    var w := s.workers[t];
    match w.work
    case Waiting => w.seen == s.generation || w.seen + 1 == s.generation
    case Running(c, i, hi) => w.seen == s.generation && c == k && hi == call.Hi(t) && call.Lo(t) <= i
      && (i <= hi || i == call.Lo(t))
    case Reporting => w.seen == s.generation
    case Exited => false
  }

  /** How far worker t has come in its share of the call that is out. */
  function Progress(s: State, t: nat, call: Call): int
    requires t < |s.workers|
  {
    match s.workers[t].work
    case Running(_, i, _) => i
    case Waiting => if s.workers[t].seen == s.generation then call.Hi(t) else call.Lo(t)
    case _ => call.Hi(t)
  }

  function Reported(generation: nat, ws: seq<Worker>): seq<nat> {
    seq(|ws|, t requires 0 <= t < |ws| => if ws[t] == Worker(generation, Waiting) then 1 else 0)
  }

  predicate Team(calls: seq<Call>, s: State) {
    match s.pc
    case Idle(k) => Resting(s)
    case Stale(k) => Resting(s)
    case Joining(k) =>
      && s.started && s.stop && !s.hasWork
      && forall t :: 0 <= t < |s.workers| ==>
           s.workers[t].work.Exited? || (s.workers[t].work.Waiting? && s.workers[t].seen + 1 == s.generation)
    case Cleared(k) => s.started && s.stop && !s.hasWork && s.workers == []
    case Restart(k) => !s.started && !s.stop && !s.hasWork && s.workers == []
    case Publish(k) => Resting(s) && s.started && k < |calls| && s.nThreads == calls[k].Threads()
    case Await(k) =>
      && k < |calls| && s.started && !s.stop && |s.workers| == s.nThreads == calls[k].Threads()
      && s.fn == k && s.begin == calls[k].begin && s.end == calls[k].end
      && (forall t :: 0 <= t < |s.workers| ==> Serving(s, t, k, calls[k]))
      && s.finished == Total(Reported(s.generation, s.workers))
      && (s.hasWork <==> s.finished < s.nThreads)
  }

  predicate Resting(s: State) {
    && !s.stop && !s.hasWork
    && (if s.started then |s.workers| == s.nThreads > 0 else s.workers == [])
    && Quiet(s)
  }

  /** How often the function has run on index i of call j: once for a returned call, once for the
      call that is out if the owner of i has got past i, and never otherwise. */
  function Expected(calls: seq<Call>, s: State, j: nat, i: int): nat
    requires Team(calls, s)
  {
    if j >= |calls| || !(calls[j].begin <= i < calls[j].end) then 0
    else if j < s.pc.k then 1
    else if s.pc == Await(j) then
      calls[j].SharesPartition(i, 0);
      if i < Progress(s, calls[j].Owner(i), calls[j]) then 1 else 0
    else 0
  }

  /** Whoever sleeps has nothing to do: no notification has been lost. */
  predicate NobodyOversleeps(s: State) {
    && (forall t :: t in s.asleep ==> t < |s.workers| && s.workers[t] == Worker(s.generation, Waiting) && !s.stop)
    && (s.callerAsleep ==> s.pc.Await? && s.hasWork)
  }

  ghost predicate Inv(calls: seq<Call>, s: State) {
    && s.pc.k <= |calls| && (!s.pc.Idle? ==> s.pc.k < |calls| && !calls[s.pc.k].Empty())
    && Team(calls, s) && NobodyOversleeps(s)
    && forall j: nat, i: int :: s.log[(j, i)] == Expected(calls, s, j, i)
  }

  lemma TeamReturns(calls: seq<Call>, s: State)
    requires Inv(calls, s) && s.pc.Await? && !s.hasWork
    ensures Quiet(s)
  {
    var before := Reported(s.generation, s.workers);
    TotalAtMost(before, 1);
    forall t | 0 <= t < |s.workers| ensures s.workers[t] == Worker(s.generation, Waiting) {
      assert before[t] == 1;
    }
  }

  lemma MemberMovesAlone(calls: seq<Call>, s: State, t: nat, q: nat)
    requires Enabled(calls, s, Member(t)) && q < |s.workers| && q != t
    requires s.pc.k <= |calls| && (!s.pc.Idle? ==> s.pc.k < |calls|)
    ensures var s' := Next(calls, s, Member(t));
      && s'.pc == s.pc && s'.generation == s.generation && |s'.workers| == |s.workers|
      && s'.workers[q] == s.workers[q] && (q in s'.asleep <==> q in s.asleep)
  {
    hide Call.Chunk, Call.Lo, Call.Hi;
  }

  /** A woken worker takes its share of the call that is out. */
  lemma TakesShare(calls: seq<Call>, s: State, t: nat)
    requires s.pc.Await? && s.pc.k < |calls| && Team(calls, s)
    ensures var mine := Call(s.begin, s.end, s.nThreads);
            mine.Lo(t) == calls[s.pc.k].Lo(t) && mine.Hi(t) == calls[s.pc.k].Hi(t)
  {
    assert Call(s.begin, s.end, s.nThreads).Threads() == calls[s.pc.k].Threads();
  }

  lemma MemberKeepsServing(calls: seq<Call>, s: State, t: nat)
    requires Inv(calls, s) && s.pc.Await? && Enabled(calls, s, Member(t))
    ensures var s' := Next(calls, s, Member(t));
      && |s'.workers| == |s.workers| && s'.generation == s.generation
      && forall q :: 0 <= q < |s'.workers| ==> Serving(s', q, s.pc.k, calls[s.pc.k])
  {
    TakesShare(calls, s, t);
    hide Call.Chunk, Call.Lo, Call.Hi, Expected;
    var s' := Next(calls, s, Member(t));
    forall q | 0 <= q < |s'.workers| ensures Serving(s', q, s.pc.k, calls[s.pc.k]) {
      assert Serving(s, q, s.pc.k, calls[s.pc.k]);
    }
  }

  lemma MemberCounts(calls: seq<Call>, s: State, t: nat)
    requires Inv(calls, s) && s.pc.Await? && Enabled(calls, s, Member(t))
    ensures var s' := Next(calls, s, Member(t));
      && Reported(s'.generation, s'.workers)
         == Reported(s.generation, s.workers)[t := Reported(s'.generation, s'.workers)[t]]
      && Reported(s'.generation, s'.workers)[t] == Reported(s.generation, s.workers)[t] + s'.finished - s.finished
      && s'.finished - s.finished == (if s.workers[t].work.Reporting? then 1 else 0)
      && s'.hasWork == (s.hasWork && (s'.finished != s.finished ==> s'.finished != s.nThreads))
  {
    hide Call.Chunk, Call.Lo, Call.Hi, Expected, NobodyOversleeps;
    assert Serving(s, t, s.pc.k, calls[s.pc.k]);
  }

  lemma MemberServes(calls: seq<Call>, s: State, t: nat)
    requires Inv(calls, s) && s.pc.Await? && Enabled(calls, s, Member(t))
    ensures Team(calls, Next(calls, s, Member(t)))
  {
    hide Call.Chunk, Call.Lo, Call.Hi, Expected, NobodyOversleeps;
    var s' := Next(calls, s, Member(t));
    var before, after := Reported(s.generation, s.workers), Reported(s.generation, s'.workers);
    MemberKeepsServing(calls, s, t);
    MemberCounts(calls, s, t);
    hide Serving, Reported;
    TotalUpdate(before, t, after[t]);
    AtMostOneEach(s.generation, s.workers);
    AtMostOneEach(s.generation, s'.workers);
  }

  lemma AtMostOneEach(generation: nat, ws: seq<Worker>)
    ensures |Reported(generation, ws)| == |ws| && Total(Reported(generation, ws)) <= |ws|
  {
    TotalAtMost(Reported(generation, ws), 1);
  }

  lemma TeamStep(calls: seq<Call>, s: State, a: Actor)
    requires Inv(calls, s) && Enabled(calls, s, a)
    ensures Team(calls, Next(calls, s, a))
  {
    hide Call.Chunk, Call.Lo, Call.Hi, Expected;
    var s' := Next(calls, s, a);
    match a
    case Caller =>
      if s.pc.Publish? {
        forall t | 0 <= t < |s'.workers| ensures Serving(s', t, s.pc.k, calls[s.pc.k]) {}
        TotalAtMost(Reported(s'.generation, s'.workers), 0);
      } else if s.pc.Await? {
        if s.hasWork { SameTeam(calls, s, s'); } else { TeamReturns(calls, s); }
      }
    case Member(t) =>
      if s.pc.Await? { MemberServes(calls, s, t); }
    case _ => SameTeam(calls, s, s');
  }

  /** Who is asleep is no matter of the team's. */
  lemma SameTeam(calls: seq<Call>, s: State, s': State)
    requires Team(calls, s) && s' == s.(asleep := s'.asleep, callerAsleep := s'.callerAsleep)
    ensures Team(calls, s')
  {
    if s.pc.Await? && s.pc.k < |calls| {
      forall t | 0 <= t < |s'.workers| ensures Serving(s', t, s.pc.k, calls[s.pc.k]) {
        assert Serving(s, t, s.pc.k, calls[s.pc.k]);
      }
    }
  }

  lemma SleepersStep(calls: seq<Call>, s: State, a: Actor)
    requires Inv(calls, s) && Enabled(calls, s, a)
    ensures NobodyOversleeps(Next(calls, s, a))
  {
    hide Call.Chunk, Call.Lo, Call.Hi, Expected, Serving;
  }

  lemma LogStepOfCaller(calls: seq<Call>, s: State, j: nat, i: int)
    requires Inv(calls, s) && Enabled(calls, s, Caller)
    requires Team(calls, Next(calls, s, Caller))
    ensures Next(calls, s, Caller).log[(j, i)] == Expected(calls, Next(calls, s, Caller), j, i)
  {
    assert s.log[(j, i)] == Expected(calls, s, j, i);
    if s.pc.Await? && !s.hasWork { TeamReturns(calls, s); }
    if j < |calls| && calls[j].begin <= i < calls[j].end {
      calls[j].SharesPartition(i, 0);
      calls[j].SharesPartition(i, calls[j].Owner(i));
    }
  }

  /** A worker inside its share works on an index it owns. */
  lemma RunsOwnIndex(calls: seq<Call>, s: State, t: nat)
    requires Inv(calls, s) && t < |s.workers| && s.workers[t].work.Running?
    requires s.workers[t].work.i < s.workers[t].work.hi
    ensures s.pc.Await? && s.workers[t].work.call == s.pc.k
    ensures var call, x := calls[s.pc.k], s.workers[t].work.i;
            call.begin <= x < call.end && call.Owner(x) == t
  {
    assert s.pc.Await? && Serving(s, t, s.pc.k, calls[s.pc.k]);
    calls[s.pc.k].ChunkIsPositive();
    Nonnegative(t, calls[s.pc.k].Chunk());
    calls[s.pc.k].SharesPartition(s.workers[t].work.i, t);
  }

  lemma ProgressStep(calls: seq<Call>, s: State, t: nat, i: int)
    requires Inv(calls, s) && Enabled(calls, s, Member(t)) && s.pc.Await?
    requires calls[s.pc.k].Lo(t) <= i < calls[s.pc.k].Hi(t)
    ensures var call, before, w := calls[s.pc.k], Progress(s, t, calls[s.pc.k]), s.workers[t].work;
            var after := Progress(Next(calls, s, Member(t)), t, call);
            i < after <==> i < before || (w.Running? && w.i == i < w.hi)
  {
    assert Serving(s, t, s.pc.k, calls[s.pc.k]);
  }

  lemma LogStepOfMember(calls: seq<Call>, s: State, t: nat, j: nat, i: int)
    requires Inv(calls, s) && Enabled(calls, s, Member(t))
    requires Team(calls, Next(calls, s, Member(t)))
    ensures Next(calls, s, Member(t)).log[(j, i)] == Expected(calls, Next(calls, s, Member(t)), j, i)
  {
    var k, w, s' := s.pc.k, s.workers[t].work, Next(calls, s, Member(t));
    assert s.log[(j, i)] == Expected(calls, s, j, i);
    MemberLogs(calls, s, t, j, i);
    if w.Running? && w.i < w.hi { RunsOwnIndex(calls, s, t); }
    if s.pc.Await? && j == k && calls[k].begin <= i < calls[k].end {
      calls[k].SharesPartition(i, t);
      var o := calls[k].Owner(i);
      calls[k].SharesPartition(i, o);
      if o == t { ProgressStep(calls, s, t, i); } else { MemberMovesAlone(calls, s, t, o); }
    }
    hide Next, Enabled, Call.Chunk, Call.Lo, Call.Hi, Call.Owner, Team, Progress;
  }

  lemma MemberLogs(calls: seq<Call>, s: State, t: nat, j: nat, i: int)
    requires Inv(calls, s) && Enabled(calls, s, Member(t))
    ensures var w, s' := s.workers[t].work, Next(calls, s, Member(t));
      && s'.pc == s.pc
      && s'.log[(j, i)] == s.log[(j, i)] + if w.Running? && w.i < w.hi && w.call == j && w.i == i then 1 else 0
  {
    hide Call.Chunk, Call.Lo, Call.Hi, Call.Owner, Team, Expected;
  }

  lemma Nonnegative(a: nat, b: nat)
    ensures a * b >= 0
  {
  }

  lemma StepKeepsInv(calls: seq<Call>, s: State, a: Actor)
    requires Inv(calls, s) && Enabled(calls, s, a)
    ensures Inv(calls, Next(calls, s, a))
  {
    TeamStep(calls, s, a);
    SleepersStep(calls, s, a);
    hide Call.Lo, Call.Hi, Serving, NobodyOversleeps;
    var s' := Next(calls, s, a);
    forall j: nat, i: int ensures s'.log[(j, i)] == Expected(calls, s', j, i) {
      match a
      case Caller => LogStepOfCaller(calls, s, j, i);
      case Member(t) => LogStepOfMember(calls, s, t, j, i);
      case _ => assert s.log[(j, i)] == Expected(calls, s, j, i);
    }
  }

  // ----- whole runs -----

  ghost function Run(calls: seq<Call>, s: State, schedule: seq<Actor>): State
    requires Inv(calls, s)
    ensures Inv(calls, Run(calls, s, schedule))
    decreases |schedule|
  {
    if schedule == [] then s
    else if Enabled(calls, s, schedule[0]) then
      StepKeepsInv(calls, s, schedule[0]);
      Run(calls, Next(calls, s, schedule[0]), schedule[1..])
    else Run(calls, s, schedule[1..])
  }

  /** Whatever the calls, their thread counts and the interleaving: once a call has returned, the
      function has run exactly once on every index of its range and on nothing else; no index of
      a call that has not begun has been touched; and a worker inside the function is running the
      call that is out, on its own share. */
  lemma EveryRunIsExactlyOnce(calls: seq<Call>, schedule: seq<Actor>)
    ensures Inv(calls, Init())
    ensures var s := Run(calls, Init(), schedule);
      && s.pc.k <= |calls|
      && (forall j: nat, i: int :: j < s.pc.k ==>
            s.log[(j, i)] == if calls[j].begin <= i < calls[j].end then 1 else 0)
      && (forall j: nat, i: int :: j > s.pc.k || (j == s.pc.k && !s.pc.Await?) ==> s.log[(j, i)] == 0)
      && (forall t :: 0 <= t < |s.workers| && s.workers[t].work.Running? ==>
            s.pc == Await(s.workers[t].work.call) && s.workers[t].work.hi == calls[s.pc.k].Hi(t))
  {
    InitInv(calls);
    var s := Run(calls, Init(), schedule);
    assert forall j: nat, i: int :: s.log[(j, i)] == Expected(calls, s, j, i);
    forall t | 0 <= t < |s.workers| && s.workers[t].work.Running?
      ensures s.pc == Await(s.workers[t].work.call) && s.workers[t].work.hi == calls[s.pc.k].Hi(t)
    {
      if s.pc.Await? { assert Serving(s, t, s.pc.k, calls[s.pc.k]); }
    }
  }

  lemma InitInv(calls: seq<Call>)
    ensures Inv(calls, Init())
  {
    assert forall j: nat, i: int :: Init().log[(j, i)] == Expected(calls, Init(), j, i);
  }

  /** A thread sleeps only while its predicate is false: whoever makes it true notifies. */
  lemma NoLostWakeUp(calls: seq<Call>, schedule: seq<Actor>)
    ensures Inv(calls, Init())
    ensures var s := Run(calls, Init(), schedule);
      && (forall t :: t in s.asleep ==> t < |s.workers| && !s.stop && s.generation == s.workers[t].seen)
      && (s.callerAsleep ==> s.hasWork)
  {
    InitInv(calls);
    assert Inv(calls, Run(calls, Init(), schedule));
  }

  /** No deadlock, and nobody needs a spurious wake-up: until the last call has returned, the caller
      or some worker is awake and can move. */
  lemma SomebodyCanStep(calls: seq<Call>, s: State)
    requires Inv(calls, s) && s.pc != Idle(|calls|)
    ensures exists a: Actor :: (a.Caller? || a.Member?) && Enabled(calls, s, a)
  {
    if !Enabled(calls, s, Caller) {
      if s.pc.Joining? {
        var t :| 0 <= t < |s.workers| && !s.workers[t].work.Exited?;
        assert Enabled(calls, s, Member(t));
      } else if forall t: nat :: t < |s.workers| ==> !Enabled(calls, s, Member(t)) {
        var done := Reported(s.generation, s.workers);
        forall t: nat | t < |s.workers| ensures done[t] >= 1 {
          assert Serving(s, t, s.pc.k, calls[s.pc.k]);
          assert !Enabled(calls, s, Member(t));
        }
        TotalAtLeast(done, 1);
      }
    }
  }

  // ----- how long a run can be -----

  function Span(n: int): nat { if n > 0 then n else 0 }

  /** Moves of worker t for a whole call: to wake, to run its share, to see its end, to report, to
      let the caller look again and to go to sleep. */
  function Shares(call: Call): seq<nat> {
    seq(call.Threads(), (t: nat) => Span(call.Hi(t) - call.Lo(t)) + 5)
  }

  /** Moves the calls from k on can need altogether. */
  function Budget(calls: seq<Call>, k: nat): nat
    requires k <= |calls|
    decreases |calls| - k
  {
    if k == |calls| then 0 else 10 + 2 * calls[k].Threads() + Total(Shares(calls[k])) + Budget(calls, k + 1)
  }

  /** Moves worker t can still make before the caller's next one. */
  function Left(calls: seq<Call>, s: State, t: nat): nat
    requires t < |s.workers| && s.pc.k <= |calls| && (!s.pc.Idle? ==> s.pc.k < |calls|)
  {
    var w := s.workers[t];
    match w.work
    case Waiting =>
      if t in s.asleep then 0
      else if w.seen == s.generation || !s.pc.Await? then 1
      else Span(calls[s.pc.k].Hi(t) - calls[s.pc.k].Lo(t)) + 5
    case Running(_, i, hi) => Span(hi - i) + 4
    case Reporting => 3
    case Exited => 0
  }

  function LeftOf(calls: seq<Call>, s: State): seq<nat>
    requires s.pc.k <= |calls| && (!s.pc.Idle? ==> s.pc.k < |calls|)
  {
    seq(|s.workers|, t requires 0 <= t < |s.workers| => Left(calls, s, t))
  }

  /** What the caller itself has left to do for the call at hand, with the moves of workers that its
      own moves will set off. */
  function CallerLeft(calls: seq<Call>, s: State): nat
    requires s.pc.k <= |calls| && (!s.pc.Idle? ==> s.pc.k < |calls|)
  {
    match s.pc
    case Idle(k) => Budget(calls, k) + |s.workers|
    case Stale(k) => Budget(calls, k) - 1 + |s.workers|
    case Joining(k) => Budget(calls, k) - 2
    case Cleared(k) => Budget(calls, k) - 4
    case Restart(k) => Budget(calls, k) - 5
    case Publish(k) => Budget(calls, k + 1) + 3 + Total(Shares(calls[k])) + |s.workers|
    case Await(k) => Budget(calls, k + 1) + |s.workers| + 1 + (if s.callerAsleep then 0 else 1)
  }

  function Potential(calls: seq<Call>, s: State): nat
    requires s.pc.k <= |calls| && (!s.pc.Idle? ==> s.pc.k < |calls|)
  {
    CallerLeft(calls, s) + Total(LeftOf(calls, s))
  }

  lemma OthersLeft(calls: seq<Call>, s: State, t: nat, q: nat)
    requires Enabled(calls, s, Member(t)) && q < |s.workers| && q != t
    requires s.pc.k <= |calls| && (!s.pc.Idle? ==> s.pc.k < |calls|)
    ensures Left(calls, Next(calls, s, Member(t)), q) == Left(calls, s, q)
  {
    MemberMovesAlone(calls, s, t, q);
    hide Call.Chunk, Call.Lo, Call.Hi, Next, Enabled;
  }

  /** A move of a worker costs it one; its report may give the caller one back. */
  lemma OwnLeft(calls: seq<Call>, s: State, t: nat)
    requires Enabled(calls, s, Member(t)) && s.pc.k <= |calls| && (!s.pc.Idle? ==> s.pc.k < |calls|)
    requires s.pc.Await? ==> Serving(s, t, s.pc.k, calls[s.pc.k])
    requires s.pc.Await? ==> Call(s.begin, s.end, s.nThreads).Lo(t) == calls[s.pc.k].Lo(t)
    requires s.pc.Await? ==> Call(s.begin, s.end, s.nThreads).Hi(t) == calls[s.pc.k].Hi(t)
    requires !s.pc.Await? ==> s.workers[t].work.Waiting? && (s.stop || s.workers[t].seen == s.generation)
    requires s.pc.Await? ==> !s.stop
    ensures var left, s' := Left(calls, s, t), Next(calls, s, Member(t));
      Left(calls, s', t) <= left - (if s.workers[t].work.Reporting? then 2 else 1)
  {
    hide Call.Chunk, Call.Lo, Call.Hi;
  }

  lemma MemberLeft(calls: seq<Call>, s: State, t: nat)
    requires Inv(calls, s) && Enabled(calls, s, Member(t))
    ensures var s' := Next(calls, s, Member(t));
      CallerLeft(calls, s') + Left(calls, s', t) < CallerLeft(calls, s) + Left(calls, s, t)
  {
    hide Call.Chunk, Call.Lo, Call.Hi, Call.Threads, Expected, Budget, Reported, Total, Shares, Left;
    if s.pc.Await? {
      TakesShare(calls, s, t);
      assert Serving(s, t, s.pc.k, calls[s.pc.k]);
    }
    hide Serving;
    OwnLeft(calls, s, t);
  }

  /** Handing out the work gives every worker its share to do. */
  lemma PublishLeft(calls: seq<Call>, s: State)
    requires Inv(calls, s) && s.pc.Publish?
    ensures LeftOf(calls, Next(calls, s, Caller)) == Shares(calls[s.pc.k])
  {
  }

  lemma MemberProgress(calls: seq<Call>, s: State, t: nat)
    requires Inv(calls, s) && Enabled(calls, s, Member(t)) && Inv(calls, Next(calls, s, Member(t)))
    ensures Potential(calls, Next(calls, s, Member(t))) < Potential(calls, s)
  {
    var s' := Next(calls, s, Member(t));
    MemberLeft(calls, s, t);
    assert |s'.workers| == |s.workers|;
    hide Next, Enabled, CallerLeft, Left, Team, NobodyOversleeps, Expected;
    var before, after := LeftOf(calls, s), LeftOf(calls, s');
    forall q: nat | q < |before| && q != t ensures after[q] == before[q] { OthersLeft(calls, s, t, q); }
    assert after == before[t := after[t]];
    TotalUpdate(before, t, after[t]);
  }

  /** Away from the hand-out the caller's moves leave every worker's work to do, or end it. */
  lemma CallerLeavesWork(calls: seq<Call>, s: State)
    requires Inv(calls, s) && Enabled(calls, s, Caller) && (s.pc.Idle? || s.pc.Cleared? || s.pc.Await?)
    ensures var s' := Next(calls, s, Caller); s'.pc.k <= |calls| && (!s'.pc.Idle? ==> s'.pc.k < |calls|)
    ensures LeftOf(calls, Next(calls, s, Caller)) == LeftOf(calls, s)
  {
    if s.pc.Await? && !s.hasWork { TeamReturns(calls, s); }
    hide Call.Chunk, Call.Lo, Call.Hi, Expected, Shares, Serving, Reported;
  }

  /** Raising the flag or spawning a team gives every worker one move. */
  lemma CallerGivesOne(calls: seq<Call>, s: State)
    requires Inv(calls, s) && Enabled(calls, s, Caller) && (s.pc.Stale? || s.pc.Restart?)
    requires Inv(calls, Next(calls, s, Caller))
    ensures Total(LeftOf(calls, Next(calls, s, Caller))) <= |Next(calls, s, Caller).workers|
  {
    hide Call.Chunk, Call.Lo, Call.Hi, Expected, Shares, Serving, Reported;
    TotalAtMost(LeftOf(calls, Next(calls, s, Caller)), 1);
  }

  lemma CallerProgress(calls: seq<Call>, s: State)
    requires Inv(calls, s) && Enabled(calls, s, Caller) && Inv(calls, Next(calls, s, Caller))
    ensures Potential(calls, Next(calls, s, Caller)) < Potential(calls, s)
  {
    hide Call.Chunk, Call.Lo, Call.Hi, Expected, Shares, Serving, Reported, Left, Quiet, NobodyOversleeps;
    if s.pc.Idle? || s.pc.Cleared? || s.pc.Await? {
      CallerLeavesWork(calls, s);
    } else if s.pc.Stale? || s.pc.Restart? {
      CallerGivesOne(calls, s);
    } else if s.pc.Publish? {
      PublishLeft(calls, s);
    }
  }

  /** Every move but a spurious wake-up spends some of the potential. */
  lemma EveryMoveMakesProgress(calls: seq<Call>, s: State, a: Actor)
    requires Inv(calls, s) && Enabled(calls, s, a) && (a.Caller? || a.Member?)
    ensures Inv(calls, Next(calls, s, a))
    ensures Potential(calls, Next(calls, s, a)) < Potential(calls, s)
  {
    StepKeepsInv(calls, s, a);
    if a.Member? { MemberProgress(calls, s, a.tid); } else { CallerProgress(calls, s); }
  }

  // ----- bounds over whole runs -----

  /** How often caller and workers really moved in a schedule. */
  ghost function Moves(calls: seq<Call>, s: State, schedule: seq<Actor>): nat
    requires Inv(calls, s)
    decreases |schedule|
  {
    if schedule == [] then 0
    else if Enabled(calls, s, schedule[0]) then
      StepKeepsInv(calls, s, schedule[0]);
      (if schedule[0].Caller? || schedule[0].Member? then 1 else 0)
      + Moves(calls, Next(calls, s, schedule[0]), schedule[1..])
    else Moves(calls, s, schedule[1..])
  }

  /** How many spurious wake-ups there were. */
  ghost function Spurious(calls: seq<Call>, s: State, schedule: seq<Actor>): nat
    requires Inv(calls, s)
    decreases |schedule|
  {
    if schedule == [] then 0
    else if Enabled(calls, s, schedule[0]) then
      StepKeepsInv(calls, s, schedule[0]);
      (if schedule[0].Caller? || schedule[0].Member? then 0 else 1)
      + Spurious(calls, Next(calls, s, schedule[0]), schedule[1..])
    else Spurious(calls, s, schedule[1..])
  }

  /** A spurious wake-up costs one more look. */
  lemma WakeCostsOne(calls: seq<Call>, s: State, a: Actor)
    requires Inv(calls, s) && Enabled(calls, s, a) && (a.Wake? || a.WakeCaller?)
    ensures Inv(calls, Next(calls, s, a))
    ensures Potential(calls, Next(calls, s, a)) <= Potential(calls, s) + 1
  {
    StepKeepsInv(calls, s, a);
    var before, after := LeftOf(calls, s), LeftOf(calls, Next(calls, s, a));
    hide Call.Chunk, Call.Lo, Call.Hi, Expected, Shares, Serving, Reported, Budget, Team;
    if a.Wake? {
      assert after == before[a.tid := 1];
      TotalUpdate(before, a.tid, 1);
    } else {
      assert after == before;
    }
  }

  lemma {:induction false} MovesSpendPotential(calls: seq<Call>, s: State, schedule: seq<Actor>)
    requires Inv(calls, s)
    ensures Potential(calls, Run(calls, s, schedule)) + Moves(calls, s, schedule)
         <= Potential(calls, s) + Spurious(calls, s, schedule)
    decreases |schedule|
  {
    hide Potential, Enabled, Next, Team, NobodyOversleeps, Expected;
    if schedule != [] {
      var a := schedule[0];
      if Enabled(calls, s, a) {
        if a.Caller? || a.Member? { EveryMoveMakesProgress(calls, s, a); } else { WakeCostsOne(calls, s, a); }
        MovesSpendPotential(calls, Next(calls, s, a), schedule[1..]);
      } else {
        MovesSpendPotential(calls, s, schedule[1..]);
      }
    }
  }

  /** Liveness over whole runs: caller and workers never move more often than the calls' budget and
      the spurious wake-ups allow, and until the last call has returned one of them can move. */
  lemma EveryRunEnds(calls: seq<Call>, schedule: seq<Actor>)
    ensures Inv(calls, Init())
    ensures Moves(calls, Init(), schedule) <= Budget(calls, 0) + Spurious(calls, Init(), schedule)
    ensures var s := Run(calls, Init(), schedule);
      || s.pc == Idle(|calls|)
      || exists a: Actor :: (a.Caller? || a.Member?) && Enabled(calls, s, a)
  {
    InitInv(calls);
    MovesSpendPotential(calls, Init(), schedule);
    assert LeftOf(calls, Init()) == [];
    var s := Run(calls, Init(), schedule);
    if s.pc != Idle(|calls|) { SomebodyCanStep(calls, s); }
  }
}
