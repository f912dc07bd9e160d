/** The serving engine: one worker that takes requests from a bounded queue, batches compatible ones
    and signals each when it is done; arrivals interleave anywhere. Without close. */
module ServingEngine {
  import opened Texts

  // ----- requests -----

  /** `payload` maps option names to (uninterpreted) values; `id` tells request objects apart. */
  datatype Request = Request(id: nat, stream: bool, payload: map<string, int>)

  const COMPARE_KEYS := [
    "temperature", "top_p", "top_k", "min_p", "frequency_penalty", "presence_penalty",
    "repetition_penalty", "seed", "stop", "logprobs", "top_logprobs", "n"]

  function Get(p: map<string, int>, key: string): Option<int> { if key in p then Some(p[key]) else None }

  function MaxTokens(r: Request): int { if "max_tokens" in r.payload then r.payload["max_tokens"] else 0 }

  predicate IsCompatible(first: Request, candidate: Request) {
    && !candidate.stream && MaxTokens(first) == MaxTokens(candidate)
    && forall i :: 0 <= i < |COMPARE_KEYS| ==>
         Get(first.payload, COMPARE_KEYS[i]) == Get(candidate.payload, COMPARE_KEYS[i])
  }

  method IsBatchCompatible(first: Request, candidate: Request) returns (yes: bool)
    ensures yes == IsCompatible(first, candidate)
  {
    hide Get;
    if candidate.stream { return false; }
    if MaxTokens(first) != MaxTokens(candidate) { return false; }
    for i := 0 to |COMPARE_KEYS|
      invariant forall j :: 0 <= j < i ==>
                  Get(first.payload, COMPARE_KEYS[j]) == Get(candidate.payload, COMPARE_KEYS[j])
    {
      if Get(first.payload, COMPARE_KEYS[i]) != Get(candidate.payload, COMPARE_KEYS[i]) { return false; }
    }
    return true;
  }

  /** Non-stream requests, any two of them compatible. */
  ghost predicate MutuallyCompatible(batch: seq<Request>) {
    forall i, j :: 0 <= i < |batch| && 0 <= j < |batch| ==> IsCompatible(batch[i], batch[j])
  }

  /** Comparing with the first request only is enough. */
  lemma CompatibleWithFirst(batch: seq<Request>)
    requires batch != [] && !batch[0].stream && forall i :: 0 <= i < |batch| ==> IsCompatible(batch[0], batch[i])
    ensures MutuallyCompatible(batch)
  {
    hide Get, MaxTokens;
  }

  /** Both give the option the same value, or neither has it. */
  predicate SameOption(a: Request, b: Request, option: string) {
    && (option in a.payload <==> option in b.payload)
    && (option in a.payload ==> a.payload[option] == b.payload[option])
  }

  predicate Compared(option: string) {
    option in {
      "temperature", "top_p", "top_k", "min_p", "frequency_penalty", "presence_penalty",
      "repetition_penalty", "seed", "stop", "logprobs", "top_logprobs", "n"}
  }

  ghost predicate SameOptions(a: Request, b: Request) {
    forall option :: Compared(option) ==> SameOption(a, b, option)
  }

  /** The same number of tokens, which counts as 0 where it is not given. */
  ghost predicate SameTokens(a: Request, b: Request) {
    && ("max_tokens" in a.payload && "max_tokens" in b.payload ==>
          a.payload["max_tokens"] == b.payload["max_tokens"])
    && ("max_tokens" in a.payload && "max_tokens" !in b.payload ==> a.payload["max_tokens"] == 0)
    && ("max_tokens" !in a.payload && "max_tokens" in b.payload ==> b.payload["max_tokens"] == 0)
  }

  lemma TokensAgree(a: Request, b: Request)
    ensures MaxTokens(a) == MaxTokens(b) <==> SameTokens(a, b)
  {
  }

  ghost predicate SameKeys(a: Request, b: Request) {
    forall i :: 0 <= i < |COMPARE_KEYS| ==> Get(a.payload, COMPARE_KEYS[i]) == Get(b.payload, COMPARE_KEYS[i])
  }

  lemma KeysAgree(a: Request, b: Request)
    requires SameKeys(a, b)
    ensures SameOptions(a, b)
  {
    forall option | Compared(option) ensures SameOption(a, b, option) {
      var k := KeyIndex(option);
      assert Get(a.payload, COMPARE_KEYS[k]) == Get(b.payload, COMPARE_KEYS[k]);
    }
  }

  lemma OptionsAgree(a: Request, b: Request)
    requires SameOptions(a, b)
    ensures SameKeys(a, b)
  {
    forall i | 0 <= i < |COMPARE_KEYS|
      ensures Get(a.payload, COMPARE_KEYS[i]) == Get(b.payload, COMPARE_KEYS[i])
    {
      KeyIsOption(i);
      assert SameOption(a, b, COMPARE_KEYS[i]);
      hide COMPARE_KEYS;
    }
  }

  /** A candidate fits exactly when it is not streamed and agrees with the first request on these
      options, by name, and on the number of tokens. */
  lemma CompatibleExactly(first: Request, candidate: Request)
    ensures IsCompatible(first, candidate)
       <==> !candidate.stream && SameTokens(first, candidate) && SameOptions(first, candidate)
  {
    TokensAgree(first, candidate);
    if SameKeys(first, candidate) { KeysAgree(first, candidate); }
    if SameOptions(first, candidate) { OptionsAgree(first, candidate); }
    hide SameTokens, SameOptions, MaxTokens, Get, COMPARE_KEYS;
  }

  /** So the requests of a batch are those that are not streamed and agree with each other. */
  lemma BatchAgrees(batch: seq<Request>)
    ensures MutuallyCompatible(batch)
       <==> (forall i :: 0 <= i < |batch| ==> !batch[i].stream)
            && forall i, j :: 0 <= i < |batch| && 0 <= j < |batch| ==>
                 SameTokens(batch[i], batch[j]) && SameOptions(batch[i], batch[j])
  {
    hide IsCompatible, SameTokens, SameOptions;
    forall i, j | 0 <= i < |batch| && 0 <= j < |batch|
      ensures IsCompatible(batch[i], batch[j])
         <==> !batch[j].stream && SameTokens(batch[i], batch[j]) && SameOptions(batch[i], batch[j])
    {
      CompatibleExactly(batch[i], batch[j]);
    }
  }

  lemma KeyIsOption(i: int)
    requires 0 <= i < |COMPARE_KEYS|
    ensures Compared(COMPARE_KEYS[i])
  {
  }

  lemma KeyIndex(option: string) returns (k: nat)
    requires Compared(option)
    ensures k < |COMPARE_KEYS| && COMPARE_KEYS[k] == option
  {
    k := 0;
    if option == "top_p" { k := 1; }
    if option == "top_k" { k := 2; }
    if option == "min_p" { k := 3; }
    if option == "frequency_penalty" { k := 4; }
    if option == "presence_penalty" { k := 5; }
    if option == "repetition_penalty" { k := 6; }
    if option == "seed" { k := 7; }
    if option == "stop" { k := 8; }
    if option == "logprobs" { k := 9; }
    if option == "top_logprobs" { k := 10; }
    if option == "n" { k := 11; }
  }

  lemma SelfCompatible(r: Request)
    requires !r.stream
    ensures IsCompatible(r, r)
  {
  }

  // ----- the engine's state -----

  datatype Config = Config(maxQueue: int, maxRunning: nat)

  /** What a request is told at its end. */
  datatype Signal = Result(request: Request, value: int) | Failed(request: Request) | StreamEnd(request: Request)

  /** Where the worker is. `PuttingBack`: it holds a candidate that does not fit the batch. */
  datatype Worker =
    | Idle
    | Streaming(request: Request)
    | Collecting(batch: seq<Request>)
    | PuttingBack(batch: seq<Request>, candidate: Request)
    | Running(batch: seq<Request>)

  datatype State = State(queue: seq<Request>, worker: Worker, signals: seq<Signal>, accepted: seq<Request>)

  function InHand(w: Worker): seq<Request> {
    match w
    case Idle => []
    case Streaming(r) => [r]
    case Collecting(b) => b
    case PuttingBack(b, c) => b + [c]
    case Running(b) => b
  }

  function Signalled(signals: seq<Signal>): seq<Request> {
    seq(|signals|, i requires 0 <= i < |signals| => signals[i].request)
  }

  predicate Full(c: Config, s: State) { c.maxQueue > 0 && |s.queue| >= c.maxQueue }

  const INITIAL := State([], Idle, [], [])

  // ----- steps -----

  /** put_nowait of a new request object; a full queue turns it away and nothing changes. */
  predicate Arrives(c: Config, s: State, s': State, r: Request) {
    && !Full(c, s) && (forall i :: 0 <= i < |s.accepted| ==> s.accepted[i].id != r.id)
    && s' == s.(queue := s.queue + [r], accepted := s.accepted + [r])
  }

  predicate Takes(c: Config, s: State, s': State) {
    && s.worker.Idle? && s.queue != []
    && var r := s.queue[0];
       s' == s.(queue := s.queue[1..],
                worker := if r.stream then Streaming(r) else if c.maxRunning > 1 then Collecting([r]) else Running([r]))
  }

  /** A further get inside the waiting time. */
  predicate TakesCandidate(c: Config, s: State, s': State) {
    && s.worker.Collecting? && |s.worker.batch| < c.maxRunning && s.queue != [] && s.worker.batch != []
    && var r := s.queue[0];
       s' == s.(queue := s.queue[1..],
                worker := if IsCompatible(s.worker.batch[0], r) then Collecting(s.worker.batch + [r])
                          else PuttingBack(s.worker.batch, r))
  }

  /** The batch is full, or the waiting time is over. */
  predicate StopsCollecting(c: Config, s: State, s': State) {
    s.worker.Collecting? && s' == s.(worker := Running(s.worker.batch))
  }

  /** put, which waits for room in the queue. */
  predicate PutsBack(c: Config, s: State, s': State) {
    && s.worker.PuttingBack? && !Full(c, s)
    && s' == s.(queue := s.queue + [s.worker.candidate], worker := Running(s.worker.batch))
  }

  /** The signals of a finished batch: the i-th result for the i-th request, or a failure for all. */
  function Delivered(batch: seq<Request>, results: Option<seq<int>>): seq<Signal> {
    if results.Some? && |results.value| == |batch|
    then seq(|batch|, i requires 0 <= i < |batch| => Result(batch[i], results.value[i]))
    else seq(|batch|, i requires 0 <= i < |batch| => Failed(batch[i]))
  }

  /** `results` is what running the payload returned, or nothing if it raised. */
  predicate Finishes(c: Config, s: State, s': State, results: Option<seq<int>>) {
    s.worker.Running? && s' == s.(worker := Idle, signals := s.signals + Delivered(s.worker.batch, results))
  }

  predicate EndsStream(c: Config, s: State, s': State, ok: bool) {
    && s.worker.Streaming?
    && s' == s.(worker := Idle,
       signals := s.signals + [if ok then StreamEnd(s.worker.request) else Failed(s.worker.request)])
  }

  ghost predicate WorkerStep(c: Config, s: State, s': State) {
    || Takes(c, s, s') || TakesCandidate(c, s, s') || StopsCollecting(c, s, s') || PutsBack(c, s, s')
    || (exists results :: Finishes(c, s, s', results))
    || (exists ok :: EndsStream(c, s, s', ok))
  }

  ghost predicate Step(c: Config, s: State, s': State) {
    (exists r :: Arrives(c, s, s', r)) || WorkerStep(c, s, s')
  }

  ghost predicate Run(c: Config, run: seq<State>) {
    && run != [] && run[0] == INITIAL
    && forall i :: 0 <= i < |run| - 1 ==> Step(c, run[i], run[i + 1])
  }

  // ----- conservation -----

  /** Accepted requests are the queued, those in hand and the signalled ones, each once. */
  ghost predicate Conserved(s: State) {
    && multiset(s.accepted) == multiset(s.queue) + multiset(InHand(s.worker)) + multiset(Signalled(s.signals))
    && forall i, j :: 0 <= i < j < |s.accepted| ==> s.accepted[i].id != s.accepted[j].id
  }

  ghost predicate GoodBatch(c: Config, batch: seq<Request>) {
    && batch != [] && |batch| <= c.maxRunning
    && !batch[0].stream && forall i :: 0 <= i < |batch| ==> IsCompatible(batch[0], batch[i])
  }

  ghost predicate GoodWorker(c: Config, w: Worker) {
    match w
    case Idle => true
    case Streaming(r) => r.stream
    case Collecting(b) => GoodBatch(c, b)
    case PuttingBack(b, r) => GoodBatch(c, b) && !IsCompatible(b[0], r)
    case Running(b) => GoodBatch(c, b)
  }

  ghost predicate Inv(c: Config, s: State) { Conserved(s) && GoodWorker(c, s.worker) }

  lemma HeadAndTail(q: seq<Request>)
    requires q != []
    ensures multiset(q) == multiset{q[0]} + multiset(q[1..])
  {
    assert q == [q[0]] + q[1..];
  }

  lemma SignalledAppend(a: seq<Signal>, b: seq<Signal>)
    ensures Signalled(a + b) == Signalled(a) + Signalled(b)
  {
  }

  lemma DeliveredToAll(batch: seq<Request>, results: Option<seq<int>>)
    ensures Signalled(Delivered(batch, results)) == batch
  {
  }

  /** The i-th request of a batch is told the i-th result, or every one of them that it failed. */
  lemma EachToldItsOwn(c: Config, s: State, s': State, results: Option<seq<int>>, i: nat)
    requires Finishes(c, s, s', results) && i < |s.worker.batch|
    ensures |s'.signals| == |s.signals| + |s.worker.batch| && s'.signals[..|s.signals|] == s.signals
    ensures s'.signals[|s.signals| + i]
         == if results.Some? && |results.value| == |s.worker.batch| then Result(s.worker.batch[i], results.value[i])
            else Failed(s.worker.batch[i])
  {
  }

  lemma ArrivalKeepsInv(c: Config, s: State, s': State, r: Request)
    requires Inv(c, s) && Arrives(c, s, s', r)
    ensures Inv(c, s')
  {
    hide IsCompatible;
  }

  lemma TakesKeepsInv(c: Config, s: State, s': State)
    requires c.maxRunning >= 1 && Inv(c, s) && (Takes(c, s, s') || TakesCandidate(c, s, s'))
    ensures Inv(c, s')
  {
    hide IsCompatible, Signalled;
    HeadAndTail(s.queue);
    assert InHand(s'.worker) == InHand(s.worker) + [s.queue[0]];
    TakenIsGood(c, s, s');
    hide GoodWorker;
  }

  lemma TakenIsGood(c: Config, s: State, s': State)
    requires c.maxRunning >= 1 && GoodWorker(c, s.worker) && (Takes(c, s, s') || TakesCandidate(c, s, s'))
    ensures GoodWorker(c, s'.worker)
  {
    hide IsCompatible;
    if s.worker.Idle? && !s.queue[0].stream { SelfCompatible(s.queue[0]); }
  }

  lemma CollectingKeepsInv(c: Config, s: State, s': State)
    requires Inv(c, s) && (StopsCollecting(c, s, s') || PutsBack(c, s, s'))
    ensures Inv(c, s')
  {
    hide IsCompatible;
  }

  lemma SignallingKeepsInv(c: Config, s: State, s': State, added: seq<Signal>)
    requires Inv(c, s) && Signalled(added) == InHand(s.worker)
    requires s' == s.(worker := Idle, signals := s.signals + added)
    ensures Inv(c, s')
  {
    hide IsCompatible;
    SignalledAppend(s.signals, added);
  }

  /** Every step keeps conservation and the shape of the batch. */
  lemma StepKeepsInv(c: Config, s: State, s': State)
    requires c.maxRunning >= 1 && Inv(c, s) && Step(c, s, s')
    ensures Inv(c, s')
  {
    hide IsCompatible, Inv, Arrives, Takes, TakesCandidate, StopsCollecting, PutsBack, Signalled;
    if r :| Arrives(c, s, s', r) {
      ArrivalKeepsInv(c, s, s', r);
    } else if Takes(c, s, s') || TakesCandidate(c, s, s') {
      TakesKeepsInv(c, s, s');
    } else if StopsCollecting(c, s, s') || PutsBack(c, s, s') {
      CollectingKeepsInv(c, s, s');
    } else if results :| Finishes(c, s, s', results) {
      DeliveredToAll(s.worker.batch, results);
      SignallingKeepsInv(c, s, s', Delivered(s.worker.batch, results));
    } else {
      var ok :| EndsStream(c, s, s', ok);
      var signal := if ok then StreamEnd(s.worker.request) else Failed(s.worker.request);
      OneSignalled(signal);
      SignallingKeepsInv(c, s, s', [signal]);
    }
  }

  lemma OneSignalled(signal: Signal)
    ensures Signalled([signal]) == [signal.request]
  {
  }

  lemma {:induction false} RunKeepsInv(c: Config, run: seq<State>, i: nat)
    requires c.maxRunning >= 1 && Run(c, run) && i < |run|
    ensures Inv(c, run[i])
    decreases i
  {
    if i > 0 {
      RunKeepsInv(c, run, i - 1);
      StepKeepsInv(c, run[i - 1], run[i]);
    }
  }

  /** In every run: accepted = queued + in hand + finished, no request is signalled twice, and a
      batch being run is non-empty, within the limit, and of mutually compatible requests. */
  lemma EveryRunConserves(c: Config, run: seq<State>, i: nat)
    requires c.maxRunning >= 1 && Run(c, run) && i < |run|
    ensures Conserved(run[i])
    ensures forall a, b :: 0 <= a < b < |run[i].signals| ==> run[i].signals[a].request != run[i].signals[b].request
    ensures run[i].worker.Running? ==>
              0 < |run[i].worker.batch| <= c.maxRunning && MutuallyCompatible(run[i].worker.batch)
  {
    RunKeepsInv(c, run, i);
    var s := run[i];
    SignalledOnce(s);
    if s.worker.Running? { CompatibleWithFirst(s.worker.batch); }
  }

  /** A step of run that ends a batch, with what running it returned. */
  ghost predicate EndsBatch(c: Config, run: seq<State>, j: nat, results: seq<int>) {
    j + 1 < |run| && Finishes(c, run[j], run[j + 1], Some(results)) && |results| == |run[j].worker.batch|
  }

  /** The request stands in the batch where its result stands in the results. */
  ghost predicate ToldIn(batch: seq<Request>, results: seq<int>, signal: Signal)
    requires |results| == |batch|
  {
    exists b :: 0 <= b < |batch| && signal == Result(batch[b], results[b])
  }

  /** In every run a result a request is told comes from the end of a batch in which the request
      stands where the result stands in what running the batch returned. */
  lemma {:induction false} ResultsAreOwn(c: Config, run: seq<State>, i: nat, k: nat)
    returns (j: nat, results: seq<int>)
    requires Run(c, run) && i < |run| && k < |run[i].signals| && run[i].signals[k].Result?
    ensures EndsBatch(c, run, j, results) && ToldIn(run[j].worker.batch, results, run[i].signals[k])
    decreases i
  {
    hide IsCompatible;
    var s, s' := run[i - 1], run[i];
    assert Step(c, s, s');
    if k < |s.signals| {
      assert s'.signals[k] == s.signals[k] by { SignalsStay(c, s, s', k); }
      j, results := ResultsAreOwn(c, run, i - 1, k);
    } else {
      j := i - 1;
      results := NewResult(c, s, s', k);
    }
  }

  lemma SignalsStay(c: Config, s: State, s': State, k: nat)
    requires Step(c, s, s') && k < |s.signals|
    ensures k < |s'.signals| && s'.signals[k] == s.signals[k]
  {
    hide IsCompatible, Delivered;
  }

  lemma NewResult(c: Config, s: State, s': State, k: nat) returns (results: seq<int>)
    requires Step(c, s, s') && |s.signals| <= k < |s'.signals| && s'.signals[k].Result?
    ensures Finishes(c, s, s', Some(results)) && |results| == |s.worker.batch|
    ensures ToldIn(s.worker.batch, results, s'.signals[k])
  {
    hide IsCompatible, Delivered;
    assert s.worker.Running?;
    var r :| Finishes(c, s, s', r);
    DeliveredToAll(s.worker.batch, r);
    EachToldItsOwn(c, s, s', r, k - |s.signals|);
    results := r.value;
  }

  lemma SignalledOnce(s: State)
    requires Conserved(s)
    ensures forall a, b :: 0 <= a < b < |s.signals| ==> s.signals[a].request != s.signals[b].request
  {
    forall a, b | 0 <= a < b < |s.signals| ensures s.signals[a].request != s.signals[b].request {
      var d := Signalled(s.signals);
      if d[a] == d[b] {
        TwiceCounts(d, a, b);
        OnceCounts(s.accepted, d[a]);
      }
    }
  }

  lemma TwiceCounts(d: seq<Request>, a: nat, b: nat)
    requires a < b < |d| && d[a] == d[b]
    ensures multiset(d)[d[a]] >= 2
  {
    assert d == d[..a] + [d[a]] + d[a + 1..b] + [d[b]] + d[b + 1..];
  }

  lemma {:induction false} OnceCounts(accepted: seq<Request>, r: Request)
    requires forall i, j :: 0 <= i < j < |accepted| ==> accepted[i].id != accepted[j].id
    ensures multiset(accepted)[r] <= 1
    decreases |accepted|
  {
    if accepted != [] {
      var front, last := accepted[..|accepted| - 1], accepted[|accepted| - 1];
      assert accepted == front + [last];
      OnceCounts(front, r);
      if last == r { assert r !in front; }
    }
  }

  // ----- progress -----

  /** The one way to be stuck: putting a candidate back into a queue that arrivals have filled. */
  predicate Stuck(c: Config, s: State) { s.worker.PuttingBack? && Full(c, s) }

  /** Some worker step from s, when there is one. */
  function Moved(c: Config, s: State): State
    requires !Stuck(c, s) && !(s.worker.Idle? && s.queue == [])
  {
    match s.worker
    case Idle =>
      var r := s.queue[0];
      s.(queue := s.queue[1..],
         worker := if r.stream then Streaming(r) else if c.maxRunning > 1 then Collecting([r]) else Running([r]))
    case Streaming(r) => s.(worker := Idle, signals := s.signals + [StreamEnd(r)])
    case Collecting(b) => s.(worker := Running(b))
    case PuttingBack(b, r) => s.(queue := s.queue + [r], worker := Running(b))
    case Running(b) => s.(worker := Idle, signals := s.signals + Delivered(b, None))
  }

  lemma MovedIsStep(c: Config, s: State)
    requires !Stuck(c, s) && !(s.worker.Idle? && s.queue == [])
    ensures WorkerStep(c, s, Moved(c, s))
  {
    var s' := Moved(c, s);
    match s.worker {
      case Idle => assert Takes(c, s, s');
      case Streaming(_) => assert EndsStream(c, s, s', true);
      case Collecting(_) => assert StopsCollecting(c, s, s');
      case PuttingBack(_, _) => assert PutsBack(c, s, s');
      case Running(_) => assert Finishes(c, s, s', None);
    }
  }

  /** The worker can move exactly when it is not stuck and there is something to do. */
  lemma WorkerMovesExactly(c: Config, s: State)
    ensures (exists s' :: WorkerStep(c, s, s')) <==> !Stuck(c, s) && !(s.worker.Idle? && s.queue == [])
  {
    if !Stuck(c, s) && !(s.worker.Idle? && s.queue == []) { MovedIsStep(c, s); }
  }

  /** A stuck engine stays stuck: the queue is full, so nothing can even arrive. */
  lemma StuckForever(c: Config, s: State, s': State)
    requires Stuck(c, s)
    ensures !Step(c, s, s')
  {
  }

  function Unfinished(s: State): nat { |s.queue| + |InHand(s.worker)| }

  function Stage(w: Worker): nat {
    match w
    case Idle => 3
    case Collecting(_) => 2
    case PuttingBack(_, _) => 1
    case _ => 0
  }

  /** Worker steps cannot go on forever without arrivals, and the only ones that do not bring the
      end of the round nearer finish requests. */
  lemma WorkerStepsMakeProgress(c: Config, s: State, s': State)
    requires GoodWorker(c, s.worker) && WorkerStep(c, s, s')
    ensures Unfinished(s') < Unfinished(s)
         || (Unfinished(s') == Unfinished(s) && !s'.worker.Idle?
             && (Stage(s'.worker) < Stage(s.worker) || (Stage(s'.worker) == Stage(s.worker) && |s'.queue| < |s.queue|)))
  {
    hide IsCompatible;
  }

  /** Room in the queue as long as nothing arrives: the slot a request came from is still free. */
  predicate Roomy(c: Config, s: State) {
    c.maxQueue > 0 ==>
      |s.queue| + (if s.worker.Idle? then 0 else if s.worker.PuttingBack? then 2 else 1) <= c.maxQueue
  }

  lemma QuietStepKeepsRoom(c: Config, s: State, s': State)
    requires Roomy(c, s) && WorkerStep(c, s, s')
    ensures Roomy(c, s')
  {
    hide IsCompatible;
  }

  /** Worker steps only, from a state the worker is idle in. */
  ghost predicate Quiet(c: Config, run: seq<State>) {
    && run != [] && run[0].worker.Idle? && Roomy(c, run[0])
    && forall i :: 0 <= i < |run| - 1 ==> WorkerStep(c, run[i], run[i + 1])
  }

  /** Without new arrivals the worker never gets stuck, and each time it is idle again it has
      strictly fewer requests left than at the start of the round. */
  lemma {:induction false} QuietRoundsFinish(c: Config, run: seq<State>, i: nat)
    requires c.maxRunning >= 1 && Quiet(c, run) && i < |run|
    ensures !Stuck(c, run[i]) && Roomy(c, run[i]) && GoodWorker(c, run[i].worker)
    ensures Unfinished(run[i]) <= Unfinished(run[0])
    ensures i > 0 && run[i].worker.Idle? ==> Unfinished(run[i]) < Unfinished(run[0])
    decreases i
  {
    hide IsCompatible, WorkerStep, Unfinished;
    if i > 0 {
      QuietRoundsFinish(c, run, i - 1);
      QuietStepKeepsRoom(c, run[i - 1], run[i]);
      WorkerStepsMakeProgress(c, run[i - 1], run[i]);
      WorkerStepKeepsShape(c, run[i - 1], run[i]);
    }
  }

  /** First come, first served: a step that gets from the queue gets its first request, and every
      other queued request moves one place to the front; other steps leave the places alone. */
  lemma QueueIsServedInOrder(c: Config, s: State, s': State, j: nat)
    requires Step(c, s, s') && j < |s.queue|
    ensures var gets := Takes(c, s, s') || TakesCandidate(c, s, s');
      if gets && j == 0 then InHand(s'.worker) != [] && InHand(s'.worker)[|InHand(s'.worker)| - 1] == s.queue[0]
      else var place := if gets then j - 1 else j; place < |s'.queue| && s'.queue[place] == s.queue[j]
  {
    hide IsCompatible, Delivered;
  }

  lemma WorkerStepKeepsShape(c: Config, s: State, s': State)
    requires c.maxRunning >= 1 && GoodWorker(c, s.worker) && WorkerStep(c, s, s')
    ensures GoodWorker(c, s'.worker)
  {
    hide IsCompatible;
    if Takes(c, s, s') && !s.queue[0].stream { SelfCompatible(s.queue[0]); }
  }

  /** In every run the queue keeps its bound, so wherever the worker is idle a quiet time can begin. */
  lemma {:induction false} IdleIsRoomy(c: Config, run: seq<State>, i: nat)
    requires Run(c, run) && i < |run|
    ensures c.maxQueue > 0 ==> |run[i].queue| <= c.maxQueue
    ensures run[i].worker.Idle? ==> Roomy(c, run[i])
    decreases i
  {
    hide IsCompatible;
    if i > 0 {
      IdleIsRoomy(c, run, i - 1);
      assert Step(c, run[i - 1], run[i]);
    }
  }

  // ----- exactly when arrivals can jam the engine -----

  ghost predicate NeverStuck(c: Config) {
    forall run, i :: Run(c, run) && 0 <= i < |run| ==> !Stuck(c, run[i])
  }

  /** With one running request there is no candidate to put back. */
  ghost predicate NoCandidates(c: Config, s: State) {
    c.maxRunning <= 1 ==> !s.worker.PuttingBack? && !s.worker.Collecting?
  }

  lemma {:induction false} NoCandidatesInRun(c: Config, run: seq<State>, i: nat)
    requires Run(c, run) && i < |run|
    ensures NoCandidates(c, run[i])
    decreases i
  {
    hide IsCompatible;
    if i > 0 {
      NoCandidatesInRun(c, run, i - 1);
      assert Step(c, run[i - 1], run[i]);
    }
  }

  lemma RunExtends(c: Config, run: seq<State>, s: State)
    requires Run(c, run) && Step(c, run[|run| - 1], s)
    ensures Run(c, run + [s])
  {
    hide Step;
  }

  /** Arrivals with new ids fill the queue. */
  lemma {:induction false} Fill(c: Config, run: seq<State>, next: nat) returns (longer: seq<State>)
    requires run != [] && Run(c, run) && c.maxQueue > 0 && run[|run| - 1].worker.PuttingBack?
    requires forall r :: r in run[|run| - 1].accepted ==> r.id < next
    ensures longer != [] && Run(c, longer) && Stuck(c, longer[|longer| - 1])
    decreases c.maxQueue - |run[|run| - 1].queue|
  {
    hide Run, Step;
    var s := run[|run| - 1];
    if Full(c, s) {
      longer := run;
    } else {
      var r := Request(next, true, map[]);
      var s' := s.(queue := s.queue + [r], accepted := s.accepted + [r]);
      ArrivalIsStep(c, s, s', r);
      RunExtends(c, run, s');
      longer := Fill(c, run + [s'], next + 1);
    }
  }

  lemma ArrivalIsStep(c: Config, s: State, s': State, r: Request)
    requires Arrives(c, s, s', r)
    ensures Step(c, s, s')
  {
  }

  lemma InitialRun(c: Config)
    ensures Run(c, [INITIAL])
  {
  }

  /** A run to a candidate in the worker's hands: a plain request, then a stream. */
  lemma ToPuttingBack(c: Config) returns (run: seq<State>)
    requires c.maxQueue > 0 && c.maxRunning > 1
    ensures run != [] && Run(c, run)
    ensures var s := run[|run| - 1];
            s.worker.PuttingBack? && |s.accepted| == 2 && s.accepted[0].id == 0 && s.accepted[1].id == 1
  {
    hide Run, Step, IsCompatible;
    var a, b := Request(0, false, map[]), Request(1, true, map[]);
    var s1 := State([a], Idle, [], [a]);
    var s2 := State([], Collecting([a]), [], [a]);
    var s3 := State([b], Collecting([a]), [], [a, b]);
    var s4 := State([], PuttingBack([a], b), [], [a, b]);
    InitialRun(c);
    ArrivalIsStep(c, INITIAL, s1, a);
    RunExtends(c, [INITIAL], s1);
    assert Takes(c, s1, s2);
    TakingIsStep(c, s1, s2);
    RunExtends(c, [INITIAL] + [s1], s2);
    ArrivalIsStep(c, s2, s3, b);
    RunExtends(c, [INITIAL] + [s1] + [s2], s3);
    StreamsNeverFit(a, b);
    assert TakesCandidate(c, s3, s4);
    TakingIsStep(c, s3, s4);
    RunExtends(c, [INITIAL] + [s1] + [s2] + [s3], s4);
    run := [INITIAL] + [s1] + [s2] + [s3] + [s4];
  }

  lemma TakingIsStep(c: Config, s: State, s': State)
    requires Takes(c, s, s') || TakesCandidate(c, s, s')
    ensures Step(c, s, s')
  {
  }

  lemma StreamsNeverFit(a: Request, b: Request)
    requires b.stream
    ensures !IsCompatible(a, b)
  {
  }

  /** No run gets stuck if and only if the queue is unbounded or batching is off: otherwise some
      arrivals between taking an unfit candidate and putting it back block the worker for good. */
  lemma NeverStuckExactly(c: Config)
    ensures NeverStuck(c) <==> c.maxQueue <= 0 || c.maxRunning <= 1
  {
    if c.maxQueue <= 0 || c.maxRunning <= 1 {
      forall run, i | Run(c, run) && 0 <= i < |run| ensures !Stuck(c, run[i]) { NoCandidatesInRun(c, run, i); }
    } else {
      var run := ToPuttingBack(c);
      var stuck := Fill(c, run, 2);
      assert Run(c, stuck) && Stuck(c, stuck[|stuck| - 1]);
    }
  }

  // ----- the worker's loops -----

  /** What collecting makes of a queue to which nothing is added while it runs, with `patience` gets
      inside the waiting time: the batch, and the queue afterwards. */
  datatype Collected = Collected(batch: seq<Request>, queue: seq<Request>)

  function Collect(batch: seq<Request>, queue: seq<Request>, most: nat, patience: nat): Collected
    decreases patience
  {
    if |batch| >= most || patience == 0 || queue == [] || batch == [] then Collected(batch, queue)
    else if IsCompatible(batch[0], queue[0]) then Collect(batch + [queue[0]], queue[1..], most, patience - 1)
    else Collected(batch, queue[1..] + [queue[0]])
  }

  class Engine {
    var queue: seq<Request>
    var signals: seq<Signal>
    const maxRunning: nat

    constructor (maxRunning: int)
      ensures queue == [] && signals == [] && this.maxRunning >= 1
    {
      queue, signals := [], [];
      this.maxRunning := if maxRunning > 1 then maxRunning else 1;
    }

    method CollectBatch(first: Request, patience: nat) returns (batch: seq<Request>)
      modifies this`queue
      ensures Collected(batch, queue) == Collect([first], old(queue), maxRunning, patience)
    {
      hide IsCompatible;
      batch := [first];
      var left := patience;
      while |batch| < maxRunning
        invariant batch != [] && batch[0] == first
        invariant Collect(batch, queue, maxRunning, left) == Collect([first], old(queue), maxRunning, patience)
        decreases left
      {
        if left == 0 { break; }
        if queue == [] { break; }
        var candidate := queue[0];
        queue := queue[1..];
        left := left - 1;
        var fits := IsBatchCompatible(first, candidate);
        if candidate.stream || !fits {
          CompatibleIsNoStream(first, candidate);
          queue := queue + [candidate];
          break;
        }
        batch := batch + [candidate];
      }
    }

    /** Telling every request of the batch its end: the i-th result goes to the i-th request. */
    method Deliver(batch: seq<Request>, results: Option<seq<int>>)
      modifies this`signals
      ensures signals == old(signals) + Delivered(batch, results)
      ensures |signals| == |old(signals)| + |batch| && signals[..|old(signals)|] == old(signals)
      ensures results.Some? && |results.value| == |batch| ==>
                forall i :: 0 <= i < |batch| ==> signals[|old(signals)| + i] == Result(batch[i], results.value[i])
      ensures results.None? || |results.value| != |batch| ==>
                forall i :: 0 <= i < |batch| ==> signals[|old(signals)| + i] == Failed(batch[i])
    {
      if results.Some? && |results.value| == |batch| {
        for i := 0 to |batch|
          invariant signals == old(signals) + Delivered(batch, results)[..i]
        {
          signals := signals + [Result(batch[i], results.value[i])];
        }
      } else {
        for i := 0 to |batch|
          invariant signals == old(signals) + Delivered(batch, results)[..i]
        {
          signals := signals + [Failed(batch[i])];
        }
      }
      assert Delivered(batch, results)[..|batch|] == Delivered(batch, results);
    }
  }

  lemma CompatibleIsNoStream(first: Request, candidate: Request)
    ensures IsCompatible(first, candidate) ==> !candidate.stream
  {
  }

  /** Collecting loses and doubles nothing, and gives a batch that may be run as one. */
  lemma {:induction false} CollectIsGood(c: Config, batch: seq<Request>, queue: seq<Request>, patience: nat)
    requires GoodBatch(c, batch)
    ensures var r := Collect(batch, queue, c.maxRunning, patience);
            && GoodBatch(c, r.batch) && batch <= r.batch && MutuallyCompatible(r.batch)
            && multiset(r.batch) + multiset(r.queue) == multiset(batch) + multiset(queue)
    decreases patience
  {
    hide IsCompatible;
    if |batch| >= c.maxRunning || patience == 0 || queue == [] {
      CompatibleWithFirst(batch);
    } else {
      HeadAndTail(queue);
      if IsCompatible(batch[0], queue[0]) {
        CollectIsGood(c, batch + [queue[0]], queue[1..], patience - 1);
      } else {
        CompatibleWithFirst(batch);
      }
    }
  }

  /** Collecting takes requests from the front of the queue as long as they fit the first one, the batch
      has room and a get is left. The one that ends it because it does not fit goes to the back. */
  lemma {:induction false} CollectTakesExactly(
      batch: seq<Request>, queue: seq<Request>, most: nat, patience: nat, n: nat)
    requires batch != []
    requires n <= |queue| && n <= patience && (n > 0 ==> |batch| + n <= most)
    requires forall i :: 0 <= i < n ==> IsCompatible(batch[0], queue[i])
    requires |batch| + n >= most || n == patience || n == |queue| || !IsCompatible(batch[0], queue[n])
    ensures Collect(batch, queue, most, patience)
         == Collected(batch + queue[..n],
              if |batch| + n >= most || n == patience || n == |queue| then queue[n..] else queue[n + 1..] + [queue[n]])
    decreases n
  {
    hide IsCompatible;
    if n == 0 {
      assert batch + queue[..0] == batch && queue[0..] == queue;
    } else {
      CollectTakesExactly(batch + [queue[0]], queue[1..], most, patience - 1, n - 1);
      OneFromQueue(batch, queue, n);
    }
  }

  lemma OneFromQueue(batch: seq<Request>, queue: seq<Request>, n: nat)
    requires 0 < n <= |queue|
    ensures batch + [queue[0]] + queue[1..][..n - 1] == batch + queue[..n] && queue[1..][n - 1..] == queue[n..]
    ensures n < |queue| ==> queue[1..][n..] == queue[n + 1..] && queue[1..][n - 1] == queue[n]
  {
    assert queue[..n] == [queue[0]] + queue[1..][..n - 1];
    assert batch + [queue[0]] + queue[1..][..n - 1] == batch + ([queue[0]] + queue[1..][..n - 1]);
  }

  /** The worker's steps in a row while nothing arrives. */
  ghost predicate Steps(c: Config, states: seq<State>) {
    states != [] && forall i :: 0 <= i < |states| - 1 ==> WorkerStep(c, states[i], states[i + 1])
  }

  lemma StepInFront(c: Config, s: State, rest: seq<State>)
    requires Steps(c, rest) && WorkerStep(c, s, rest[0])
    ensures Steps(c, [s] + rest)
  {
    hide WorkerStep;
    var all := [s] + rest;
    forall i | 0 <= i < |all| - 1 ensures WorkerStep(c, all[i], all[i + 1]) {
      if i > 0 { assert all[i] == rest[i - 1] && all[i + 1] == rest[i]; }
    }
  }

  /** The collecting loop is the step relation's: a get and a comparison per candidate, a put of one
      that does not fit, and the end of the collecting, one worker step each. */
  lemma {:induction false} CollectIsSteps(c: Config, s: State, patience: nat) returns (states: seq<State>)
    requires s.worker.Collecting? && s.worker.batch != []
    requires c.maxQueue > 0 ==> |s.queue| <= c.maxQueue
    ensures Steps(c, states) && states[0] == s
    ensures var r := Collect(s.worker.batch, s.queue, c.maxRunning, patience);
            states[|states| - 1] == s.(queue := r.queue, worker := Running(r.batch))
    decreases patience
  {
    hide IsCompatible, WorkerStep;
    var batch := s.worker.batch;
    if |batch| >= c.maxRunning || patience == 0 || s.queue == [] {
      var t := s.(worker := Running(batch));
      StopStep(c, s, t);
      states := [s, t];
    } else {
      var r := s.queue[0];
      if IsCompatible(batch[0], r) {
        var t := s.(queue := s.queue[1..], worker := Collecting(batch + [r]));
        CandidateStep(c, s, t);
        var rest := CollectIsSteps(c, t, patience - 1);
        StepInFront(c, s, rest);
        states := [s] + rest;
      } else {
        var t := s.(queue := s.queue[1..], worker := PuttingBack(batch, r));
        var u := t.(queue := t.queue + [r], worker := Running(batch));
        CandidateStep(c, s, t);
        PutStep(c, t, u);
        states := [s, t, u];
      }
    }
  }

  lemma StopStep(c: Config, s: State, t: State)
    requires StopsCollecting(c, s, t)
    ensures WorkerStep(c, s, t)
  {
  }

  lemma CandidateStep(c: Config, s: State, t: State)
    requires TakesCandidate(c, s, t)
    ensures WorkerStep(c, s, t)
  {
  }

  lemma PutStep(c: Config, s: State, t: State)
    requires PutsBack(c, s, t)
    ensures WorkerStep(c, s, t)
  {
  }
}
