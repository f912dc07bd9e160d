/** Runs of the shared ring when ranks have to share acknowledgement cells, and the exact condition
    under which every run is safe. */
module RingCells {
  import opened SharedRing

  // ----- runs of one actor -----

  lemma {:induction false} RunAppend<T, O>(c: Config<T, O>, s: State<T, O>, a: seq<Actor<O>>, b: seq<Actor<O>>)
    requires c.Valid() && Shape(c, s)
    ensures Run(c, s, a + b) == Run(c, Run(c, s, a), b)
    decreases |a|
  {
    if a == [] {
      assert a + b == b;
    } else {
      assert (a + b)[1..] == a[1..] + b;
      if Enabled(c, s, a[0]) { RunAppend(c, Next(c, s, a[0]), a[1..], b); } else { RunAppend(c, s, a[1..], b); }
    }
  }

  /** The same actor n times. */
  function Times<O>(a: Actor<O>, n: nat): seq<Actor<O>> { if n == 0 then [] else [a] + Times(a, n - 1) }

  lemma OneOfTimes<T, O>(c: Config<T, O>, s: State<T, O>, a: Actor<O>, n: nat)
    requires c.Valid() && Shape(c, s) && n > 0 && Enabled(c, s, a)
    ensures Run(c, s, Times(a, n)) == Run(c, Next(c, s, a), Times(a, n - 1))
  {
    assert Times(a, n)[1..] == Times(a, n - 1);
  }

  /** Rank 0 is about to begin request q and all earlier ones are answered. */
  ghost predicate Between<T, O>(c: Config<T, O>, s: State<T, O>, q: nat) {
    && q >= 1 && s.submitter == Begin(c, q) && s.server == Idle(q - 1)
    && s.m.requestSeq == s.m.responseSeq == q - 1
  }

  /** What rank 0 sees in the cells lets it begin request q. */
  ghost predicate CellsPass<T, O>(c: Config<T, O>, s: State<T, O>, q: nat)
    requires c.Valid() && Shape(c, s)
  {
    var p := q - c.slots;
    p > 0 ==> forall r: nat :: 1 <= r < c.world ==> CellPasses(c, s, p, r)
  }

  predicate CellPasses<T, O>(c: Config<T, O>, s: State<T, O>, p: int, r: nat)
    requires c.Valid() && Shape(c, s)
  {
    Inside(c, s, c.Slot(p), r) && s.m.acks[c.Cell(c.Slot(p), r)] >= p
  }

  lemma Checks<T, O>(c: Config<T, O>, s: State<T, O>, q: nat, rank: nat) returns (more: seq<Actor<O>>)
    requires c.Valid() && Shape(c, s) && s.submitter == Check(q, rank) && rank >= 1 && CellsPass(c, s, q)
    ensures Run(c, s, more) == s.(submitter := PutX(q))
    decreases c.world - rank
  {
    if rank < c.world && q > c.slots { assert CellPasses(c, s, q - c.slots, rank); }
    var s' := Next(c, s, Rank0);
    if rank < c.world && q > c.slots {
      var p := q - c.slots;
      assert forall r: nat :: CellPasses(c, s, p, r) ==> CellPasses(c, s', p, r);
      var rest := Checks(c, s', q, rank + 1);
      more := [Rank0] + rest;
      assert more[1..] == rest;
    } else {
      more := [Rank0];
    }
  }

  function AfterSubmit<T, O>(c: Config<T, O>, s: State<T, O>, q: nat): State<T, O> {
    var r := c.requests(q);
    s.(m := s.m.(x := r.x, ids := r.ids, weights := r.weights, layerId := r.layer, requestSeq := q),
       submitter := Await(q))
  }

  lemma Submits<T, O>(c: Config<T, O>, s: State<T, O>, q: nat)
    requires c.Valid() && Shape(c, s) && s.submitter == PutX(q)
    ensures Run(c, s, Times(Rank0, 6)) == AfterSubmit(c, s, q)
  {
    hide Run, Times;
    var s1 := Next(c, s, Rank0);
    var s2 := Next(c, s1, Rank0);
    var s3 := Next(c, s2, Rank0);
    OneOfTimes(c, s, Rank0, 6);
    OneOfTimes(c, s1, Rank0, 5);
    OneOfTimes(c, s2, Rank0, 4);
    WritesHeader(c, s3, q);
  }

  lemma WritesHeader<T, O>(c: Config<T, O>, s: State<T, O>, q: nat)
    requires c.Valid() && Shape(c, s) && s.submitter == PutResponse(q, s.m.responseSeq)
    ensures Run(c, s, Times(Rank0, 3))
         == s.(m := s.m.(layerId := c.requests(q).layer, requestSeq := q), submitter := Await(q))
  {
    hide Run, Times;
    var s1 := Next(c, s, Rank0);
    var s2 := Next(c, s1, Rank0);
    OneOfTimes(c, s, Rank0, 3);
    OneOfTimes(c, s1, Rank0, 2);
    OneOfTimes(c, s2, Rank0, 1);
    RunNone(c, Next(c, s2, Rank0), Rank0);
  }

  lemma RunNone<T, O>(c: Config<T, O>, s: State<T, O>, a: Actor<O>)
    requires c.Valid() && Shape(c, s)
    ensures Run(c, s, Times(a, 0)) == s
  {
  }

  function Answered<T, O>(c: Config<T, O>, s: State<T, O>, q: nat): State<T, O>
    requires c.Valid() && Shape(c, s)
  {
    var outputs := if c.Served(q) then s.m.outputs[c.Slot(q) := c.Expected(q)] else s.m.outputs;
    s.(m := s.m.(outputs := outputs, responseSeq := q), server := Idle(q))
  }

  /** The server has its output written and is about to respond. */
  lemma Responds<T, O>(c: Config<T, O>, s: State<T, O>, q: nat) returns (more: seq<Actor<O>>)
    requires c.Valid() && Shape(c, s) && s.server == Respond(q)
    ensures Run(c, s, more) == s.(m := s.m.(responseSeq := q), server := Idle(q))
  {
    hide Run, Times;
    var n := if c.native then 1 else 4;
    more := Times(TheServer, n);
    OneOfTimes(c, s, TheServer, n);
    var s1 := Next(c, s, TheServer);
    if !c.native {
      var s2 := Next(c, s1, TheServer);
      var s3 := Next(c, s2, TheServer);
      OneOfTimes(c, s1, TheServer, 3);
      OneOfTimes(c, s2, TheServer, 2);
      OneOfTimes(c, s3, TheServer, 1);
      RunNone(c, Next(c, s3, TheServer), TheServer);
    } else {
      RunNone(c, s1, TheServer);
    }
  }

  function Filled<T, O>(c: Config<T, O>, s: State<T, O>, q: nat): State<T, O>
    requires c.Valid() && Shape(c, s)
  {
    Answered(c, s, q).(server := Respond(q)).(m := Answered(c, s, q).m.(responseSeq := s.m.responseSeq))
  }

  lemma Fills<T, O>(c: Config<T, O>, s: State<T, O>, q: nat) returns (more: seq<Actor<O>>)
    requires c.Valid() && Shape(c, s) && q >= 1 && s.server == Idle(q - 1) && s == AfterSubmit(c, s, q)
    ensures Run(c, s, more) == Filled(c, s, q)
  {
    hide Run, Times;
    var n := if c.Served(q) then 4 else 3;
    more := Times(TheServer, n);
    var s1 := Next(c, s, TheServer);
    var s2 := Next(c, s1, TheServer);
    var s3 := Next(c, s2, TheServer);
    OneOfTimes(c, s, TheServer, n);
    OneOfTimes(c, s1, TheServer, n - 1);
    OneOfTimes(c, s2, TheServer, n - 2);
    if c.Served(q) {
      OneOfTimes(c, s3, TheServer, 1);
      RunNone(c, Next(c, s3, TheServer), TheServer);
    } else {
      RunNone(c, s3, TheServer);
    }
  }

  lemma Collects<T, O>(c: Config<T, O>, s: State<T, O>, q: nat)
    requires c.Valid() && Shape(c, s) && s.submitter == Await(q) && s.m.responseSeq >= q
    ensures Run(c, s, Times(Rank0, 2))
         == s.(got := s.got[0 := s.got[0] + [s.m.outputs[c.Slot(q)]]], submitter := Begin(c, q + 1))
  {
    OneOfTimes(c, s, Rank0, 2);
    OneOfTimes(c, Next(c, s, Rank0), Rank0, 1);
  }

  /** Only rank 0 and the server have moved. */
  ghost predicate ReadersUntouched<T, O>(s: State<T, O>, t: State<T, O>) {
    && t.readers == s.readers && t.m.acks == s.m.acks && t.left == s.left && |t.got| == |s.got|
    && forall r :: 1 <= r < |s.got| ==> t.got[r] == s.got[r]
  }

  /** One request from submission to rank 0's copy, while the readers rest. */
  lemma Round<T, O>(c: Config<T, O>, s: State<T, O>, q: nat) returns (more: seq<Actor<O>>)
    requires c.Valid() && Shape(c, s) && Between(c, s, q) && q <= c.total && CellsPass(c, s, q)
    ensures var t := Run(c, s, more);
      && Between(c, t, q + 1) && ReadersUntouched(s, t)
      && (c.Served(q) ==> t.m.outputs[c.Slot(q)] == c.Expected(q))
  {
    var checks := Checks(c, s, q, 1);
    var s1 := Run(c, s, checks);
    Submits(c, s1, q);
    var s2 := Run(c, s1, Times(Rank0, 6));
    var answer := Answers(c, s2, q);
    hide Run, Times;
    RunAppend(c, s1, Times(Rank0, 6), answer);
    more := checks + (Times(Rank0, 6) + answer);
    RunAppend(c, s, checks, Times(Rank0, 6) + answer);
  }

  lemma Answers<T, O>(c: Config<T, O>, s: State<T, O>, q: nat) returns (more: seq<Actor<O>>)
    requires c.Valid() && Shape(c, s) && q >= 1 && s.server == Idle(q - 1) && s == AfterSubmit(c, s, q)
    ensures var t := Run(c, s, more);
      && Between(c, t, q + 1) && ReadersUntouched(s, t)
      && (c.Served(q) ==> t.m.outputs[c.Slot(q)] == c.Expected(q))
  {
    var fills := Fills(c, s, q);
    var s1 := Run(c, s, fills);
    var responds := Responds(c, s1, q);
    var s2 := Run(c, s1, responds);
    Collects(c, s2, q);
    hide Run, Times;
    RunAppend(c, s1, responds, Times(Rank0, 2));
    more := fills + (responds + Times(Rank0, 2));
    RunAppend(c, s, fills, responds + Times(Rank0, 2));
  }

  /** As long as no slot is used again, nobody waits for a reader. */
  lemma Rounds<T, O>(c: Config<T, O>, s: State<T, O>, q: nat, last: nat) returns (more: seq<Actor<O>>)
    requires c.Valid() && Shape(c, s) && Between(c, s, q) && q <= last + 1 && last <= c.total && last <= c.slots
    ensures var t := Run(c, s, more); Between(c, t, last + 1) && ReadersUntouched(s, t)
    decreases last + 1 - q
  {
    if q == last + 1 {
      more := [];
    } else {
      var first := Round(c, s, q);
      var rest := Rounds(c, Run(c, s, first), q + 1, last);
      RunAppend(c, s, first, rest);
      more := first + rest;
    }
  }

  /** Reader r has copied the output of request q and written its cell. */
  function Acknowledged<T, O>(c: Config<T, O>, s: State<T, O>, r: nat, q: nat): State<T, O>
    requires c.Valid() && Shape(c, s) && r < c.world && Inside(c, s, c.Slot(q), r)
  {
    s.(m := s.m.(acks := s.m.acks[c.Cell(c.Slot(q), r) := q]), readers := s.readers[r := Attend(c, q + 1)],
       got := s.got[r := s.got[r] + [s.m.outputs[c.Slot(q)]]])
  }

  lemma Acknowledges<T, O>(c: Config<T, O>, s: State<T, O>, r: nat, q: nat)
    requires c.Valid() && Shape(c, s) && 1 <= r < c.world && s.readers[r] == Wait(q) && s.m.responseSeq >= q
    ensures Inside(c, s, c.Slot(q), r) ==> Run(c, s, Times(Rank(r), 3)) == Acknowledged(c, s, r, q)
    ensures !Inside(c, s, c.Slot(q), r) ==> Run(c, s, Times(Rank(r), 3)).left
  {
    hide Run, Times;
    var s1 := Next(c, s, Rank(r));
    var s2 := Next(c, s1, Rank(r));
    OneOfTimes(c, s, Rank(r), 3);
    OneOfTimes(c, s1, Rank(r), 2);
    OneOfTimes(c, s2, Rank(r), 1);
    RunNone(c, Next(c, s2, Rank(r)), Rank(r));
  }

  // ----- leaving the buffer -----

  /** Reader r acknowledges the requests q..last, or leaves the buffer on the way. */
  lemma CatchesUp<T, O>(c: Config<T, O>, s: State<T, O>, r: nat, q: nat, last: nat) returns (more: seq<Actor<O>>)
    requires c.Valid() && Shape(c, s) && 1 <= r < c.world && s.readers[r] == Attend(c, q)
    requires q <= last + 1 && last <= c.total && s.m.responseSeq >= last
    ensures var t := Run(c, s, more);
      t.left || (t.readers[r] == Attend(c, last + 1) && t.m.responseSeq == s.m.responseSeq)
    decreases last + 1 - q
  {
    if q == last + 1 {
      more := [];
    } else {
      Acknowledges(c, s, r, q);
      more := Times(Rank(r), 3);
      if Inside(c, s, c.Slot(q), r) {
        var rest := CatchesUp(c, Acknowledged(c, s, r, q), r, q + 1, last);
        RunAppend(c, s, more, rest);
        more := more + rest;
      }
    }
  }

  /** Some request no later than the first use of the last slot has the last slot in use. */
  lemma FirstOfLastSlot<T, O>(c: Config<T, O>) returns (q: nat)
    requires c.Valid() && c.total >= 1
    ensures 1 <= q <= c.total && q <= c.slots && c.Slot(q) == c.LastSlot()
  {
    q := if c.total < c.slots then c.total else if c.slots == 1 then 1 else c.slots - 1;
    if c.slots > 1 { ModIs(q, c.slots, 0, q); }
  }

  lemma LeavesBuffer<T, O>(c: Config<T, O>, s0: State<T, O>) returns (schedule: seq<Actor<O>>)
    requires c.Valid() && !c.Fits() && Init(c, s0)
    ensures Run(c, s0, schedule).left
  {
    var q := FirstOfLastSlot(c);
    var r := c.world - 1;
    var rounds := Rounds(c, s0, 1, q);
    var s1 := Run(c, s0, rounds);
    var catching := CatchesUp(c, s1, r, 1, q - 1);
    var s2 := Run(c, s1, catching);
    schedule := rounds + catching;
    RunAppend(c, s0, rounds, catching);
    if !s2.left {
      Acknowledges(c, s2, r, q);
      RunAppend(c, s0, schedule, Times(Rank(r), 3));
      schedule := schedule + Times(Rank(r), 3);
    }
  }

  /** Every run of the ring is safe. */
  ghost predicate AlwaysSafe<T(!new), O(!new)>(c: Config<T, O>)
    requires c.Valid()
  {
    forall s0: State<T, O>, schedule: seq<Actor<O>> :: Init(c, s0) ==> Safe(c, Run(c, s0, schedule))
  }

  /** A start state: the input area of the segment may hold anything. */
  ghost function Start<T, O>(c: Config<T, O>): (s: State<T, O>)
    requires c.Valid()
    ensures Init(c, s)
  {
    var r := c.requests(0);
    State(Memory(0, 0, -1, r.x, r.ids, r.weights, seq(c.slots, (i: nat) => c.initial(i)),
      seq(c.CellCount(), (i: nat) => 0)),
          Begin(c, 1), seq(c.world, (r: nat) => Attend(c, 1)), Idle(0), seq(c.world, (r: nat) => []), false)
  }

  /** All runs read their own outputs and stay in the buffer if and only if the last cell
      acknowledged in lies in it; once requests reach the last slot, if and only if every rank that
      acknowledges has a cell of its own in each slot. */
  lemma SafeExactly<T(!new), O(!new)>(c: Config<T, O>)
    requires c.Valid()
    ensures AlwaysSafe(c) <==> c.Fits()
    ensures c.total >= 1 && c.total >= c.slots - 1 ==> (AlwaysSafe(c) <==> c.world == 1 || c.world <= c.cells)
  {
    if c.total >= 1 && c.total >= c.slots - 1 { FitsMeansOwnCells(c); }
    if c.Fits() {
      forall s0: State<T, O>, schedule: seq<Actor<O>> | Init(c, s0) ensures Safe(c, Run(c, s0, schedule)) {
        EveryReadIsOwnOutput(c, s0, schedule);
      }
    } else {
      var s0 := Start(c);
      var schedule := LeavesBuffer(c, s0);
      assert !Safe(c, Run(c, s0, schedule));
    }
  }

  // ----- sharing a cell -----

  /** Readers r, r + 1, ... other than `victim` acknowledge the first request. */
  lemma OthersAcknowledge<T, O>(c: Config<T, O>, s: State<T, O>, r: nat, victim: nat) returns (more: seq<Actor<O>>)
    requires c.Valid() && Shape(c, s) && 1 <= r <= c.world && c.total >= 1 && c.Slot(1) == 1
    requires c.Cell(1, c.world - 1) < c.CellCount() && s.m.responseSeq >= 1
    requires forall o :: r <= o < c.world ==> s.readers[o] == Wait(1)
    ensures var t := Run(c, s, more);
      && t.m == s.m.(acks := t.m.acks) && t.submitter == s.submitter && t.server == s.server && t.left == s.left
      && (forall o :: 0 <= o < c.world && (o < r || o == victim) ==>
            t.readers[o] == s.readers[o] && t.got[o] == s.got[o])
      && (forall o :: r <= o < c.world && o != victim ==> t.readers[o] == Attend(c, 2))
      && (forall o: nat :: r <= o < c.world && o != victim ==> CellPasses(c, t, 1, o))
      && (forall o: nat :: o < r && CellPasses(c, s, 1, o) ==> CellPasses(c, t, 1, o))
    decreases c.world - r
  {
    if r == c.world {
      more := [];
    } else if r == victim {
      more := OthersAcknowledge(c, s, r + 1, victim);
    } else {
      Acknowledges(c, s, r, 1);
      var s1 := Acknowledged(c, s, r, 1);
      var rest := OthersAcknowledge(c, s1, r + 1, victim);
      RunAppend(c, s, Times(Rank(r), 3), rest);
      more := Times(Rank(r), 3) + rest;
    }
  }

  /** Leaving the buffer is not the only failure. With two ranks more than cells, the cell of slot 1
      in which rank cells + 1 acknowledges request 1 is the cell of slot 2 in which rank 1
      acknowledges request 2: rank 0 reuses the slot under the eyes of the other rank, which then
      copies the output of a later request. Ten ranks on three slots of eight cells are enough. */
  lemma SharedCellReadsLaterOutput<T, O>(c: Config<T, O>, s0: State<T, O>) returns (schedule: seq<Actor<O>>)
    requires c.Valid() && Init(c, s0) && c.total > c.slots && c.Served(c.slots + 1)
    requires c.cells + 2 <= c.world && c.world <= (c.slots - 1) * c.cells
    ensures var t := Run(c, s0, schedule); !t.left && t.got[c.cells + 1] == [c.Expected(c.slots + 1)]
  {
    SlotsOfTheExample(c);
    var rounds := Rounds(c, s0, 1, c.slots);
    var s1 := Run(c, s0, rounds);
    var passing := OneIsOvertaken(c, s1);
    var s2 := Run(c, s1, passing);
    var round := Round(c, s2, c.slots + 1);
    var s3 := Run(c, s2, round);
    ReadsLate(c, s3, c.cells + 1);
    hide Run;
    RunAppend(c, s2, round, [Rank(c.cells + 1)]);
    RunAppend(c, s1, passing, round + [Rank(c.cells + 1)]);
    schedule := rounds + (passing + (round + [Rank(c.cells + 1)]));
    RunAppend(c, s0, rounds, passing + (round + [Rank(c.cells + 1)]));
  }

  /** Every reader but one acknowledges request 1, rank 1 request 2 as well, and the one has only
      seen the response: rank 0 may go on. */
  lemma OneIsOvertaken<T, O>(c: Config<T, O>, s: State<T, O>) returns (more: seq<Actor<O>>)
    requires c.Valid() && Shape(c, s) && c.total > c.slots && Between(c, s, c.slots + 1) && !s.left
    requires c.slots >= 3 && c.Slot(1) == 1 && c.Slot(2) == 2 && 2 <= c.cells + 1 < c.world
    requires c.Cell(1, c.cells + 1) == c.Cell(2, 1) < c.CellCount() && c.Cell(1, c.world - 1) < c.CellCount()
    requires forall r :: 0 <= r < c.world ==> s.readers[r] == Wait(1) && (r > 0 ==> s.got[r] == [])
    ensures var t := Run(c, s, more);
      && Between(c, t, c.slots + 1) && CellsPass(c, t, c.slots + 1) && !t.left
      && t.readers[c.cells + 1] == Read(1) && t.got[c.cells + 1] == []
  {
    var victim := c.cells + 1;
    var others := OthersAcknowledge(c, s, 1, victim);
    var s1 := Run(c, s, others);
    Acknowledges(c, s1, 1, 2);
    var s2 := Acknowledged(c, s1, 1, 2);
    SecondPasses(c, s1, victim);
    var s3 := Next(c, s2, Rank(victim));
    assert Run(c, s2, [Rank(victim)]) == s3;
    assert forall r: nat :: CellPasses(c, s2, 1, r) ==> CellPasses(c, s3, 1, r);
    hide Run;
    RunAppend(c, s1, Times(Rank(1), 3), [Rank(victim)]);
    more := others + (Times(Rank(1), 3) + [Rank(victim)]);
    RunAppend(c, s, others, Times(Rank(1), 3) + [Rank(victim)]);
  }

  /** The acknowledgement of request 2 by rank 1 passes for one of request 1 by the victim. */
  lemma SecondPasses<T, O>(c: Config<T, O>, s: State<T, O>, victim: nat)
    requires c.Valid() && Shape(c, s) && 2 <= victim < c.world && c.Slot(1) == 1 && c.Slot(2) == 2
    requires c.Cell(1, victim) == c.Cell(2, 1) < c.CellCount()
    requires forall r: nat :: 1 <= r < c.world && r != victim ==> CellPasses(c, s, 1, r)
    ensures forall r: nat :: 1 <= r < c.world ==> CellPasses(c, Acknowledged(c, s, 1, 2), 1, r)
  {
    forall r: nat | 1 <= r < c.world ensures CellPasses(c, Acknowledged(c, s, 1, 2), 1, r) {
      if r != victim { assert CellPasses(c, s, 1, r); }
    }
  }

  lemma ReadsLate<T, O>(c: Config<T, O>, s: State<T, O>, r: nat)
    requires c.Valid() && Shape(c, s) && 1 <= r < c.world && s.readers[r] == Read(1) && s.got[r] == []
    ensures var t := Run(c, s, [Rank(r)]); t.got[r] == [s.m.outputs[c.Slot(1)]] && t.left == s.left
  {
  }

  lemma AtMostOnce(n: nat, k: nat)
    requires n <= 1
    ensures n * k <= k
  {
  }

  lemma SlotsOfTheExample<T, O>(c: Config<T, O>)
    requires c.Valid() && c.cells + 2 <= c.world && c.world <= (c.slots - 1) * c.cells
    ensures c.slots >= 3 && c.Slot(1) == 1 && c.Slot(2) == 2 && c.Slot(c.slots + 1) == 1
    ensures c.Cell(1, c.cells + 1) == c.Cell(2, 1) < c.CellCount()
    ensures c.Cell(1, c.world - 1) < c.CellCount()
  {
    assert c.slots * c.cells == (c.slots - 1) * c.cells + c.cells;
    if 1 <= c.slots <= 2 { AtMostOnce(c.slots - 1, c.cells); }
    ModIs(1, c.slots, 0, 1);
    ModIs(2, c.slots, 0, 2);
    ModIs(c.slots + 1, c.slots, 1, 1);
  }
}
