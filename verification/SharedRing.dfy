/** The CPU-MoE request/response ring in shared memory: rank 0 submits, one server computes into
    a ring of output slots, every other rank reads its slot and acknowledges. Each word or buffer
    written or read is one step, so a schedule is an arbitrary interleaving. The numbers of slots
    and of acknowledgement cells a slot has are both settings, and neither is checked against the
    number of ranks. */
module SharedRing {
  datatype Request<T> = Request(layer: int, x: T, ids: T, weights: T)

  /** `requests(q)` is what rank 0 brings for sequence number q = 1..total; `compute` is one
      layer's expert sum; `initial` is what the output slots hold at start; `native` tells the C++
      server loop from the Python one, which rewrites the whole header to respond. */
  datatype Config<!T, !O> = Config(
    world: nat, slots: nat, cells: nat, layers: int, total: nat, native: bool,
    requests: nat -> Request<T>, compute: (int, T, T, T) -> O, initial: nat -> O)
  {
    predicate Valid() { world >= 1 && slots >= 1 }

    /** Where in the one flat buffer rank r acknowledges a request of slot k. */
    function Cell(k: nat, r: nat): nat { k * cells + r }

    function CellCount(): nat { slots * cells }

    function LastSlot(): nat
      requires slots >= 1
    { if total < slots then total else slots - 1 }

    /** The last cell anybody acknowledges in lies in the buffer. */
    predicate Fits()
      requires Valid()
    { world == 1 || total == 0 || Cell(LastSlot(), world - 1) < CellCount() }

    function Slot(q: int): (k: nat)
      requires slots >= 1
      ensures k < slots
    { q % slots }

    predicate Served(q: nat) { 0 <= requests(q).layer < layers }

    /** What the slot of request q must hold once q is answered: the output for q's own layer and
        input; a layer outside the model leaves the slot as request q - slots left it. */
    function Expected(q: int): O
      requires slots >= 1
      decreases if q > 0 then q else 0
    {
      if q <= 0 then initial(Slot(q))
      else if Served(q) then compute(requests(q).layer, requests(q).x, requests(q).ids, requests(q).weights)
      else Expected(q - slots)
    }
  }

  datatype Memory<T, O> = Memory(
    requestSeq: int, responseSeq: int, layerId: int,
    x: T, ids: T, weights: T, outputs: seq<O>, acks: seq<int>)

  /** Rank 0, by the request it is busy with. */
  datatype Submitter<O> =
    | Check(q: nat, rank: nat)    // wait_slot_acks(q - slots): ranks 1..rank have acknowledged
    | PutX(q: nat) | PutIds(q: nat) | PutWeights(q: nat)
    | PutResponse(q: nat, resp: int)  // the header rewrite starts with the response it read
    | PutLayer(q: nat) | PutRequest(q: nat)
    | Await(q: nat)               // wait_response(q)
    | Copy(q: nat)                // response seen, output not yet copied
    | Done

  /** A rank that only reads, by the request it is busy with. */
  datatype Reader = Wait(q: nat) | Read(q: nat) | Ack(q: nat) | Finished(q: nat)

  datatype Server =
    | Idle(last: int)
    | Taken(req: int)
    | Compute(req: int, layer: int)
    | Writing(req: int, layer: int)       // the slot is being filled
    | Respond(req: int)
    | EchoRequest(req: int, r: int, l: int) | EchoLayer(req: int, l: int) | EchoResponse(req: int)

  /** `left`: some rank has accessed an acknowledgement cell beyond the buffer, which raises; what
      happens after that is not described further. */
  datatype State<T, O> = State(
    m: Memory<T, O>, submitter: Submitter<O>, readers: seq<Reader>, server: Server, got: seq<seq<O>>, left: bool)

  ghost predicate Init<T, O>(c: Config<T, O>, s: State<T, O>): (b: bool)
    requires c.Valid()
    ensures b ==> Shape(c, s)
  {
    && s.m.requestSeq == 0 && s.m.responseSeq == 0
    && s.m.outputs == seq(c.slots, (i: nat) => c.initial(i))
    && s.m.acks == seq(c.CellCount(), (i: nat) => 0) && !s.left
    && s.submitter == Begin(c, 1) && s.server == Idle(0)
    && |s.readers| == c.world && (forall r :: 0 <= r < c.world ==> s.readers[r] == Attend(c, 1))
    && s.got == seq(c.world, (r: nat) => [])
  }

  function Begin<T, O>(c: Config<T, O>, q: nat): Submitter<O> { if q <= c.total then Check(q, 1) else Done }

  function Attend<T, O>(c: Config<T, O>, q: nat): Reader { if q <= c.total then Wait(q) else Finished(q) }

  /** `Scribble(v)`: while the server fills a slot, the slot may hold anything. */
  datatype Actor<O> = Rank0 | Rank(r: nat) | TheServer | Scribble(v: O)

  predicate Shape<T, O>(c: Config<T, O>, s: State<T, O>) {
    && c.slots >= 1 && |s.m.outputs| == c.slots && |s.m.acks| == c.CellCount()
    && |s.readers| == |s.got| == c.world
  }

  predicate Inside<T, O>(c: Config<T, O>, s: State<T, O>, k: nat, r: nat) { c.Cell(k, r) < |s.m.acks| }

  predicate Enabled<T, O>(c: Config<T, O>, s: State<T, O>, a: Actor<O>)
    requires c.Valid() && Shape(c, s)
  {
    match a
    case Rank0 =>
      (match s.submitter
       case Check(q, rank) =>
         var k := c.Slot(q - c.slots);
         rank < c.world && q > c.slots && Inside(c, s, k, rank) ==> s.m.acks[c.Cell(k, rank)] >= q - c.slots
       case Await(q) => s.m.responseSeq >= q
       case Done => false
       case _ => true)
    case Rank(r) =>
      0 < r < c.world &&
      (match s.readers[r]
       case Wait(q) => s.m.responseSeq >= q
       case Finished(_) => false
       case _ => true)
    case TheServer => s.server.Idle? ==> s.m.requestSeq > s.server.last
    case Scribble(_) => s.server.Writing?
  }

  function Next<T, O>(c: Config<T, O>, s: State<T, O>, a: Actor<O>): (t: State<T, O>)
    requires c.Valid() && Shape(c, s) && Enabled(c, s, a)
    ensures Shape(c, t)
  {
    match a
    case Rank0 =>
      (match s.submitter
       case Check(q, rank) =>
         if rank >= c.world || q <= c.slots then s.(submitter := PutX(q))
         else if Inside(c, s, c.Slot(q - c.slots), rank) then s.(submitter := Check(q, rank + 1))
         else s.(left := true)
       case PutX(q) => s.(m := s.m.(x := c.requests(q).x), submitter := PutIds(q))
       case PutIds(q) => s.(m := s.m.(ids := c.requests(q).ids), submitter := PutWeights(q))
       case PutWeights(q) =>
         s.(m := s.m.(weights := c.requests(q).weights), submitter := PutResponse(q, s.m.responseSeq))
       case PutResponse(q, resp) => s.(m := s.m.(responseSeq := resp), submitter := PutLayer(q))
       case PutLayer(q) => s.(m := s.m.(layerId := c.requests(q).layer), submitter := PutRequest(q))
       case PutRequest(q) => s.(m := s.m.(requestSeq := q), submitter := Await(q))
       case Await(q) => s.(submitter := Copy(q))
       case Copy(q) => s.(got := s.got[0 := s.got[0] + [s.m.outputs[c.Slot(q)]]], submitter := Begin(c, q + 1))
       case Done => s)
    case Rank(r) =>
      (match s.readers[r]
       case Wait(q) => s.(readers := s.readers[r := Read(q)])
       case Read(q) =>
         s.(got := s.got[r := s.got[r] + [s.m.outputs[c.Slot(q)]]], readers := s.readers[r := Ack(q)])
       case Ack(q) =>
         if Inside(c, s, c.Slot(q), r) then
           s.(m := s.m.(acks := s.m.acks[c.Cell(c.Slot(q), r) := q]), readers := s.readers[r := Attend(c, q + 1)])
         else s.(left := true)
       case Finished(_) => s)
    case Scribble(v) => s.(m := s.m.(outputs := s.m.outputs[c.Slot(s.server.req) := v]))
    case TheServer =>
      (match s.server
       case Idle(_) => s.(server := Taken(s.m.requestSeq))
       case Taken(req) => s.(server := Compute(req, s.m.layerId))
       case Compute(req, layer) =>
         if 0 <= layer < c.layers then s.(server := Writing(req, layer)) else s.(server := Respond(req))
       case Writing(req, layer) =>
         s.(m := s.m.(outputs := s.m.outputs[c.Slot(req) := c.compute(layer, s.m.x, s.m.ids, s.m.weights)]),
            server := Respond(req))
       case Respond(req) =>
         if c.native then s.(m := s.m.(responseSeq := req), server := Idle(req))
         else s.(server := EchoRequest(req, s.m.requestSeq, s.m.layerId))
       case EchoRequest(req, r, l) => s.(m := s.m.(requestSeq := r), server := EchoLayer(req, l))
       case EchoLayer(req, l) => s.(m := s.m.(layerId := l), server := EchoResponse(req))
       case EchoResponse(req) => s.(m := s.m.(responseSeq := req), server := Idle(req)))
  }

  // ----- residues -----

  lemma {:induction false} ModPeriod(q: int, n: nat)
    requires n >= 1
    ensures (q - n) % n == q % n
  {
    var d := q / n;
    assert q == d * n + q % n;
    ModIs(q - n, n, d - 1, q % n);
  }

  lemma ModIs(a: int, n: nat, d: int, r: int)
    requires n >= 1 && a == d * n + r && 0 <= r < n
    ensures a % n == r
  {
    var e := a / n;
    assert a == e * n + a % n;
    if e < d { Apart(e, d, n); }
    if d < e { Apart(d, e, n); }
  }

  lemma {:induction false} Apart(a: int, b: int, n: nat)
    requires a < b
    ensures a * n + n <= b * n
    decreases b - a
  {
    if a + 1 < b { Apart(a + 1, b, n); }
    assert (a + 1) * n == a * n + n;
  }

  /** Two sequence numbers less than one ring apart share a slot only if they are equal. */
  lemma OneSlotEach(p: int, q: int, n: nat)
    requires n >= 1 && p - q < n && q - p < n && p % n == q % n
    ensures p == q
  {
    assert p == p / n * n + p % n && q == q / n * n + q % n;
    if p / n < q / n { Apart(p / n, q / n, n); }
    if q / n < p / n { Apart(q / n, p / n, n); }
  }

  // ----- cells -----

  lemma CellInside<T, O>(c: Config<T, O>, k: nat, r: nat)
    requires k < c.slots && r < c.cells
    ensures c.Cell(k, r) < c.CellCount()
  {
    Apart(k, c.slots, c.cells);
  }

  /** Then no acknowledgement leaves the buffer. */
  lemma AckInside<T, O>(c: Config<T, O>, q: nat, r: nat)
    requires c.Valid() && c.Fits() && 1 <= q <= c.total && r < c.world
    ensures c.world > 1 ==> c.Cell(c.Slot(q), r) < c.CellCount()
  {
    SlotAtMostLast(c, q);
    if c.Slot(q) < c.LastSlot() { Apart(c.Slot(q), c.LastSlot(), c.cells); }
  }

  lemma SlotAtMostLast<T, O>(c: Config<T, O>, q: nat)
    requires c.Valid() && q <= c.total
    ensures c.Slot(q) <= c.LastSlot()
  {
    if c.total < c.slots { ModIs(q, c.slots, 0, q); }
  }

  /** As soon as requests reach the last slot, that means that every acknowledging rank has a cell
      of its own in each slot. */
  lemma FitsMeansOwnCells<T, O>(c: Config<T, O>)
    requires c.Valid() && c.total >= 1 && c.total >= c.slots - 1
    ensures c.Fits() <==> c.world == 1 || c.world <= c.cells
  {
    assert c.LastSlot() == c.slots - 1;
    assert c.slots * c.cells == (c.slots - 1) * c.cells + c.cells;
  }

  /** Within a slot's own cells no two are the same. */
  lemma CellsApart<T, O>(c: Config<T, O>, k: nat, r: nat, j: nat, o: nat)
    requires r < c.cells && o < c.cells && c.Cell(k, r) == c.Cell(j, o)
    ensures k == j && r == o
  {
    if k < j { Apart(k, j, c.cells); }
    if j < k { Apart(j, k, c.cells); }
  }

  // ----- the invariant -----

  /** The request rank 0 is preparing, waiting for, or has just seen answered. */
  function Current<T, O>(c: Config<T, O>, s: State<T, O>): nat {
    if s.submitter.Done? then c.total + 1 else s.submitter.q
  }

  predicate Submitted<O>(p: Submitter<O>) { p.Await? || p.Copy? }

  /** The server has begun to overwrite the slot of the request it is working on. */
  predicate Overwriting(v: Server) { !v.Idle? && !v.Taken? && !v.Compute? }

  predicate Echoing(v: Server) { v.EchoRequest? || v.EchoLayer? || v.EchoResponse? }

  predicate Header<T, O>(c: Config<T, O>, s: State<T, O>) {
    var q := Current(c, s);
    && 1 <= q <= c.total + 1
    && s.m.requestSeq == (if Submitted(s.submitter) then q else q - 1)
    && (!s.submitter.Await? ==> s.m.responseSeq == s.m.requestSeq)
    && (s.submitter.Await? ==> q - 1 <= s.m.responseSeq <= q)
    && (s.submitter.PutResponse? ==> s.submitter.resp == q - 1)
    && (!s.submitter.Done? ==> q <= c.total)
    && (s.submitter.Check? ==> s.submitter.rank >= 1)
  }

  ghost predicate Input<T, O>(c: Config<T, O>, s: State<T, O>) {
    var p, r := s.submitter, c.requests(Current(c, s));
    var sent := Submitted(p) || p.PutRequest?;
    && (sent || p.PutIds? || p.PutWeights? || p.PutResponse? || p.PutLayer? ==> s.m.x == r.x)
    && (sent || p.PutWeights? || p.PutResponse? || p.PutLayer? ==> s.m.ids == r.ids)
    && (sent || p.PutResponse? || p.PutLayer? ==> s.m.weights == r.weights)
    && (sent ==> s.m.layerId == r.layer)
  }

  ghost predicate Serving<T, O>(c: Config<T, O>, s: State<T, O>)
    requires Shape(c, s)
  {
    if s.server.Idle? then s.server.last == s.m.responseSeq
    else
      && s.server.req == s.m.requestSeq == s.m.responseSeq + 1
      && (s.server.Compute? || s.server.Writing? ==> s.server.layer == s.m.layerId)
      && (s.server.Writing? ==> 0 <= s.server.layer < c.layers)
      && (s.server.EchoRequest? ==> s.server.r == s.m.requestSeq)
      && (s.server.EchoRequest? || s.server.EchoLayer? ==> s.server.l == s.m.layerId)
      && (s.server.Respond? || Echoing(s.server) ==>
            s.m.outputs[c.Slot(s.server.req)] == c.Expected(s.server.req))
  }

  /** Answered requests whose slot has not been given to a later one still have their output. */
  ghost predicate Slots<T, O>(c: Config<T, O>, s: State<T, O>)
    requires Shape(c, s)
  {
    var oldest := (if Overwriting(s.server) then s.m.requestSeq else s.m.responseSeq) - c.slots;
    forall p :: oldest < p <= s.m.responseSeq ==> s.m.outputs[c.Slot(p)] == c.Expected(p)
  }

  predicate ReaderOk<T, O>(c: Config<T, O>, s: State<T, O>, r: nat)
    requires c.Valid() && Shape(c, s) && r < c.world
  {
    var q := s.readers[r].q;
    && 1 <= q <= c.total + 1 && (s.readers[r].Finished? <==> q == c.total + 1)
    && q > s.m.requestSeq - c.slots
    && q <= s.m.responseSeq + 1
    && (s.readers[r].Read? || s.readers[r].Ack? ==> q <= s.m.responseSeq)
    && (s.submitter.Check? && s.submitter.q > c.slots && r < s.submitter.rank ==> q > s.submitter.q - c.slots)
    && (!s.submitter.Check? && !s.submitter.Done? ==> q > s.submitter.q - c.slots)
  }

  /** Acknowledgement cells of rank r: nothing beyond what it has read, and its latest reads. */
  ghost predicate Cells<T, O>(c: Config<T, O>, s: State<T, O>, r: nat)
    requires c.Valid() && Shape(c, s) && r < c.world
  {
    c.world <= c.cells ==>
      && (forall k: nat :: k < c.slots ==> Inside(c, s, k, r) && s.m.acks[c.Cell(k, r)] < s.readers[r].q)
      && (forall p: int :: 1 <= p < s.readers[r].q <= p + c.slots ==> s.m.acks[c.Cell(c.Slot(p), r)] == p)
  }

  /** How many outputs rank r has copied, each of them the one it waited for. */
  ghost predicate Copied<T, O>(c: Config<T, O>, s: State<T, O>, r: nat)
    requires c.Valid() && Shape(c, s) && r < c.world
  {
    var n := if r == 0 then Current(c, s) - 1 else if s.readers[r].Ack? then s.readers[r].q else s.readers[r].q - 1;
    && |s.got[r]| == n
    && forall q :: 1 <= q <= n ==> s.got[r][q - 1] == c.Expected(q)
  }

  ghost predicate Inv<T, O>(c: Config<T, O>, s: State<T, O>) {
    && c.Valid() && c.Fits() && Shape(c, s) && !s.left
    && Header(c, s) && Input(c, s) && Serving(c, s) && Slots(c, s)
    && (forall r :: 1 <= r < c.world ==> ReaderOk(c, s, r) && Cells(c, s, r))
    && forall r :: 0 <= r < c.world ==> Copied(c, s, r)
  }

  lemma InitSlots<T, O>(c: Config<T, O>, s: State<T, O>)
    requires c.Valid() && Init(c, s)
    ensures Slots(c, s)
  {
    forall p | 0 - c.slots < p <= 0 ensures s.m.outputs[c.Slot(p)] == c.Expected(p) {}
  }

  lemma InitCells<T, O>(c: Config<T, O>, s: State<T, O>, r: nat)
    requires c.Valid() && Init(c, s) && 1 <= r < c.world
    ensures ReaderOk(c, s, r) && Cells(c, s, r)
  {
    if r < c.cells {
      forall k: nat | k < c.slots ensures Inside(c, s, k, r) { CellInside(c, k, r); }
    }
  }

  lemma InitInv<T, O>(c: Config<T, O>, s: State<T, O>)
    requires c.Valid() && c.Fits() && Init(c, s)
    ensures Inv(c, s)
  {
    InitSlots(c, s);
    hide Slots, Cells, ReaderOk, Config.CellCount, Config.Cell, Config.Fits;
    forall r | 1 <= r < c.world ensures ReaderOk(c, s, r) && Cells(c, s, r) { InitCells(c, s, r); }
  }

  /** Until a rank acknowledges q, q's slot holds q's own output: the heart of the ring. */
  lemma SlotIsStillMine<T, O>(c: Config<T, O>, s: State<T, O>, r: nat)
    requires Inv(c, s) && 1 <= r < c.world && (s.readers[r].Read? || s.readers[r].Ack?)
    ensures s.m.outputs[c.Slot(s.readers[r].q)] == c.Expected(s.readers[r].q)
  {
    assert ReaderOk(c, s, r);
  }

  /** Filling the slot of the request at hand leaves the slots still in force alone. */
  lemma ServerKeepsSlots<T, O>(c: Config<T, O>, s: State<T, O>, a: Actor<O>)
    requires Inv(c, s) && Enabled(c, s, a) && (a.TheServer? || a.Scribble?)
    ensures Slots(c, Next(c, s, a))
  {
    var s' := Next(c, s, a);
    var q := s.m.requestSeq;
    if !s.server.Idle? {
      forall p | q - c.slots < p <= s'.m.responseSeq ensures s'.m.outputs[c.Slot(p)] == c.Expected(p) {
        if c.Slot(p) == c.Slot(q) { OneSlotEach(p, q, c.slots); }
      }
    }
  }

  lemma ServerKeepsServing<T, O>(c: Config<T, O>, s: State<T, O>, a: Actor<O>)
    requires Inv(c, s) && Enabled(c, s, a) && (a.TheServer? || a.Scribble?)
    ensures Header(c, Next(c, s, a)) && Input(c, Next(c, s, a)) && Serving(c, Next(c, s, a))
  {
    var q := s.m.requestSeq;
    if s.server.Compute? && !c.Served(q) {
      ModPeriod(q, c.slots);
      assert s.m.outputs[c.Slot(q - c.slots)] == c.Expected(q - c.slots);
    }
  }

  lemma ServerKeepsReader<T, O>(c: Config<T, O>, s: State<T, O>, a: Actor<O>, r: nat)
    requires Inv(c, s) && Enabled(c, s, a) && (a.TheServer? || a.Scribble?) && 1 <= r < c.world
    ensures ReaderOk(c, Next(c, s, a), r) && Cells(c, Next(c, s, a), r)
  {
    hide Input, Slots, Copied, Config.Fits;
    assert ReaderOk(c, s, r) && Cells(c, s, r);
  }

  lemma ServerKeepsCopied<T, O>(c: Config<T, O>, s: State<T, O>, a: Actor<O>, r: nat)
    requires Inv(c, s) && Enabled(c, s, a) && (a.TheServer? || a.Scribble?) && r < c.world
    ensures Copied(c, Next(c, s, a), r)
  {
    hide Input, Slots, ReaderOk, Cells, Config.CellCount, Config.Cell, Config.Fits, Config.Slot, Inside;
    assert Copied(c, s, r);
  }

  lemma ServerStep<T, O>(c: Config<T, O>, s: State<T, O>, a: Actor<O>)
    requires Inv(c, s) && Enabled(c, s, a) && (a.TheServer? || a.Scribble?)
    ensures Inv(c, Next(c, s, a))
  {
    var s' := Next(c, s, a);
    ServerKeepsSlots(c, s, a);
    ServerKeepsServing(c, s, a);
    assert s'.left == s.left;
    hide Enabled, Next, Header, Input, Serving, Slots, ReaderOk, Cells, Copied;
    forall r | 1 <= r < c.world ensures ReaderOk(c, s', r) && Cells(c, s', r) { ServerKeepsReader(c, s, a, r); }
    forall r | 0 <= r < c.world ensures Copied(c, s', r) { ServerKeepsCopied(c, s, a, r); }
  }

  lemma Rank0KeepsRest<T, O>(c: Config<T, O>, s: State<T, O>)
    requires Inv(c, s) && Enabled(c, s, Rank0)
    ensures var s' := Next(c, s, Rank0);
      !s'.left && Header(c, s') && Input(c, s') && Serving(c, s') && Slots(c, s')
  {
    if s.submitter.Check? && s.submitter.q > c.slots {
      FitsMeansOwnCells(c);
      if s.submitter.rank < c.world { CellInside(c, c.Slot(s.submitter.q - c.slots), s.submitter.rank); }
    }
  }

  /** Rank 0 goes on past a cell only when its rank has read the request the slot was used for. */
  lemma PassedMeansRead<T, O>(c: Config<T, O>, s: State<T, O>, r: nat)
    requires Inv(c, s) && Enabled(c, s, Rank0) && 1 <= r < c.world
    requires s.submitter.Check? && s.submitter.q > c.slots && s.submitter.rank == r
    ensures s.readers[r].q > s.submitter.q - c.slots
  {
    hide Header, Input, Serving, Slots, ReaderOk, Copied;
    HeaderQ(c, s);
    FitsMeansOwnCells(c);
    CellInside(c, c.Slot(s.submitter.q - c.slots), r);
    assert Cells(c, s, r);
  }

  lemma HeaderQ<T, O>(c: Config<T, O>, s: State<T, O>)
    requires Inv(c, s) && !s.submitter.Done?
    ensures 1 <= s.submitter.q <= c.total
  {
  }

  lemma Rank0KeepsReader<T, O>(c: Config<T, O>, s: State<T, O>, r: nat)
    requires Inv(c, s) && Enabled(c, s, Rank0) && 1 <= r < c.world
    ensures ReaderOk(c, Next(c, s, Rank0), r) && Cells(c, Next(c, s, Rank0), r)
  {
    hide Input, Serving, Slots, Copied, Config.CellCount, Config.Cell, Config.Fits, Config.Slot;
    assert Cells(c, Next(c, s, Rank0), r) by { assert Cells(c, s, r); }
    hide Cells;
    assert ReaderOk(c, s, r);
    if s.submitter.Check? && s.submitter.q > c.slots && s.submitter.rank == r { PassedMeansRead(c, s, r); }
  }

  lemma Rank0KeepsCopied<T, O>(c: Config<T, O>, s: State<T, O>, r: nat)
    requires Inv(c, s) && Enabled(c, s, Rank0) && r < c.world
    ensures Copied(c, Next(c, s, Rank0), r)
  {
    assert Copied(c, s, r);
    if s.submitter.Copy? { assert s.m.outputs[c.Slot(s.submitter.q)] == c.Expected(s.submitter.q); }
  }

  lemma Rank0Step<T, O>(c: Config<T, O>, s: State<T, O>)
    requires Inv(c, s) && Enabled(c, s, Rank0)
    ensures Inv(c, Next(c, s, Rank0))
  {
    hide Enabled, Next, Header, Input, Serving, Slots, ReaderOk, Cells, Copied;
    var s' := Next(c, s, Rank0);
    Rank0KeepsRest(c, s);
    forall r | 1 <= r < c.world ensures ReaderOk(c, s', r) && Cells(c, s', r) { Rank0KeepsReader(c, s, r); }
    forall r | 0 <= r < c.world ensures Copied(c, s', r) { Rank0KeepsCopied(c, s, r); }
  }

  /** The cell written belongs to the rank that writes, so nobody else's cells change. */
  lemma AckKeepsCells<T, O>(c: Config<T, O>, s: State<T, O>, r: nat, o: nat)
    requires Inv(c, s) && Enabled(c, s, Rank(r)) && 1 <= o < c.world && s.readers[r].Ack?
    ensures Cells(c, Next(c, s, Rank(r)), o)
  {
    var s' := Next(c, s, Rank(r));
    var q := s.readers[r].q;
    assert ReaderOk(c, s, r) && Cells(c, s, o) && Cells(c, s, r);
    if c.cells < c.world { return; }
    CellInside(c, c.Slot(q), r);
    forall k: nat | k < c.slots
      ensures s'.m.acks[c.Cell(k, o)] == (if o == r && k == c.Slot(q) then q else s.m.acks[c.Cell(k, o)])
    {
      if c.Cell(k, o) == c.Cell(c.Slot(q), r) { CellsApart(c, k, o, c.Slot(q), r); }
    }
    forall p: int | 1 <= p < s'.readers[o].q <= p + c.slots ensures s'.m.acks[c.Cell(c.Slot(p), o)] == p {
      if o == r && c.Slot(p) == c.Slot(q) { OneSlotEach(p, q, c.slots); }
    }
  }

  lemma ReaderKeepsRest<T, O>(c: Config<T, O>, s: State<T, O>, r: nat)
    requires Inv(c, s) && Enabled(c, s, Rank(r))
    ensures var s' := Next(c, s, Rank(r));
      !s'.left && Header(c, s') && Input(c, s') && Serving(c, s') && Slots(c, s')
  {
    assert ReaderOk(c, s, r);
    if s.readers[r].q <= c.total { AckInside(c, s.readers[r].q, r); }
  }

  lemma ReaderKeepsReader<T, O>(c: Config<T, O>, s: State<T, O>, r: nat, o: nat)
    requires Inv(c, s) && Enabled(c, s, Rank(r)) && 1 <= o < c.world
    ensures ReaderOk(c, Next(c, s, Rank(r)), o) && Cells(c, Next(c, s, Rank(r)), o)
  {
    hide Input, Serving, Slots, Copied, Config.CellCount, Config.Cell, Config.Fits, Config.Slot, Inside;
    ReaderKeepsCells(c, s, r, o);
    hide Cells;
    assert ReaderOk(c, s, o) && ReaderOk(c, s, r);
  }

  lemma ReaderKeepsCells<T, O>(c: Config<T, O>, s: State<T, O>, r: nat, o: nat)
    requires Inv(c, s) && Enabled(c, s, Rank(r)) && 1 <= o < c.world
    ensures Cells(c, Next(c, s, Rank(r)), o)
  {
    hide Header, Input, Serving, Slots, Copied, ReaderOk, Config.CellCount, Config.Cell, Config.Fits, Config.Slot;
    assert Cells(c, s, o);
    if s.readers[r].Ack? { AckKeepsCells(c, s, r, o); }
  }

  lemma ReaderKeepsCopied<T, O>(c: Config<T, O>, s: State<T, O>, r: nat, o: nat)
    requires Inv(c, s) && Enabled(c, s, Rank(r)) && o < c.world
    ensures Copied(c, Next(c, s, Rank(r)), o)
  {
    hide Header, Input, Serving, Slots, Cells, Config.CellCount, Config.Cell, Config.Fits;
    assert Copied(c, s, o);
    if s.readers[r].Read? { SlotIsStillMine(c, s, r); }
  }

  lemma ReaderStep<T, O>(c: Config<T, O>, s: State<T, O>, r: nat)
    requires Inv(c, s) && Enabled(c, s, Rank(r))
    ensures Inv(c, Next(c, s, Rank(r)))
  {
    hide Enabled, Next, Header, Input, Serving, Slots, ReaderOk, Cells, Copied;
    var s' := Next(c, s, Rank(r));
    ReaderKeepsRest(c, s, r);
    forall o | 1 <= o < c.world ensures ReaderOk(c, s', o) && Cells(c, s', o) { ReaderKeepsReader(c, s, r, o); }
    forall o | 0 <= o < c.world ensures Copied(c, s', o) { ReaderKeepsCopied(c, s, r, o); }
  }

  lemma StepKeepsInv<T, O>(c: Config<T, O>, s: State<T, O>, a: Actor<O>)
    requires Inv(c, s) && Enabled(c, s, a)
    ensures Inv(c, Next(c, s, a))
  {
    match a
    case Rank0 => Rank0Step(c, s);
    case Rank(r) => ReaderStep(c, s, r);
    case _ => ServerStep(c, s, a);
  }

  // ----- whole runs -----

  ghost function Run<T, O>(c: Config<T, O>, s: State<T, O>, schedule: seq<Actor<O>>): (t: State<T, O>)
    requires c.Valid() && Shape(c, s)
    ensures Shape(c, t)
    decreases |schedule|
  {
    if schedule == [] then s
    else if Enabled(c, s, schedule[0]) then Run(c, Next(c, s, schedule[0]), schedule[1..])
    else Run(c, s, schedule[1..])
  }

  lemma {:induction false} RunKeepsInv<T, O>(c: Config<T, O>, s: State<T, O>, schedule: seq<Actor<O>>)
    requires Inv(c, s)
    ensures Inv(c, Run(c, s, schedule))
    decreases |schedule|
  {
    hide Header, Input, Serving, Slots, ReaderOk, Cells, Copied;
    if schedule != [] {
      if Enabled(c, s, schedule[0]) {
        StepKeepsInv(c, s, schedule[0]);
        RunKeepsInv(c, Next(c, s, schedule[0]), schedule[1..]);
      } else {
        RunKeepsInv(c, s, schedule[1..]);
      }
    }
  }

  /** No access has left the buffer, and what every rank has copied for the requests 1, 2, ... it is
      through with is exactly the output of each one's own layer and input. */
  ghost predicate Safe<T, O>(c: Config<T, O>, s: State<T, O>)
    requires c.Valid() && Shape(c, s)
  {
    !s.left && forall r, q :: 0 <= r < c.world && 1 <= q <= |s.got[r]| ==> s.got[r][q - 1] == c.Expected(q)
  }

  /** With a cell for every rank all runs are safe; and while a rank is between seeing the response
      and acknowledging it, the slot it looks at holds its own output and nothing else. */
  lemma EveryReadIsOwnOutput<T, O>(c: Config<T, O>, s0: State<T, O>, schedule: seq<Actor<O>>)
    requires c.Valid() && c.Fits() && Init(c, s0)
    ensures Safe(c, Run(c, s0, schedule))
    ensures var s := Run(c, s0, schedule);
      forall r :: 0 < r < c.world && (s.readers[r].Read? || s.readers[r].Ack?) ==>
        s.m.outputs[c.Slot(s.readers[r].q)] == c.Expected(s.readers[r].q)
  {
    InitInv(c, s0);
    RunKeepsInv(c, s0, schedule);
    var s := Run(c, s0, schedule);
    forall r, q | 0 <= r < c.world && 1 <= q <= |s.got[r]| ensures s.got[r][q - 1] == c.Expected(q) {
      assert Copied(c, s, r);
    }
    forall r | 0 < r < c.world && (s.readers[r].Read? || s.readers[r].Ack?)
      ensures s.m.outputs[c.Slot(s.readers[r].q)] == c.Expected(s.readers[r].q)
    {
      SlotIsStillMine(c, s, r);
    }
  }

  /** The response number never goes backwards, although both sides rewrite the header word. */
  lemma {:induction false} ResponseNeverGoesBack<T, O>(c: Config<T, O>, s: State<T, O>, schedule: seq<Actor<O>>)
    requires Inv(c, s)
    ensures s.m.responseSeq <= Run(c, s, schedule).m.responseSeq <= Run(c, s, schedule).m.requestSeq
    decreases |schedule|
  {
    if schedule != [] {
      var a := schedule[0];
      if Enabled(c, s, a) {
        StepKeepsInv(c, s, a);
        assert s.m.responseSeq <= Next(c, s, a).m.responseSeq;
        ResponseNeverGoesBack(c, Next(c, s, a), schedule[1..]);
      } else {
        ResponseNeverGoesBack(c, s, schedule[1..]);
      }
    }
  }

  /** A reader whose cell holds rank 0 up has not read the request the slot was used for, and can
      move. */
  lemma LaggardCanStep<T, O>(c: Config<T, O>, s: State<T, O>)
    requires Inv(c, s) && s.submitter.Check? && !Enabled(c, s, Rank0)
    ensures Enabled(c, s, Rank(s.submitter.rank))
  {
    hide Input, Serving, Slots, Copied;
    var q, r := s.submitter.q, s.submitter.rank;
    assert ReaderOk(c, s, r) && Cells(c, s, r);
    FitsMeansOwnCells(c);
    var p := q - c.slots;
    assert s.m.acks[c.Cell(c.Slot(p), r)] < p;
  }

  /** The ring never deadlocks: until rank 0 and every reader have finished the last request, the
      submitter, a reader or the server can move. */
  lemma SomebodyCanStep<T, O>(c: Config<T, O>, s: State<T, O>)
    requires Inv(c, s)
    requires !s.submitter.Done? || exists r :: 1 <= r < c.world && !s.readers[r].Finished?
    ensures exists a: Actor<O> :: !a.Scribble? && Enabled(c, s, a)
  {
    hide Input, Slots, Copied, Cells;
    if s.submitter.Done? {
      var r :| 1 <= r < c.world && !s.readers[r].Finished?;
      assert ReaderOk(c, s, r);
      assert Enabled(c, s, Rank(r));
    } else if s.submitter.Await? {
      assert Enabled(c, s, Rank0) || Enabled(c, s, TheServer);
    } else if !Enabled(c, s, Rank0) {
      LaggardCanStep(c, s);
    } else {
      assert Enabled(c, s, Rank0);
    }
  }

  // ----- how long a run can be -----

  /** Steps of rank 0 for the requests q..total: eight accesses, a last look at the loop, and a look
      at every other rank's cell where a slot is used again. */
  function SubmitWork<T, O>(c: Config<T, O>, q: nat): nat
    requires c.Valid()
    decreases c.total + 1 - q
  {
    if q > c.total then 0 else 9 + (if q > c.slots then c.world - 1 else 0) + SubmitWork(c, q + 1)
  }

  /** Steps rank 0 still has to make. */
  function SubmitLeft<T, O>(c: Config<T, O>, p: Submitter<O>): int
    requires c.Valid()
  {
    match p
    case Check(q, rank) => SubmitWork(c, q + 1) + 9 + (if q > c.slots && rank < c.world then c.world - rank else 0)
    case PutX(q) => SubmitWork(c, q + 1) + 8
    case PutIds(q) => SubmitWork(c, q + 1) + 7
    case PutWeights(q) => SubmitWork(c, q + 1) + 6
    case PutResponse(q, _) => SubmitWork(c, q + 1) + 5
    case PutLayer(q) => SubmitWork(c, q + 1) + 4
    case PutRequest(q) => SubmitWork(c, q + 1) + 3
    case Await(q) => SubmitWork(c, q + 1) + 2
    case Copy(q) => SubmitWork(c, q + 1) + 1
    case Done => 0
  }

  function ReadLeft<T, O>(c: Config<T, O>, p: Reader): int {
    match p
    case Wait(q) => 3 * (c.total - q) + 3
    case Read(q) => 3 * (c.total - q) + 2
    case Ack(q) => 3 * (c.total - q) + 1
    case Finished(_) => 0
  }

  /** At most eight steps of the server for each request to come. */
  function ServeLeft<T, O>(c: Config<T, O>, p: Server): int {
    match p
    case Idle(last) => 8 * (c.total - last)
    case Taken(req) => 8 * (c.total - req) + 7
    case Compute(req, _) => 8 * (c.total - req) + 6
    case Writing(req, _) => 8 * (c.total - req) + 5
    case Respond(req) => 8 * (c.total - req) + 4
    case EchoRequest(req, _, _) => 8 * (c.total - req) + 3
    case EchoLayer(req, _) => 8 * (c.total - req) + 2
    case EchoResponse(req) => 8 * (c.total - req) + 1
  }

  /** What an actor still has to do; scribbling into a slot is not counted. */
  function Left<T, O>(c: Config<T, O>, s: State<T, O>, a: Actor<O>): int
    requires c.Valid() && Shape(c, s)
  {
    match a
    case Rank0 => SubmitLeft(c, s.submitter)
    case Rank(r) => if 0 < r < c.world then ReadLeft(c, s.readers[r]) else 0
    case TheServer => ServeLeft(c, s.server)
    case Scribble(_) => 0
  }

  lemma SubmitMove<T, O>(c: Config<T, O>, s: State<T, O>)
    requires c.Valid() && Shape(c, s) && Enabled(c, s, Rank0)
    ensures var t := Next(c, s, Rank0); !t.left ==> SubmitLeft(c, t.submitter) <= SubmitLeft(c, s.submitter) - 1
  {
    hide Config.CellCount, Config.Cell, Config.Slot;
  }

  lemma ServeMove<T, O>(c: Config<T, O>, s: State<T, O>)
    requires c.Valid() && Shape(c, s) && Enabled(c, s, TheServer)
    ensures ServeLeft(c, Next(c, s, TheServer).server) <= ServeLeft(c, s.server) - 1
  {
    hide Config.CellCount, Config.Cell, Config.Slot, Inside;
  }

  lemma ReadMove<T, O>(c: Config<T, O>, s: State<T, O>, r: nat)
    requires Inv(c, s) && Enabled(c, s, Rank(r))
    ensures var t := Next(c, s, Rank(r)); !t.left ==> ReadLeft(c, t.readers[r]) <= ReadLeft(c, s.readers[r]) - 1
  {
    hide Header, Input, Slots, ReaderOk, Cells, Copied, Serving, Config.CellCount, Config.Cell, Config.Slot;
    ReaderQ(c, s, r);
  }

  lemma MoveSpendsWork<T, O>(c: Config<T, O>, s: State<T, O>, a: Actor<O>)
    requires Inv(c, s) && Enabled(c, s, a) && !a.Scribble?
    ensures !Next(c, s, a).left ==> Left(c, Next(c, s, a), a) <= Left(c, s, a) - 1
  {
    hide Next, Header, Input, Slots, ReaderOk, Cells, Copied, Serving, SubmitLeft, ReadLeft, ServeLeft;
    match a
    case Rank0 => SubmitMove(c, s);
    case Rank(r) => ReadMove(c, s, r);
    case TheServer => ServeMove(c, s);
  }

  lemma ReaderQ<T, O>(c: Config<T, O>, s: State<T, O>, r: nat)
    requires Inv(c, s) && 1 <= r < c.world
    ensures 1 <= s.readers[r].q && (s.readers[r].q <= c.total || s.readers[r].Finished?)
  {
    assert ReaderOk(c, s, r);
  }

  lemma OthersWorkStays<T, O>(c: Config<T, O>, s: State<T, O>, a: Actor<O>, b: Actor<O>)
    requires c.Valid() && Shape(c, s) && Enabled(c, s, a) && a != b && !b.Scribble?
    ensures Left(c, Next(c, s, a), b) == Left(c, s, b)
  {
  }

  lemma WorkLeft<T, O>(c: Config<T, O>, s: State<T, O>, a: Actor<O>)
    requires Inv(c, s)
    ensures Left(c, s, a) >= 0
  {
    hide Input, Slots, Cells, Copied;
    if a.Rank? && 0 < a.r < c.world { assert ReaderOk(c, s, a.r); }
  }

  /** How often an actor really moved in a schedule. */
  ghost function Moves<T, O>(c: Config<T, O>, s: State<T, O>, schedule: seq<Actor<O>>, a: Actor<O>): nat
    requires c.Valid() && Shape(c, s)
    decreases |schedule|
  {
    if schedule == [] then 0
    else if Enabled(c, s, schedule[0]) then
      (if schedule[0] == a then 1 else 0) + Moves(c, Next(c, s, schedule[0]), schedule[1..], a)
    else Moves(c, s, schedule[1..], a)
  }

  lemma {:induction false} MovesSpendWork<T, O>(
      c: Config<T, O>, s: State<T, O>, schedule: seq<Actor<O>>, a: Actor<O>)
    requires Inv(c, s) && !a.Scribble?
    ensures Left(c, Run(c, s, schedule), a) <= Left(c, s, a) - Moves(c, s, schedule, a)
    decreases |schedule|
  {
    hide Left, Enabled, Next, Header, Input, Serving, Slots, ReaderOk, Cells, Copied;
    if schedule != [] {
      var b := schedule[0];
      if Enabled(c, s, b) {
        StepKeepsInv(c, s, b);
        if a == b { MoveSpendsWork(c, s, a); } else { OthersWorkStays(c, s, b, a); }
        MovesSpendWork(c, Next(c, s, b), schedule[1..], a);
      } else {
        MovesSpendWork(c, s, schedule[1..], a);
      }
    }
  }

  /** Liveness over whole runs: no actor makes more moves than the requests call for, whatever the
      schedule, and until everything is answered and read somebody can move. */
  lemma EveryRunEnds<T, O>(c: Config<T, O>, s0: State<T, O>, schedule: seq<Actor<O>>, a: Actor<O>)
    requires c.Valid() && c.Fits() && Init(c, s0) && !a.Scribble?
    ensures Moves(c, s0, schedule, a)
         <= match a case Rank0 => SubmitWork(c, 1) case TheServer => 8 * c.total case _ => 3 * c.total
    ensures var s := Run(c, s0, schedule);
      || (s.submitter.Done? && forall r :: 1 <= r < c.world ==> s.readers[r].Finished?)
      || exists b: Actor<O> :: !b.Scribble? && Enabled(c, s, b)
  {
    InitInv(c, s0);
    var s := Run(c, s0, schedule);
    RunKeepsInv(c, s0, schedule);
    MovesSpendWork(c, s0, schedule, a);
    WorkLeft(c, s, a);
    if !s.submitter.Done? || exists r :: 1 <= r < c.world && !s.readers[r].Finished? { SomebodyCanStep(c, s); }
  }
}
