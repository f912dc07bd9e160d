/** Rewriting a GGUF template: metadata and most tensors are taken over, selected routed tensors are
    replaced by F16 data, and everything is laid out anew. What comes out is read by the parser. */
module GgufRewrite {
  import opened Gguf
  import opened GgufReader
  import opened Multiples
  import opened Texts

  const F16 := 1

  datatype Routed = Routed(layer: int, role: string)

  /** The command's options. `spec` reads a tensor name; `payload` is the converted data of a routed
      tensor, or nothing if the checkpoint does not have it; `toInt` is int() on metadata values that
      are no integers. */
  datatype Options = Options(
    spec: Bytes -> Option<Routed>, layers: Option<set<int>>, roles: Option<set<string>>, most: Option<int>,
    payload: (Bytes, seq<nat>) -> Option<Bytes>, toInt: Value -> Option<int>)

  predicate Selected(o: Options, name: Bytes, soFar: nat) {
    && o.spec(name).Some?
    && (o.layers.Some? ==> o.spec(name).value.layer in o.layers.value)
    && (o.roles.Some? ==> o.spec(name).value.role in o.roles.value)
    && (o.most.Some? ==> soFar < o.most.value)
  }

  // ----- the plan -----

  datatype Plan = Plan(typeIds: map<Bytes, nat>, sizes: map<Bytes, nat>, selected: nat)

  /** One more tensor: selected tensors become F16, the others must have a known size. */
  function PlanMore(o: Options, p: Plan, r: Record): Option<Plan> {
    if Selected(o, r.name, p.selected) then
      Some(Plan(p.typeIds[r.name := F16], p.sizes[r.name := 2 * Product(r.dims)], p.selected + 1))
    else
      var n := PlannerNbytes(r.typeId, r.dims);
      if n.None? then None else Some(Plan(p.typeIds[r.name := r.typeId], p.sizes[r.name := n.value], p.selected))
  }

  function PlanOf(o: Options, rs: seq<Record>): Option<Plan> {
    if rs == [] then Some(Plan(map[], map[], 0))
    else
      var before := PlanOf(o, rs[..|rs| - 1]);
      if before.None? then None else PlanMore(o, before.value, rs[|rs| - 1])
  }

  method PlanRewrite(o: Options, rs: seq<Record>) returns (plan: Option<Plan>)
    ensures plan == PlanOf(o, rs)
  {
    var p := Plan(map[], map[], 0);
    assert rs[..0] == [];
    for i := 0 to |rs|
      invariant PlanOf(o, rs[..i]) == Some(p)
    {
      assert rs[..i + 1][..i] == rs[..i] && rs[..i + 1][i] == rs[i];
      var r := rs[i];
      if Selected(o, r.name, p.selected) {
        p := Plan(p.typeIds[r.name := F16], p.sizes[r.name := 2 * Product(r.dims)], p.selected + 1);
      } else {
        var n := PlannerNbytes(r.typeId, r.dims);
        if n.None? {
          NoPlan(o, rs, i + 1);
          return None;
        }
        p := Plan(p.typeIds[r.name := r.typeId], p.sizes[r.name := n.value], p.selected);
      }
    }
    assert rs[..|rs|] == rs;
    plan := Some(p);
  }

  lemma {:induction false} NoPlan(o: Options, rs: seq<Record>, n: nat)
    requires n <= |rs| && PlanOf(o, rs[..n]).None?
    ensures PlanOf(o, rs).None?
    decreases |rs| - n
  {
    if n == |rs| {
      assert rs[..n] == rs;
    } else {
      assert rs[..n + 1][..n] == rs[..n];
      NoPlan(o, rs, n + 1);
    }
  }

  function SizeOf(p: Plan, name: Bytes): nat { if name in p.sizes then p.sizes[name] else 0 }

  function TypeOf(p: Plan, name: Bytes): nat { if name in p.typeIds then p.typeIds[name] else 0 }

  // ----- the layout -----

  datatype Layout = Layout(offsets: map<Bytes, nat>, end: nat)

  function LayoutOf(p: Plan, rs: seq<Record>, a: nat): Layout
    requires a > 0
  {
    if rs == [] then Layout(map[], 0)
    else
      var before := LayoutOf(p, rs[..|rs| - 1], a);
      var name := rs[|rs| - 1].name;
      Layout(before.offsets[name := before.end], before.end + AlignUp(SizeOf(p, name), a))
  }

  method LayOut(p: Plan, rs: seq<Record>, a: nat) returns (l: Layout)
    requires a > 0
    ensures l == LayoutOf(p, rs, a)
  {
    var offsets: map<Bytes, nat> := map[];
    var off := 0;
    for i := 0 to |rs|
      invariant off >= 0 && Layout(offsets, off) == LayoutOf(p, rs[..i], a)
    {
      assert rs[..i + 1][..i] == rs[..i];
      offsets := offsets[rs[i].name := off];
      off := off + AlignUp(SizeOf(p, rs[i].name), a);
    }
    assert rs[..|rs|] == rs;
    l := Layout(offsets, off);
  }

  function OffsetOf(l: Layout, name: Bytes): nat { if name in l.offsets then l.offsets[name] else 0 }

  function NewRecord(r: Record, p: Plan, l: Layout): Record {
    Record(r.name, r.dims, TypeOf(p, r.name), OffsetOf(l, r.name))
  }

  function NewRecords(rs: seq<Record>, p: Plan, l: Layout): (n: seq<Record>)
    ensures |n| == |rs| && forall i :: 0 <= i < |rs| ==> n[i] == NewRecord(rs[i], p, l)
  {
    if rs == [] then [] else [NewRecord(rs[0], p, l)] + NewRecords(rs[1..], p, l)
  }

  /** Offsets that do not fit 64 bits cannot be packed. */
  predicate Packable(rs: seq<Record>) { forall i :: 0 <= i < |rs| ==> rs[i].offset < U64 && rs[i].typeId < U32 }

  // ----- writing -----

  function Zeros(n: nat): (z: Bytes)
    ensures |z| == n
  { seq(n, i => 0) }

  /** `_pad_file` */
  function Padded(f: Bytes, a: nat): Bytes
    requires a > 0
  { f + Zeros(AlignUp(|f|, a) - |f|) }

  /** The data of one tensor in the output. */
  function PayloadOf(o: Options, d: Bytes, p: Plan, r: Record, from: nat): Option<Bytes> {
    if TypeOf(p, r.name) == F16 && o.spec(r.name).Some? then
      var b := o.payload(r.name, r.dims);
      if b.None? || |b.value| != 2 * Product(r.dims) then None else b
    else
      var n := PlannerNbytes(r.typeId, r.dims);
      if n.None? then None else Extent(d, from, n.value)
  }

  /** n bytes from an offset; no bytes are there anywhere. */
  function Extent(d: Bytes, from: nat, n: nat): Option<Bytes> {
    if n == 0 then Some([]) else if from + n > |d| then None else Some(d[from..from + n])
  }

  /** The file after the first k tensors. */
  function WrittenTo(
      o: Options, d: Bytes, p: Plan, rs: seq<Record>, dataStart: nat, a: nat, start: Bytes, k: nat): Option<Bytes>
    requires k <= |rs| && a > 0
  {
    if k == 0 then Some(start)
    else
      var f := WrittenTo(o, d, p, rs, dataStart, a, start, k - 1);
      var b := PayloadOf(o, d, p, rs[k - 1], dataStart + rs[k - 1].offset);
      if f.None? || b.None? then None else Some(Padded(f.value + b.value, a))
  }

  /** The whole rewrite; `a` is the alignment the Python reader took from the metadata. */
  function Rewritten(o: Options, d: Bytes, a: nat): Option<Bytes> {
    var h := ReadHeader(d);
    if h.Fail? || a == 0 then None
    else
      var rs := h.value.records;
      var plan := PlanOf(o, rs);
      var raw := RawMetadata(d, |h.value.entries|);
      if plan.None? || raw.None? then None
      else
        var records := NewRecords(rs, plan.value, LayoutOf(plan.value, rs, a));
        if !Packable(records) then None
        else
          var front := Preamble(h.value.version, |rs|, |h.value.entries|) + raw.value + RecordsBytes(records);
          WrittenTo(o, d, plan.value, rs, AlignUp(h.pos, a), a, Padded(front, a), |rs|)
  }

  /** `_copy_bytes`: chunk by chunk, and nothing if the template ends early. */
  method CopyBytes(d: Bytes, out: Bytes, offset: nat, nbytes: nat, chunk: nat) returns (r: Option<Bytes>)
    requires chunk > 0
    ensures r == match Extent(d, offset, nbytes) case Some(b) => Some(out + b) case None => None
  {
    var remaining, pos, dst := nbytes, offset, out;
    assert out + [] == out;
    while remaining > 0
      invariant 0 <= remaining && pos + remaining == offset + nbytes && offset <= pos
      invariant pos > offset ==> pos <= |d| && dst == out + d[offset..pos]
      invariant pos == offset ==> dst == out
      decreases remaining
    {
      var size := if remaining < chunk then remaining else chunk;
      if pos + size > |d| { return None; }
      assert d[offset..pos + size] == d[offset..pos] + d[pos..pos + size];
      dst := dst + d[pos..pos + size];
      pos := pos + size;
      remaining := remaining - size;
    }
    r := Some(dst);
  }

  method WriteTensorRecords(out: Bytes, rs: seq<Record>, p: Plan, l: Layout) returns (r: Option<Bytes>)
    ensures r == if Packable(NewRecords(rs, p, l)) then Some(out + RecordsBytes(NewRecords(rs, p, l))) else None
  {
    hide Le, StringBytes, DimsBytes;
    ghost var news := NewRecords(rs, p, l);
    var f := out;
    assert out + RecordsBytes(news) == f + RecordsBytes(news[0..]) by { assert news[0..] == news; }
    for i := 0 to |rs|
      invariant out + RecordsBytes(news) == f + RecordsBytes(news[i..])
      invariant forall j :: 0 <= j < i ==> news[j].offset < U64 && news[j].typeId < U32
    {
      var record := NewRecord(rs[i], p, l);
      assert news[i] == record && news[i..][0] == record && news[i..][1..] == news[i + 1..];
      if record.typeId >= U32 || record.offset >= U64 { return None; }
      var tail := DimsAppended(f + StringBytes(record.name) + Le(|record.dims|, 4), record.dims);
      RecordAppends(f, record, tail, RecordsBytes(news[i + 1..]));
      f := tail + Le(record.typeId, 4) + Le(record.offset, 8);
    }
    assert news[|rs|..] == [] && f + [] == f;
    r := Some(f);
  }

  method DimsAppended(f: Bytes, dims: seq<nat>) returns (g: Bytes)
    ensures g == f + DimsBytes(dims)
  {
    hide Le;
    g := f;
    assert dims[0..] == dims;
    for i := 0 to |dims|
      invariant f + DimsBytes(dims) == g + DimsBytes(dims[i..])
    {
      assert dims[i..][1..] == dims[i + 1..];
      assert g + (Le(dims[i], 8) + DimsBytes(dims[i + 1..])) == g + Le(dims[i], 8) + DimsBytes(dims[i + 1..]);
      g := g + Le(dims[i], 8);
    }
    assert dims[|dims|..] == [] && g + [] == g;
  }

  lemma RecordAppends(f: Bytes, r: Record, tail: Bytes, rest: Bytes)
    requires tail == f + StringBytes(r.name) + Le(|r.dims|, 4) + DimsBytes(r.dims)
    ensures f + (RecordBytes(r) + rest) == (tail + Le(r.typeId, 4) + Le(r.offset, 8)) + rest
  {
    hide Le, StringBytes, DimsBytes;
    var s, n, dims, t, o := StringBytes(r.name), Le(|r.dims|, 4), DimsBytes(r.dims), Le(r.typeId, 4), Le(r.offset, 8);
    assert f + (s + n + dims + t + o) == f + s + n + dims + t + o;
    assert f + ((s + n + dims + t + o) + rest) == f + (s + n + dims + t + o) + rest;
  }

  method PadFile(f: Bytes, a: nat) returns (g: Bytes)
    requires a > 0
    ensures g == Padded(f, a)
  {
    var padded := AlignUp(|f|, a);
    g := f;
    if padded > |f| { g := f + Zeros(padded - |f|); } else { assert f + Zeros(0) == f; }
  }

  method Rewrite(o: Options, d: Bytes, a: nat, chunk: nat) returns (out: Option<Bytes>)
    requires chunk > 0
    ensures out == Rewritten(o, d, a)
  {
    hide ReadHeader, PlanOf, LayoutOf, RawMetadata, Padded, PayloadOf, RecordsBytes, Packable, NewRecords, AlignUp;
    var h := ReadHeader(d);
    if h.Fail? || a == 0 { return None; }
    var rs := h.value.records;
    var dataStart := AlignUp(h.pos, a);
    var plan := PlanRewrite(o, rs);
    if plan.None? { return None; }
    var raw := MetadataRawBytes(d, |h.value.entries|);
    if raw.None? { return None; }
    var layout := LayOut(plan.value, rs, a);
    var front := Preamble(h.value.version, |rs|, |h.value.entries|) + raw.value;
    var records := WriteTensorRecords(front, rs, plan.value, layout);
    if records.None? { return None; }
    var start := PadFile(records.value, a);
    var f := start;
    for i := 0 to |rs|
      invariant WrittenTo(o, d, plan.value, rs, dataStart, a, start, i) == Some(f)
    {
      var r := rs[i];
      var b := AppendPayload(o, d, plan.value, r, dataStart + r.offset, f, chunk);
      if b.None? {
        NotWritten(o, d, plan.value, rs, dataStart, a, start, i + 1);
        return None;
      }
      f := PadFile(b.value, a);
    }
    out := Some(f);
  }

  method AppendPayload(o: Options, d: Bytes, p: Plan, r: Record, from: nat, f: Bytes, chunk: nat)
    returns (g: Option<Bytes>)
    requires chunk > 0
    ensures g == match PayloadOf(o, d, p, r, from) case Some(b) => Some(f + b) case None => None
  {
    hide Product, PlannerNbytes;
    if TypeOf(p, r.name) == F16 && o.spec(r.name).Some? {
      var b := o.payload(r.name, r.dims);
      if b.None? || |b.value| != 2 * Product(r.dims) { return None; }
      return Some(f + b.value);
    }
    var n := PlannerNbytes(r.typeId, r.dims);
    if n.None? { return None; }
    g := CopyBytes(d, f, from, n.value, chunk);
  }

  lemma {:induction false} NotWritten(
      o: Options, d: Bytes, p: Plan, rs: seq<Record>, dataStart: nat, a: nat, start: Bytes, k: nat)
    requires k <= |rs| && a > 0 && WrittenTo(o, d, p, rs, dataStart, a, start, k).None?
    ensures WrittenTo(o, d, p, rs, dataStart, a, start, |rs|).None?
    decreases |rs| - k
  {
    hide PayloadOf, Padded;
    if k < |rs| { NotWritten(o, d, p, rs, dataStart, a, start, k + 1); }
  }

  // ----- what the plan and the layout say about each tensor -----

  predicate DistinctNames(rs: seq<Record>) { forall i, j :: 0 <= i < j < |rs| ==> rs[i].name != rs[j].name }

  /** A tensor is planned as converted, or as it is with its known size. */
  predicate Planned(o: Options, p: Plan, r: Record) {
    || (TypeOf(p, r.name) == F16 && o.spec(r.name).Some? && SizeOf(p, r.name) == 2 * Product(r.dims))
    || (TypeOf(p, r.name) == r.typeId && PlannerNbytes(r.typeId, r.dims) == Some(SizeOf(p, r.name)))
  }

  lemma {:induction false} AllPlanned(o: Options, rs: seq<Record>, i: nat)
    requires DistinctNames(rs) && PlanOf(o, rs).Some? && i < |rs|
    ensures Planned(o, PlanOf(o, rs).value, rs[i])
    decreases |rs|
  {
    hide Product, PlannerNbytes;
    var front := rs[..|rs| - 1];
    if i < |rs| - 1 {
      assert rs[i].name != rs[|rs| - 1].name;
      AllPlanned(o, front, i);
    }
  }

  /** F16 takes two bytes an element in either reckoning. */
  lemma F16Size(dims: seq<nat>)
    ensures PlannerNbytes(F16, dims) == Some(2 * Product(dims))
  {
    hide Product;
    assert F16 in TYPES && TYPES[F16] == Shape(1, 2);
    assert Blocks(Product(dims), 1) == Product(dims);
    hide Blocks, TYPES;
  }

  /** The data written for a tensor has the planned size, and the parser expects no more. */
  lemma PayloadHasPlannedSize(o: Options, d: Bytes, p: Plan, r: Record, from: nat)
    requires Planned(o, p, r) && PayloadOf(o, d, p, r, from).Some?
    ensures |PayloadOf(o, d, p, r, from).value| == SizeOf(p, r.name)
    ensures ReaderNbytes(TypeOf(p, r.name), r.dims) <= SizeOf(p, r.name)
  {
    hide Product, PlannerNbytes, ReaderNbytes;
    F16Size(r.dims);
    SizesAgree(TypeOf(p, r.name), r.dims);
  }

  /** Where the i-th tensor's data begins, counted from the start of the data. */
  function StartOf(p: Plan, rs: seq<Record>, a: nat, i: nat): nat
    requires a > 0 && i <= |rs|
  {
    if i == 0 then 0 else StartOf(p, rs, a, i - 1) + AlignUp(SizeOf(p, rs[i - 1].name), a)
  }

  lemma {:induction false} LayoutEnd(p: Plan, rs: seq<Record>, a: nat, i: nat)
    requires a > 0 && i <= |rs|
    ensures LayoutOf(p, rs[..i], a).end == StartOf(p, rs, a, i)
    decreases i
  {
    hide AlignUp;
    if i > 0 {
      assert rs[..i][..i - 1] == rs[..i - 1];
      LayoutEnd(p, rs, a, i - 1);
    }
  }

  lemma {:induction false} LayoutOffset(p: Plan, rs: seq<Record>, a: nat, i: nat, n: nat)
    requires a > 0 && i < n <= |rs| && DistinctNames(rs)
    ensures OffsetOf(LayoutOf(p, rs[..n], a), rs[i].name) == StartOf(p, rs, a, i)
    decreases n
  {
    hide AlignUp;
    assert rs[..n][..n - 1] == rs[..n - 1];
    if i == n - 1 {
      LayoutEnd(p, rs, a, i);
    } else {
      assert rs[i].name != rs[n - 1].name;
      LayoutOffset(p, rs, a, i, n - 1);
    }
  }

  lemma {:induction false} StartsAligned(p: Plan, rs: seq<Record>, a: nat, i: nat)
    requires a > 0 && i <= |rs|
    ensures StartOf(p, rs, a, i) % a == 0
    decreases i
  {
    hide AlignUp;
    if i > 0 {
      StartsAligned(p, rs, a, i - 1);
      AlignedSum(StartOf(p, rs, a, i - 1), AlignUp(SizeOf(p, rs[i - 1].name), a), a);
    } else {
      assert 0 % a == 0;
    }
  }

  lemma PaddedSize(f: Bytes, b: Bytes, a: nat)
    requires a > 0 && |f| % a == 0
    ensures |Padded(f + b, a)| == |f| + AlignUp(|b|, a) && |Padded(f + b, a)| % a == 0
    ensures Here(Padded(f + b, a), |f|, b) && f <= Padded(f + b, a)
  {
    hide AlignUp;
    AlignUpFrom(|f|, |b|, a);
    var g := Padded(f + b, a);
    assert g == f + (b + Zeros(AlignUp(|f + b|, a) - |f + b|));
    assert g[|f|..|f| + |b|] == b;
  }

  lemma {:induction false} StartsApart(p: Plan, rs: seq<Record>, a: nat, i: nat, j: nat)
    requires a > 0 && i < j <= |rs|
    ensures StartOf(p, rs, a, i) + SizeOf(p, rs[i].name) <= StartOf(p, rs, a, j)
    decreases j
  {
    if i < j - 1 { StartsApart(p, rs, a, i, j - 1); }
  }

  // ----- the file -----

  lemma HereInLonger(f: Bytes, g: Bytes, pos: nat, s: Bytes)
    requires f <= g && Here(f, pos, s)
    ensures Here(g, pos, s)
  {
    assert g[pos..pos + |s|] == f[pos..pos + |s|];
  }

  /** Every tensor's data stands where the layout puts it. */
  lemma {:induction false} WrittenWhereLaidOut(
      o: Options, d: Bytes, p: Plan, rs: seq<Record>, dataStart: nat, a: nat, start: Bytes, k: nat)
    requires a > 0 && k <= |rs| && |start| % a == 0
    requires forall i :: 0 <= i < |rs| ==> Planned(o, p, rs[i])
    requires WrittenTo(o, d, p, rs, dataStart, a, start, k).Some?
    ensures var f := WrittenTo(o, d, p, rs, dataStart, a, start, k).value;
            && start <= f && |f| == |start| + StartOf(p, rs, a, k)
            && forall i :: 0 <= i < k ==> DataAt(o, d, p, rs, dataStart, f, |start| + StartOf(p, rs, a, i), i)
    decreases k
  {
    hide Planned, PayloadOf, Padded, AlignUp, SizeOf, Here;
    if k > 0 {
      var f := WrittenTo(o, d, p, rs, dataStart, a, start, k - 1).value;
      var g := WrittenTo(o, d, p, rs, dataStart, a, start, k).value;
      var r := rs[k - 1];
      var b := PayloadOf(o, d, p, r, dataStart + r.offset).value;
      WrittenWhereLaidOut(o, d, p, rs, dataStart, a, start, k - 1);
      StartsAligned(p, rs, a, k - 1);
      AlignedSum(|start|, StartOf(p, rs, a, k - 1), a);
      PayloadHasPlannedSize(o, d, p, r, dataStart + r.offset);
      PaddedSize(f, b, a);
      forall i | 0 <= i < k ensures DataAt(o, d, p, rs, dataStart, g, |start| + StartOf(p, rs, a, i), i) {
        if i < k - 1 {
          assert DataAt(o, d, p, rs, dataStart, f, |start| + StartOf(p, rs, a, i), i);
          HereInLonger(f, g, |start| + StartOf(p, rs, a, i), PayloadOf(o, d, p, rs[i], dataStart + rs[i].offset).value);
        }
      }
    }
  }

  /** The i-th tensor's data stands in f at pos. */
  predicate DataAt(o: Options, d: Bytes, p: Plan, rs: seq<Record>, dataStart: nat, f: Bytes, pos: nat, i: nat)
    requires i < |rs|
  {
    var b := PayloadOf(o, d, p, rs[i], dataStart + rs[i].offset);
    b.Some? && |b.value| == SizeOf(p, rs[i].name) && Here(f, pos, b.value)
  }

  /** All tensors' data, counted from base. */
  ghost predicate AllDataAt(o: Options, d: Bytes, p: Plan, rs: seq<Record>, dataStart: nat, f: Bytes, base: nat, a: nat)
    requires a > 0
  {
    forall i :: 0 <= i < |rs| ==> DataAt(o, d, p, rs, dataStart, f, base + StartOf(p, rs, a, i), i)
  }

  ghost predicate EveryPlanned(o: Options, p: Plan, rs: seq<Record>) {
    forall i :: 0 <= i < |rs| ==> Planned(o, p, rs[i])
  }

  lemma AllWritten(o: Options, d: Bytes, p: Plan, rs: seq<Record>, dataStart: nat, a: nat, start: Bytes)
    requires a > 0 && |start| % a == 0 && DistinctNames(rs) && PlanOf(o, rs) == Some(p)
    requires WrittenTo(o, d, p, rs, dataStart, a, start, |rs|).Some?
    ensures EveryPlanned(o, p, rs)
    ensures var f := WrittenTo(o, d, p, rs, dataStart, a, start, |rs|).value;
            start <= f && AllDataAt(o, d, p, rs, dataStart, f, |start|, a)
  {
    hide Planned, DataAt, PlanOf, WrittenTo, StartOf;
    forall i | 0 <= i < |rs| ensures Planned(o, p, rs[i]) { AllPlanned(o, rs, i); }
    WrittenWhereLaidOut(o, d, p, rs, dataStart, a, start, |rs|);
  }

  /** The header of the output. */
  function NewHeader(h: Header, p: Plan, a: nat): Header
    requires a > 0
  { Header(h.version, h.entries, NewRecords(h.records, p, LayoutOf(p, h.records, a))) }

  lemma NewHeaderIsGood(h: Header, p: Plan, a: nat)
    requires a > 0 && GoodHeader(h) && Packable(NewRecords(h.records, p, LayoutOf(p, h.records, a)))
    ensures GoodHeader(NewHeader(h, p, a))
  {
    hide LayoutOf, GoodEntries;
    var news := NewHeader(h, p, a).records;
    forall i | 0 <= i < |news| ensures GoodRecord(news[i]) {
      assert GoodRecord(h.records[i]);
    }
  }

  lemma FrontIsHeader(h: Header, p: Plan, a: nat)
    requires a > 0
    ensures Preamble(h.version, |h.records|, |h.entries|) + EntriesBytes(h.entries)
            + RecordsBytes(NewRecords(h.records, p, LayoutOf(p, h.records, a)))
         == HeaderBytes(NewHeader(h, p, a))
  {
    hide Le, EntriesBytes, RecordsBytes, LayoutOf;
  }

  /** The output begins with the bytes of the new header, padded to where its data starts. */
  lemma OutputStart(o: Options, d: Bytes, a: nat)
    requires ReadHeader(d).Got? && Rewritten(o, d, a).Some?
    ensures var h := ReadHeader(d).value;
            && a > 0 && PlanOf(o, h.records).Some?
            && var p := PlanOf(o, h.records).value; var start := Padded(HeaderBytes(NewHeader(h, p, a)), a);
               && Packable(NewRecords(h.records, p, LayoutOf(p, h.records, a)))
               && Rewritten(o, d, a)
                  == WrittenTo(o, d, p, h.records, AlignUp(ReadHeader(d).pos, a), a, start, |h.records|)
               && |start| == AlignUp(|HeaderBytes(NewHeader(h, p, a))|, a)
               && HeaderBytes(NewHeader(h, p, a)) <= start
  {
    hide ReadHeader, RawMetadata, PlanOf, WrittenTo, EntriesBytes, RecordsBytes, LayoutOf, Packable, HeaderBytes,
         AlignUp, NewHeader, NewRecords, Preamble;
    var h := ReadHeader(d).value;
    RawMetadataIsEntries(d);
    FrontIsHeader(h, PlanOf(o, h.records).value, a);
  }

  /** What the rewrite promises for the i-th tensor of the output q against the template p. */
  predicate Kept(o: Options, d: Bytes, p: Parsed, plan: Plan, out: Bytes, q: Parsed, i: nat)
    requires |q.header.records| == |p.header.records| && i < |p.header.records| && p.alignment > 0
  {
    var r, n := p.header.records[i], q.header.records[i];
    var data := PayloadOf(o, d, plan, r, AbsoluteOffset(p, i));
    && n.name == r.name && n.dims == r.dims && n.typeId == TypeOf(plan, r.name)
    && AbsoluteOffset(q, i) % p.alignment == 0
    && data.Some? && PlannerNbytes(n.typeId, n.dims) == Some(|data.value|)
       && Here(out, AbsoluteOffset(q, i), data.value)
    && (forall j :: i < j < |p.header.records| ==> AbsoluteOffset(q, i) + |data.value| <= AbsoluteOffset(q, j))
  }

  /** What the whole output q keeps of the template p. */
  predicate Keeps(o: Options, d: Bytes, p: Parsed, plan: Plan, out: Bytes, q: Parsed) {
    && q.header.version == p.header.version && q.header.entries == p.header.entries && q.alignment == p.alignment > 0
    && |q.header.records| == |p.header.records|
    && forall i :: 0 <= i < |p.header.records| ==> Kept(o, d, p, plan, out, q, i)
  }

  /** The parsed output: the new header, and the data right behind its padding. */
  function NewParsed(p: Parsed, plan: Plan): Parsed
    requires p.alignment > 0
  {
    var h := NewHeader(p.header, plan, p.alignment);
    Parsed(h, p.alignment, AlignUp(|HeaderBytes(h)|, p.alignment))
  }

  /** Rewriting and reading: the output parses, with the template's version, metadata, names and
      dimensions; every tensor's data stands where its header entry says, aligned and apart from the
      others. */
  lemma RewriteThenRead(o: Options, d: Bytes, a: nat)
    requires ParseFile(d).Some? && DistinctNames(ParseFile(d).value.header.records)
    requires PlainAlignment(ParseFile(d).value.header.entries)
    requires PlannerAlignment(ParseFile(d).value.header.entries, o.toInt) == Some(a)
    requires Rewritten(o, d, a).Some?
    ensures var p := ParseFile(d).value;
            var out := Rewritten(o, d, a).value;
            && a == p.alignment && PlanOf(o, p.header.records).Some? && ParseFile(out).Some?
            && Keeps(o, d, p, PlanOf(o, p.header.records).value, out, ParseFile(out).value)
  {
    hide ParseFile, PlanOf, Rewritten, Keeps, PlainAlignment, PlannerAlignment, NewParsed;
    OutputParses(o, d, a);
  }

  lemma OutputParses(o: Options, d: Bytes, a: nat)
    requires ParseFile(d).Some? && DistinctNames(ParseFile(d).value.header.records)
    requires PlainAlignment(ParseFile(d).value.header.entries)
    requires PlannerAlignment(ParseFile(d).value.header.entries, o.toInt) == Some(a)
    requires Rewritten(o, d, a).Some?
    ensures var p := ParseFile(d).value;
            var out := Rewritten(o, d, a).value;
            && a == p.alignment > 0 && PlanOf(o, p.header.records).Some?
            && ParseFile(out) == Some(NewParsed(p, PlanOf(o, p.header.records).value))
            && Keeps(o, d, p, PlanOf(o, p.header.records).value, out, ParseFile(out).value)
  {
    hide ReadHeader, PlanOf, Rewritten, WrittenTo, HeaderBytes, AlignUp, Padded, LayoutOf, Packable, InBounds,
         Alignment, NewHeader, Keeps;
    var p := ParseFile(d).value;
    HeaderIsBytes(d);
    AlignmentsAgreeExactly(p.header.entries, o.toInt);
    assert a == p.alignment;
    hide PlannerAlignment, PlainAlignment;
    OutputStart(o, d, p.alignment);
    OutputKeeps(o, d, p);
    var plan := PlanOf(o, p.header.records).value;
    ReadsOutput(p, plan, Rewritten(o, d, p.alignment).value);
  }

  /** The output's header is read back, and its data found in bounds. */
  lemma ReadsOutput(p: Parsed, plan: Plan, out: Bytes)
    requires p.alignment > 0 && GoodHeader(p.header) && p.alignment == Alignment(p.header.entries)
             && 2 <= p.header.version <= 3
    requires Packable(NewRecords(p.header.records, plan, LayoutOf(plan, p.header.records, p.alignment)))
    requires HeaderBytes(NewHeader(p.header, plan, p.alignment)) <= out
    requires InBounds(out, NewParsed(p, plan), |NewParsed(p, plan).header.records|)
    ensures ParseFile(out) == Some(NewParsed(p, plan))
  {
    hide ReadHeader, HeaderBytes, AlignUp, LayoutOf, Packable, InBounds, Alignment, Here, GoodHeader;
    var h' := NewHeader(p.header, plan, p.alignment);
    NewHeaderIsGood(p.header, plan, p.alignment);
    HereAtStart(HeaderBytes(h'), out);
    ReadsHeader(out, h');
  }

  lemma OutputKeeps(o: Options, d: Bytes, p: Parsed)
    requires ParseFile(d) == Some(p) && DistinctNames(p.header.records) && Rewritten(o, d, p.alignment).Some?
    ensures p.alignment > 0 && PlanOf(o, p.header.records).Some?
    ensures var plan := PlanOf(o, p.header.records).value;
            var out := Rewritten(o, d, p.alignment).value;
            && HeaderBytes(NewHeader(p.header, plan, p.alignment)) <= out
            && Keeps(o, d, p, plan, out, NewParsed(p, plan))
            && InBounds(out, NewParsed(p, plan), |NewParsed(p, plan).header.records|)
  {
    hide ReadHeader, PlanOf, Rewritten, WrittenTo, HeaderBytes, AlignUp, Padded, LayoutOf, Here, Packable,
         EveryPlanned, AllDataAt, Kept, InBounds, Alignment, GoodHeader, Product, PayloadOf;
    var h, a := p.header, p.alignment;
    HeaderIsBytes(d);
    OutputStart(o, d, a);
    var plan := PlanOf(o, h.records).value;
    var out := Rewritten(o, d, a).value;
    var start := Padded(HeaderBytes(NewHeader(h, plan, a)), a);
    AllWritten(o, d, plan, h.records, p.dataStart, a, start);
    var q := NewParsed(p, plan);
    forall i | 0 <= i < |h.records|
      ensures Kept(o, d, p, plan, out, q, i)
      ensures AbsoluteOffset(q, i) + ReaderNbytes(q.header.records[i].typeId, q.header.records[i].dims) <= |out|
    {
      TensorKept(o, d, p, plan, out, q, i);
    }
    AllInBounds(out, q);
  }

  lemma HereAtStart(s: Bytes, f: Bytes)
    requires s <= f
    ensures Here(f, 0, s)
  {
  }

  lemma AllInBounds(out: Bytes, q: Parsed)
    requires forall i :: 0 <= i < |q.header.records| ==>
               AbsoluteOffset(q, i) + ReaderNbytes(q.header.records[i].typeId, q.header.records[i].dims) <= |out|
    ensures InBounds(out, q, |q.header.records|)
  {
  }

  lemma TensorKept(o: Options, d: Bytes, p: Parsed, plan: Plan, out: Bytes, q: Parsed, i: nat)
    requires p.alignment > 0 && i < |p.header.records| && DistinctNames(p.header.records)
    requires q == NewParsed(p, plan)
    requires EveryPlanned(o, plan, p.header.records)
    requires AllDataAt(o, d, plan, p.header.records, p.dataStart, out, q.dataStart, p.alignment)
    ensures Kept(o, d, p, plan, out, q, i)
    ensures AbsoluteOffset(q, i) + ReaderNbytes(q.header.records[i].typeId, q.header.records[i].dims) <= |out|
  {
    hide Here, LayoutOf, Product, PlannerNbytes, ReaderNbytes, PayloadOf, StartOf, Planned, AlignUp, HeaderBytes;
    var rs, a := p.header.records, p.alignment;
    Offsets(rs, plan, a);
    StartsAligned(plan, rs, a, i);
    AlignedStart(q, p, plan);
    AlignedSum(q.dataStart, StartOf(plan, rs, a, i), a);
    assert Planned(o, plan, rs[i]);
    PayloadHasPlannedSize(o, d, plan, rs[i], p.dataStart + rs[i].offset);
    PlannedSize(o, plan, rs[i]);
    assert DataAt(o, d, plan, rs, p.dataStart, out, q.dataStart + StartOf(plan, rs, a, i), i);
    hide AllDataAt, EveryPlanned, DistinctNames, SizeOf, TypeOf;
    HereIs(out, q.dataStart + StartOf(plan, rs, a, i), PayloadOf(o, d, plan, rs[i], p.dataStart + rs[i].offset).value);
    forall j | i < j < |rs| ensures AbsoluteOffset(q, i) + SizeOf(plan, rs[i].name) <= AbsoluteOffset(q, j) {
      StartsApart(plan, rs, a, i, j);
    }
  }

  lemma AlignedStart(q: Parsed, p: Parsed, plan: Plan)
    requires p.alignment > 0 && q == NewParsed(p, plan)
    ensures q.dataStart % p.alignment == 0
  {
    hide NewHeader, HeaderBytes;
  }

  lemma Offsets(rs: seq<Record>, plan: Plan, a: nat)
    requires a > 0 && DistinctNames(rs)
    ensures forall i :: 0 <= i < |rs| ==> OffsetOf(LayoutOf(plan, rs, a), rs[i].name) == StartOf(plan, rs, a, i)
  {
    forall i | 0 <= i < |rs| ensures OffsetOf(LayoutOf(plan, rs, a), rs[i].name) == StartOf(plan, rs, a, i) {
      LayoutOffset(plan, rs, a, i, |rs|);
      assert rs[..|rs|] == rs;
    }
  }

  lemma PlannedSize(o: Options, plan: Plan, r: Record)
    requires Planned(o, plan, r)
    ensures PlannerNbytes(TypeOf(plan, r.name), r.dims) == Some(SizeOf(plan, r.name))
  {
    hide Product, PlannerNbytes;
    F16Size(r.dims);
  }

  lemma AlignmentIsPositive(d: Bytes)
    requires ParseFile(d).Some?
    ensures ParseFile(d).value.alignment > 0
  {
  }

  /** A tensor that is not a routed F16 tensor of the output is copied: same type, same bytes. */
  lemma CopiedTensorsReadBack(o: Options, d: Bytes, a: nat, i: nat)
    requires ParseFile(d).Some? && DistinctNames(ParseFile(d).value.header.records)
    requires PlainAlignment(ParseFile(d).value.header.entries)
    requires PlannerAlignment(ParseFile(d).value.header.entries, o.toInt) == Some(a)
    requires Rewritten(o, d, a).Some?
    requires i < |ParseFile(d).value.header.records|
    ensures var p := ParseFile(d).value;
            var out := Rewritten(o, d, a).value;
            && PlanOf(o, p.header.records).Some? && ParseFile(out).Some? && i < |ParseFile(out).value.header.records|
            && var r, q := p.header.records[i], ParseFile(out).value;
               !(TypeOf(PlanOf(o, p.header.records).value, r.name) == F16 && o.spec(r.name).Some?) ==>
                 && q.header.records[i].typeId == r.typeId && PlannerNbytes(r.typeId, r.dims).Some?
                 && var n := PlannerNbytes(r.typeId, r.dims).value;
                    Extent(out, AbsoluteOffset(q, i), n) == Extent(d, AbsoluteOffset(p, i), n)
                      && Extent(d, AbsoluteOffset(p, i), n).Some?
  {
    hide PlannerAlignment, PlainAlignment, ParseFile, PlanOf, Rewritten, Product, PlannerNbytes;
    RewriteThenRead(o, d, a);
    AlignmentIsPositive(d);
    var p := ParseFile(d).value;
    var out := Rewritten(o, d, a).value;
    var plan, q := PlanOf(o, p.header.records).value, ParseFile(out).value;
    assert Keeps(o, d, p, plan, out, q) && Kept(o, d, p, plan, out, q, i);
    AllPlanned(o, p.header.records, i);
  }

  /** The i-th tensor's data comes from the checkpoint exactly when it was selected, or is a routed
      tensor that was F16 already: those are converted even where the options leave them out. */
  lemma {:induction false} ConvertedExactly(o: Options, rs: seq<Record>, n: nat, i: nat)
    requires i < n <= |rs| && DistinctNames(rs) && PlanOf(o, rs[..n]).Some?
    ensures PlanOf(o, rs[..i]).Some?
    ensures TypeOf(PlanOf(o, rs[..n]).value, rs[i].name) == F16 && o.spec(rs[i].name).Some?
       <==> Selected(o, rs[i].name, PlanOf(o, rs[..i]).value.selected)
            || (rs[i].typeId == F16 && o.spec(rs[i].name).Some?)
    decreases n
  {
    hide Product, PlannerNbytes;
    assert rs[..n][..n - 1] == rs[..n - 1];
    if i < n - 1 {
      assert rs[i].name != rs[n - 1].name;
      ConvertedExactly(o, rs, n - 1, i);
    }
  }

  /** The options ask for tensors of this layer and role. */
  predicate Asked(o: Options, name: Bytes) {
    match o.spec(name)
    case None => false
    case Some(r) =>
      (o.layers == None || r.layer in o.layers.value) && (o.roles == None || r.role in o.roles.value)
  }

  function CountAsked(o: Options, rs: seq<Record>): nat {
    if rs == [] then 0 else CountAsked(o, rs[..|rs| - 1]) + if Asked(o, rs[|rs| - 1].name) then 1 else 0
  }

  /** Selected are the first tensors asked for, as many as the options allow. */
  lemma {:induction false} SelectsFirstAsked(o: Options, rs: seq<Record>)
    requires PlanOf(o, rs).Some?
    ensures var n := PlanOf(o, rs).value.selected;
            n == if o.most == None || CountAsked(o, rs) <= o.most.value then CountAsked(o, rs)
                 else if o.most.value > 0 then o.most.value else 0
    decreases |rs|
  {
    hide Product, PlannerNbytes;
    if rs != [] { SelectsFirstAsked(o, rs[..|rs| - 1]); }
  }

  /** So a tensor is converted exactly when it is routed and was F16 already, or is asked for and fewer
      tensors asked for than the limit stand in front of it. */
  lemma ConvertsFirstAsked(o: Options, rs: seq<Record>, i: nat)
    requires i < |rs| && DistinctNames(rs) && PlanOf(o, rs).Some?
    ensures TypeOf(PlanOf(o, rs).value, rs[i].name) == F16 && o.spec(rs[i].name).Some?
       <==> || (Asked(o, rs[i].name) && (o.most == None || CountAsked(o, rs[..i]) < o.most.value))
            || (rs[i].typeId == F16 && o.spec(rs[i].name).Some?)
  {
    hide PlanOf, CountAsked;
    assert rs[..|rs|] == rs;
    ConvertedExactly(o, rs, |rs|, i);
    SelectsFirstAsked(o, rs[..i]);
  }

  /** A converted tensor reads back as F16 with the checkpoint's data. */
  lemma ConvertedTensorsReadBack(o: Options, d: Bytes, a: nat, i: nat)
    requires ParseFile(d).Some? && DistinctNames(ParseFile(d).value.header.records)
    requires PlainAlignment(ParseFile(d).value.header.entries)
    requires PlannerAlignment(ParseFile(d).value.header.entries, o.toInt) == Some(a)
    requires Rewritten(o, d, a).Some?
    requires i < |ParseFile(d).value.header.records|
    ensures var p := ParseFile(d).value;
            var out := Rewritten(o, d, a).value;
            && PlanOf(o, p.header.records).Some? && ParseFile(out).Some? && i < |ParseFile(out).value.header.records|
            && var r, q := p.header.records[i], ParseFile(out).value;
               TypeOf(PlanOf(o, p.header.records).value, r.name) == F16 && o.spec(r.name).Some? ==>
                 && q.header.records[i].typeId == F16
                 && o.payload(r.name, r.dims).Some?
                 && Extent(out, AbsoluteOffset(q, i), 2 * Product(r.dims)) == o.payload(r.name, r.dims)
  {
    hide PlannerAlignment, PlainAlignment, ParseFile, PlanOf, Rewritten, Product, PlannerNbytes;
    RewriteThenRead(o, d, a);
    var p := ParseFile(d).value;
    var out := Rewritten(o, d, a).value;
    var plan, q := PlanOf(o, p.header.records).value, ParseFile(out).value;
    assert Keeps(o, d, p, plan, out, q) && Kept(o, d, p, plan, out, q, i);
    HereIsExtent(out, AbsoluteOffset(q, i), PayloadOf(o, d, plan, p.header.records[i], AbsoluteOffset(p, i)).value);
  }

  lemma HereIsExtent(out: Bytes, pos: nat, s: Bytes)
    requires Here(out, pos, s)
    ensures Extent(out, pos, |s|) == Some(s)
  {
    HereIs(out, pos, s);
  }

  /** The output has no gaps but padding: the data begins at offset 0, and each tensor's at the first
      aligned offset behind the one before. */
  lemma LaidOutWithoutGaps(o: Options, d: Bytes, a: nat, i: nat)
    requires ParseFile(d).Some? && DistinctNames(ParseFile(d).value.header.records)
    requires PlainAlignment(ParseFile(d).value.header.entries)
    requires PlannerAlignment(ParseFile(d).value.header.entries, o.toInt) == Some(a)
    requires Rewritten(o, d, a).Some?
    ensures ParseFile(Rewritten(o, d, a).value).Some?
    ensures var rs := ParseFile(Rewritten(o, d, a).value).value.header.records;
      && (rs != [] ==> rs[0].offset == 0)
      && (i + 1 < |rs| ==>
            && PlannerNbytes(rs[i].typeId, rs[i].dims).Some?
            && var end := rs[i].offset + PlannerNbytes(rs[i].typeId, rs[i].dims).value;
               && end <= rs[i + 1].offset && a > 0 && rs[i + 1].offset % a == 0
               && forall x: nat :: end <= x && x % a == 0 ==> rs[i + 1].offset <= x)
  {
    hide PlannerAlignment, PlainAlignment, PlanOf, Rewritten, Product, PlannerNbytes;
    OutputParses(o, d, a);
    var p := ParseFile(d).value;
    var rs, plan := p.header.records, PlanOf(o, p.header.records).value;
    Offsets(rs, plan, a);
    if i + 1 < |rs| {
      AllPlanned(o, rs, i);
      PlannedSize(o, plan, rs[i]);
      NextStart(plan, rs, a, i);
    }
  }

  lemma NextStart(p: Plan, rs: seq<Record>, a: nat, i: nat)
    requires a > 0 && i < |rs|
    ensures var end, next := StartOf(p, rs, a, i) + SizeOf(p, rs[i].name), StartOf(p, rs, a, i + 1);
            end <= next && next % a == 0 && forall x: nat :: end <= x && x % a == 0 ==> next <= x
  {
    hide AlignUp;
    StartsAligned(p, rs, a, i);
    StartsAligned(p, rs, a, i + 1);
    var start, size := StartOf(p, rs, a, i), SizeOf(p, rs[i].name);
    AlignUpFrom(start, size, a);
    forall x: nat | start + size <= x && x % a == 0 ensures AlignUp(start + size, a) <= x {
      AlignUpIsLeast(start + size, a, x);
    }
  }

  lemma PaddingZero(f: Bytes, b: Bytes, a: nat, x: nat)
    requires a > 0 && x < |Padded(f + b, a)|
    ensures x < |f| ==> Padded(f + b, a)[x] == f[x]
    ensures |f| + |b| <= x ==> Padded(f + b, a)[x] == 0
  {
    hide AlignUp;
  }

  /** The byte at x belongs to none of the first k tensors. */
  ghost predicate Outside(p: Plan, rs: seq<Record>, a: nat, start: nat, k: nat, x: nat)
    requires k <= |rs| && a > 0
  {
    forall i :: 0 <= i < k ==>
      x < start + StartOf(p, rs, a, i) || start + StartOf(p, rs, a, i) + SizeOf(p, rs[i].name) <= x
  }

  lemma OutsideLast(p: Plan, rs: seq<Record>, a: nat, start: nat, k: nat, x: nat)
    requires 0 < k <= |rs| && a > 0 && Outside(p, rs, a, start, k, x)
    ensures Outside(p, rs, a, start, k - 1, x)
    ensures x < start + StartOf(p, rs, a, k - 1)
            || start + StartOf(p, rs, a, k - 1) + SizeOf(p, rs[k - 1].name) <= x
  {
    hide StartOf, SizeOf;
  }

  lemma {:induction false} ZerosBetween(
      o: Options, d: Bytes, p: Plan, rs: seq<Record>, dataStart: nat, a: nat, start: Bytes, k: nat, x: nat)
    requires a > 0 && k <= |rs| && |start| % a == 0
    requires forall i :: 0 <= i < |rs| ==> Planned(o, p, rs[i])
    requires WrittenTo(o, d, p, rs, dataStart, a, start, k).Some?
    requires |start| <= x < |WrittenTo(o, d, p, rs, dataStart, a, start, k).value| && Outside(p, rs, a, |start|, k, x)
    ensures WrittenTo(o, d, p, rs, dataStart, a, start, k).value[x] == 0
    decreases k
  {
    hide Planned, PayloadOf, Padded, AlignUp, SizeOf, Here, DataAt, StartOf, Outside;
    if k > 0 {
      var f := WrittenTo(o, d, p, rs, dataStart, a, start, k - 1).value;
      var r := rs[k - 1];
      var b := PayloadOf(o, d, p, r, dataStart + r.offset).value;
      WrittenWhereLaidOut(o, d, p, rs, dataStart, a, start, k - 1);
      PayloadHasPlannedSize(o, d, p, r, dataStart + r.offset);
      PaddingZero(f, b, a, x);
      OutsideLast(p, rs, a, |start|, k, x);
      if x < |f| {
        ZerosBetween(o, d, p, rs, dataStart, a, start, k - 1, x);
      }
    }
  }

  lemma HeaderPadding(front: Bytes, a: nat, x: nat)
    requires a > 0 && |front| <= x < |Padded(front, a)|
    ensures Padded(front, a)[x] == 0
  {
    hide AlignUp;
  }

  /** Whatever of the output is neither header nor a tensor's data is zero. */
  lemma PaddingIsZero(o: Options, d: Bytes, a: nat, x: nat)
    requires ParseFile(d).Some? && DistinctNames(ParseFile(d).value.header.records)
    requires PlainAlignment(ParseFile(d).value.header.entries)
    requires PlannerAlignment(ParseFile(d).value.header.entries, o.toInt) == Some(a)
    requires Rewritten(o, d, a).Some?
    ensures ParseFile(Rewritten(o, d, a).value).Some?
    ensures var out := Rewritten(o, d, a).value;
            var q := ParseFile(out).value;
            var rs := q.header.records;
            |HeaderBytes(q.header)| <= x < |out|
            && (forall i :: 0 <= i < |rs| ==>
                  PlannerNbytes(rs[i].typeId, rs[i].dims).Some?
                  && (x < AbsoluteOffset(q, i)
                      || AbsoluteOffset(q, i) + PlannerNbytes(rs[i].typeId, rs[i].dims).value <= x)) ==>
              out[x] == 0
  {
    hide PlannerAlignment, PlainAlignment, ReadHeader, PlanOf, Rewritten, WrittenTo, HeaderBytes, AlignUp, Padded,
         LayoutOf, Product, PlannerNbytes, StartOf;
    OutputParses(o, d, a);
    var p := ParseFile(d).value;
    OutputStart(o, d, a);
    var rs, plan := p.header.records, PlanOf(o, p.header.records).value;
    var out := Rewritten(o, d, a).value;
    var q := ParseFile(out).value;
    var start := Padded(HeaderBytes(NewHeader(p.header, plan, a)), a);
    AllWritten(o, d, plan, rs, p.dataStart, a, start);
    if |HeaderBytes(q.header)| <= x < |start| {
      HeaderPadding(HeaderBytes(q.header), a, x);
    } else if |start| <= x < |out| {
      forall i | 0 <= i < |rs|
        ensures AbsoluteOffset(q, i) == |start| + StartOf(plan, rs, a, i)
        ensures PlannerNbytes(q.header.records[i].typeId, q.header.records[i].dims) == Some(SizeOf(plan, rs[i].name))
      {
        Offsets(rs, plan, a);
        AllPlanned(o, rs, i);
        PlannedSize(o, plan, rs[i]);
      }
      if Outside(plan, rs, a, |start|, |rs|, x) {
        ZerosBetween(o, d, plan, rs, p.dataStart, a, start, |rs|, x);
      }
    }
  }

  lemma {:induction false} WrittenExactly(
      o: Options, d: Bytes, p: Plan, rs: seq<Record>, dataStart: nat, a: nat, start: Bytes, k: nat)
    requires a > 0 && k <= |rs|
    ensures WrittenTo(o, d, p, rs, dataStart, a, start, k).Some?
       <==> forall i :: 0 <= i < k ==> PayloadOf(o, d, p, rs[i], dataStart + rs[i].offset).Some?
    decreases k
  {
    hide PayloadOf, Padded;
    if k > 0 { WrittenExactly(o, d, p, rs, dataStart, a, start, k - 1); }
  }

  predicate AllThere(o: Options, d: Bytes, p: Parsed, plan: Plan) {
    forall i :: 0 <= i < |p.header.records| ==> PayloadOf(o, d, plan, p.header.records[i], AbsoluteOffset(p, i)).Some?
  }

  lemma RewrittenUnfold(o: Options, d: Bytes, p: Parsed)
    requires ParseFile(d) == Some(p)
    ensures p.alignment > 0
    ensures PlanOf(o, p.header.records).None? ==> Rewritten(o, d, p.alignment).None?
    ensures PlanOf(o, p.header.records).Some? ==>
              var rs, plan, a := p.header.records, PlanOf(o, p.header.records).value, p.alignment;
              var records := NewRecords(rs, plan, LayoutOf(plan, rs, a));
              var front := Preamble(p.header.version, |rs|, |p.header.entries|) + EntriesBytes(p.header.entries)
                + RecordsBytes(records);
              Rewritten(o, d, a)
                == if Packable(records) then WrittenTo(o, d, plan, rs, p.dataStart, a, Padded(front, a), |rs|)
                   else None
  {
    hide ReadHeader, RawMetadata, PlanOf, LayoutOf, Packable, NewRecords, WrittenTo, Padded, EntriesBytes,
         RecordsBytes, Preamble, Alignment, InBounds, AlignUp;
    RawMetadataIsEntries(d);
  }

  /** A template that parses is rewritten if and only if every tensor left alone has a known size,
      the offsets fit 64 bits, and every tensor's data is there: inside the template, or converted
      from the checkpoint in the right length. */
  lemma RewriteSucceedsExactly(o: Options, d: Bytes, p: Parsed)
    requires ParseFile(d) == Some(p)
    ensures p.alignment > 0
    ensures Rewritten(o, d, p.alignment).Some?
       <==> && PlanOf(o, p.header.records).Some?
            && var plan := PlanOf(o, p.header.records).value;
               Packable(NewRecords(p.header.records, plan, LayoutOf(plan, p.header.records, p.alignment)))
                 && AllThere(o, d, p, plan)
  {
    hide ParseFile, Rewritten, PlanOf, LayoutOf, Packable, NewRecords, PayloadOf, WrittenTo, Padded, EntriesBytes,
         RecordsBytes, Preamble;
    RewrittenUnfold(o, d, p);
    if PlanOf(o, p.header.records).Some? {
      var rs, plan, a := p.header.records, PlanOf(o, p.header.records).value, p.alignment;
      var front := Preamble(p.header.version, |rs|, |p.header.entries|) + EntriesBytes(p.header.entries)
                   + RecordsBytes(NewRecords(rs, plan, LayoutOf(plan, rs, a)));
      WrittenExactly(o, d, plan, rs, p.dataStart, a, Padded(front, a), |rs|);
    }
  }
}
