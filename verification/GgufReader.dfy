/** Parsing a whole GGUF file, as gguf_reader.cpp does, and the Python side's skipping over metadata
    values and its own idea of a tensor's size. */
module GgufReader {
  import opened Gguf
  import opened Multiples
  import opened Texts

  // ----- sizes -----

  function Product(dims: seq<nat>): nat { if dims == [] then 1 else Product(dims[..|dims| - 1]) * dims[|dims| - 1] }

  function Blocks(n: nat, size: nat): nat
    requires size > 0
  { (n + size - 1) / size }

  /** The dimensions multiply. */
  lemma {:induction false} ProductSplits(a: seq<nat>, b: seq<nat>)
    ensures Product(a + b) == Product(a) * Product(b)
    ensures forall n: nat :: Product([n]) == n
    decreases |b|
  {
    forall n: nat ensures Product([n]) == n { assert [n][..0] == []; }
    if b == [] {
      assert a + b == a;
    } else {
      var front, last := b[..|b| - 1], b[|b| - 1];
      assert (a + b)[..|a + b| - 1] == a + front;
      ProductSplits(a, front);
      TimesAssociates(Product(a), Product(front), last);
    }
  }

  lemma TimesAssociates(x: int, y: int, z: int)
    ensures x * y * z == x * (y * z)
  {
  }

  /** As many blocks as hold all elements, and no more. */
  lemma BlocksHoldAll(n: nat, size: nat)
    requires size > 0
    ensures n <= Blocks(n, size) * size < n + size
  {
    var m := n + size - 1;
    assert m == m / size * size + m % size;
  }

  /** Elements and bytes of a block, for the types gguf_reader.cpp knows. */
  datatype Shape = Shape(elems: nat, bytes: nat)

  function KnownToReader(t: nat): Option<Shape> {
    if t == 0 || t == 26 then Some(Shape(1, 4))
    else if t == 1 || t == 32 then Some(Shape(1, 2))
    else if t == 8 then Some(Shape(32, 34))
    else if t == 10 then Some(Shape(256, 84))
    else if t == 16 then Some(Shape(256, 66))
    else if t == 29 then Some(Shape(256, 56))
    else None
  }

  /** The table of the Python reader. */
  const TYPES: map<nat, Shape> := map[
    0 := Shape(1, 4), 1 := Shape(1, 2), 2 := Shape(32, 18), 3 := Shape(32, 20), 6 := Shape(32, 22), 7 := Shape(32, 24),
    8 := Shape(32, 34), 9 := Shape(32, 40), 10 := Shape(256, 84), 11 := Shape(256, 110), 12 := Shape(256, 144),
    13 := Shape(256, 176), 14 := Shape(256, 210), 15 := Shape(256, 292), 16 := Shape(256, 66), 17 := Shape(256, 74),
    18 := Shape(256, 98), 19 := Shape(256, 50), 20 := Shape(32, 18), 21 := Shape(256, 110), 22 := Shape(256, 82),
    23 := Shape(256, 136), 24 := Shape(1, 1), 25 := Shape(1, 2), 26 := Shape(1, 4), 27 := Shape(1, 8),
    28 := Shape(1, 8), 29 := Shape(256, 56), 30 := Shape(1, 2)]

  /** `ggml_tensor_nbytes`: nothing for an unknown type, and nothing for a tensor without dimensions. */
  function ReaderNbytes(t: nat, dims: seq<nat>): nat {
    var elems := if dims == [] then 0 else Product(dims);
    var s := KnownToReader(t);
    if s.None? || s.value.elems == 0 then 0 else Blocks(elems, s.value.elems) * s.value.bytes
  }

  /** `tensor_nbytes`: unknown for types it does not list; one element for no dimensions. */
  function PlannerNbytes(t: nat, dims: seq<nat>): Option<nat> {
    if t !in TYPES || TYPES[t].elems == 0 then None else Some(Blocks(Product(dims), TYPES[t].elems) * TYPES[t].bytes)
  }

  /** Where both know a type they agree, except on tensors without dimensions; the C++ reader never
      expects more bytes than the planner sets aside. */
  lemma SizesAgree(t: nat, dims: seq<nat>)
    requires PlannerNbytes(t, dims).Some?
    ensures ReaderNbytes(t, dims) <= PlannerNbytes(t, dims).value
    ensures KnownToReader(t).Some? && dims != [] ==> ReaderNbytes(t, dims) == PlannerNbytes(t, dims).value
  {
  }

  // ----- the alignment -----

  const ALIGNMENT_KEY: Bytes := [103, 101, 110, 101, 114, 97, 108, 46, 97, 108, 105, 103, 110, 109, 101, 110, 116]

  /** A later entry replaces an earlier one of the same key. */
  function Lookup(es: seq<Entry>, key: Bytes): Option<Value> {
    if es == [] then None
    else if es[|es| - 1].key == key then Some(es[|es| - 1].value)
    else Lookup(es[..|es| - 1], key)
  }

  predicate Unsigned(tag: nat) { tag == 0 || tag == 2 || tag == 4 || tag == 10 }

  const BOOL := 7

  predicate Signed(tag: nat) { tag == 1 || tag == 3 || tag == 5 || tag == 11 }

  /** Two's complement. */
  predicate Negative(raw: Bytes) { raw != [] && raw[|raw| - 1] >= 128 }

  /** `metadata_u64`, with the default the reader starts from. */
  function Alignment(es: seq<Entry>): nat {
    match Lookup(es, ALIGNMENT_KEY)
    case Some(Scalar(tag, raw)) => if Unsigned(tag) || (Signed(tag) && !Negative(raw)) then FromLe(raw) else 32
    case _ => 32
  }

  /** Little-endian two's complement. */
  function SignedLe(raw: Bytes): int {
    if raw == [] then 0
    else if |raw| == 1 then if raw[0] >= 128 then raw[0] - 256 else raw[0]
    else raw[0] + 256 * SignedLe(raw[1..])
  }

  lemma {:induction false} SignOfLe(raw: Bytes)
    ensures if Negative(raw) then SignedLe(raw) < 0 else SignedLe(raw) == FromLe(raw)
  {
    if |raw| > 1 { SignOfLe(raw[1..]); } else if |raw| == 1 { assert raw[1..] == []; }
  }

  /** The alignment as the Python reader takes it. `toInt` is what int() makes of a float, a string or
      an array summary, if it does not raise. */
  function PlannerAlignment(es: seq<Entry>, toInt: Value -> Option<int>): Option<int> {
    match Lookup(es, ALIGNMENT_KEY)
    case None => Some(32)
    case Some(v) =>
      if v.Scalar? && Unsigned(v.tag) then Some(FromLe(v.raw))
      else if v.Scalar? && Signed(v.tag) then Some(SignedLe(v.raw))
      else if v.Scalar? && v.tag == BOOL then Some(if v.raw == [0] then 0 else 1)
      else toInt(v)
  }

  predicate ConvertsToDefault(v: Value, toInt: Value -> Option<int>) {
    !(v.Scalar? && (Unsigned(v.tag) || Signed(v.tag) || v.tag == BOOL)) && toInt(v) == Some(32)
  }

  /** The two readers take the alignment for the same number if and only if it is plain or something
      int() turns into the default. */
  lemma AlignmentsAgreeExactly(es: seq<Entry>, toInt: Value -> Option<int>)
    ensures PlannerAlignment(es, toInt) == Some(Alignment(es))
       <==> PlainAlignment(es) || ConvertsToDefault(Lookup(es, ALIGNMENT_KEY).value, toInt)
  {
    match Lookup(es, ALIGNMENT_KEY)
    case None =>
    case Some(v) => if v.Scalar? { SignOfLe(v.raw); }
  }

  /** No alignment, or a non-negative integer. */
  predicate PlainAlignment(es: seq<Entry>) {
    match Lookup(es, ALIGNMENT_KEY)
    case Some(Scalar(tag, raw)) => Unsigned(tag) || (Signed(tag) && !Negative(raw))
    case Some(_) => false
    case None => true
  }

  // ----- parsing -----

  datatype Parsed = Parsed(header: Header, alignment: nat, dataStart: nat)

  function AbsoluteOffset(p: Parsed, i: nat): nat
    requires i < |p.header.records|
  { p.dataStart + p.header.records[i].offset }

  predicate InBounds(d: Bytes, p: Parsed, n: nat)
    requires n <= |p.header.records|
  {
    forall i :: 0 <= i < n ==>
      AbsoluteOffset(p, i) + ReaderNbytes(p.header.records[i].typeId, p.header.records[i].dims) <= |d|
  }

  /** `GGUFFile::parse`. An alignment of zero, a division by zero there, counts as failure. */
  function ParseFile(d: Bytes): Option<Parsed> {
    var h := ReadHeader(d);
    if h.Fail? || h.value.version < 2 || h.value.version > 3 || Alignment(h.value.entries) == 0 then None
    else
      var a := Alignment(h.value.entries);
      var p := Parsed(h.value, a, AlignUp(h.pos, a));
      if InBounds(d, p, |h.value.records|) then Some(p) else None
  }

  /** A header at the front of the file and where its tensors' data lies. */
  ghost predicate WholeFile(d: Bytes, p: Parsed) {
    && GoodHeader(p.header) && (p.header.version == 2 || p.header.version == 3) && HeaderBytes(p.header) <= d
    && p.alignment == Alignment(p.header.entries) && p.alignment > 0
    && |HeaderBytes(p.header)| <= p.dataStart < |HeaderBytes(p.header)| + p.alignment
    && p.dataStart % p.alignment == 0
    && forall i :: 0 <= i < |p.header.records| ==>
         p.dataStart + p.header.records[i].offset
         + ReaderNbytes(p.header.records[i].typeId, p.header.records[i].dims) <= |d|
  }

  /** A file is parsed if and only if it begins with the bytes of a header of version 2 or 3 and has the
      data of all its tensors; the data begins at the first aligned position behind the header. */
  lemma ParsesExactly(d: Bytes, p: Parsed)
    ensures ParseFile(d) == Some(p) <==> WholeFile(d, p)
  {
    hide HeaderBytes, ReadHeader, Alignment, AlignUp, ReaderNbytes, GoodHeader, Here;
    if WholeFile(d, p) {
      HereAtFront(HeaderBytes(p.header), d);
      ReadsHeader(d, p.header);
      SameAligned(p.dataStart, AlignUp(|HeaderBytes(p.header)|, p.alignment), |HeaderBytes(p.header)|, p.alignment);
    }
    if ParseFile(d).Some? {
      HeaderIsBytes(d);
      HereAtFront(HeaderBytes(ReadHeader(d).value), d);
    }
  }

  lemma HereAtFront(s: Bytes, d: Bytes)
    ensures Here(d, 0, s) <==> s <= d
  {
    HereIs(d, 0, s);
  }

  lemma SameAligned(x: nat, y: nat, n: nat, a: nat)
    requires a > 0 && x % a == 0 && y % a == 0 && n <= x < n + a && n <= y < n + a
    ensures x == y
  {
    if x < y { MultiplesApart(x, y, a); }
    if y < x { MultiplesApart(y, x, a); }
  }

  class File {
    const data: Bytes
    var version: nat
    var alignment: nat
    var dataStart: nat
    var metadata: map<Bytes, Value>
    var tensors: seq<Record>

    constructor (data: Bytes)
      ensures this.data == data
    {
      this.data := data;
      version, alignment, dataStart, metadata, tensors := 0, 32, 0, map[], [];
    }

    method ReadItemsAt(pos: nat, w: nat, n: nat) returns (r: Got<seq<Bytes>>)
      ensures r == ReadItems(data, pos, w, n)
    {
      var items: seq<Bytes> := [];
      BeforeNothing(ReadItems(data, pos, w, n));
      var at := pos;
      for i := 0 to n
        invariant ReadItems(data, pos, w, n) == Before(items, ReadItems(data, at, w, n - i))
      {
        var x := ReadRaw(data, at, w);
        if x.Fail? { return Fail; }
        BeforeOne(items, x.value, ReadItems(data, x.pos, w, n - i - 1));
        items, at := items + [x.value], x.pos;
      }
      assert items + [] == items;
      r := Got(items, at);
    }

    method ReadStringsAt(pos: nat, n: nat) returns (r: Got<seq<Bytes>>)
      ensures r == ReadStrings(data, pos, n)
    {
      hide ReadString;
      var ss: seq<Bytes> := [];
      BeforeNothing(ReadStrings(data, pos, n));
      var at := pos;
      for i := 0 to n
        invariant ReadStrings(data, pos, n) == Before(ss, ReadStrings(data, at, n - i))
      {
        var x := ReadString(data, at);
        if x.Fail? { return Fail; }
        BeforeOne(ss, x.value, ReadStrings(data, x.pos, n - i - 1));
        ss, at := ss + [x.value], x.pos;
      }
      assert ss + [] == ss;
      r := Got(ss, at);
    }

    method ReadMetadataValue(pos: nat, tag: nat) returns (r: Got<Value>)
      ensures r == ReadValue(data, pos, tag)
    {
      hide ReadString, ReadItems, ReadStrings, ReadUint, ReadRaw;
      if tag == STRING {
        var s := ReadString(data, pos);
        return if s.Fail? then Fail else Got(Str(s.value), s.pos);
      }
      if tag == ARRAY {
        var t := ReadUint(data, pos, 4);
        if t.Fail? { return Fail; }
        var n := ReadUint(data, t.pos, 8);
        if n.Fail? { return Fail; }
        if t.value == STRING {
          var ss := ReadStringsAt(n.pos, n.value);
          return if ss.Fail? then Fail else Got(Strs(ss.value), ss.pos);
        }
        if ScalarSize(t.value) == 0 { return Fail; }
        var items := ReadItemsAt(n.pos, ScalarSize(t.value), n.value);
        return if items.Fail? then Fail else Got(Items(t.value, items.value), items.pos);
      }
      if ScalarSize(tag) == 0 { return Fail; }
      var x := ReadRaw(data, pos, ScalarSize(tag));
      r := if x.Fail? then Fail else Got(Scalar(tag, x.value), x.pos);
    }

    method ReadEntriesAt(pos: nat, n: nat) returns (r: Got<seq<Entry>>)
      modifies this`metadata
      ensures r == ReadEntries(data, pos, n)
      ensures r.Got? ==> Stores(metadata, r.value)
    {
      hide ReadString, ReadValue, ReadUint, Lookup;
      metadata := map[];
      var entries: seq<Entry> := [];
      BeforeNothing(ReadEntries(data, pos, n));
      NothingStored();
      var at := pos;
      for i := 0 to n
        invariant ReadEntries(data, pos, n) == Before(entries, ReadEntries(data, at, n - i))
        invariant Stores(metadata, entries)
      {
        var key := ReadString(data, at);
        if key.Fail? { return Fail; }
        var tag := ReadUint(data, key.pos, 4);
        if tag.Fail? { return Fail; }
        var v := ReadMetadataValue(tag.pos, tag.value);
        if v.Fail? { return Fail; }
        BeforeOne(entries, Entry(key.value, v.value), ReadEntries(data, v.pos, n - i - 1));
        StoresMore(metadata, entries, Entry(key.value, v.value));
        metadata := metadata[key.value := v.value];
        entries, at := entries + [Entry(key.value, v.value)], v.pos;
      }
      assert entries + [] == entries;
      r := Got(entries, at);
    }

    method ReadTensorsAt(pos: nat, n: nat) returns (r: Got<seq<Record>>)
      modifies this`tensors
      ensures r == ReadRecords(data, pos, n)
      ensures r.Got? ==> tensors == r.value
    {
      hide ReadString, ReadUint, ReadDims;
      tensors := [];
      BeforeNothing(ReadRecords(data, pos, n));
      var at := pos;
      for i := 0 to n
        invariant ReadRecords(data, pos, n) == Before(tensors, ReadRecords(data, at, n - i))
      {
        var name := ReadString(data, at);
        if name.Fail? { return Fail; }
        var count := ReadUint(data, name.pos, 4);
        if count.Fail? { return Fail; }
        var dims := ReadDimsAt(count.pos, count.value);
        if dims.Fail? { return Fail; }
        var t := ReadUint(data, dims.pos, 4);
        if t.Fail? { return Fail; }
        var offset := ReadUint(data, t.pos, 8);
        if offset.Fail? { return Fail; }
        var record := Record(name.value, dims.value, t.value, offset.value);
        BeforeOne(tensors, record, ReadRecords(data, offset.pos, n - i - 1));
        tensors, at := tensors + [record], offset.pos;
      }
      assert tensors + [] == tensors;
      r := Got(tensors, at);
    }

    method ReadDimsAt(pos: nat, n: nat) returns (r: Got<seq<nat>>)
      ensures r == ReadDims(data, pos, n)
    {
      hide ReadUint;
      var dims: seq<nat> := [];
      BeforeNothing(ReadDims(data, pos, n));
      var at := pos;
      for i := 0 to n
        invariant ReadDims(data, pos, n) == Before(dims, ReadDims(data, at, n - i))
      {
        var x := ReadUint(data, at, 8);
        if x.Fail? { return Fail; }
        BeforeOne(dims, x.value, ReadDims(data, x.pos, n - i - 1));
        dims, at := dims + [x.value], x.pos;
      }
      assert dims + [] == dims;
      r := Got(dims, at);
    }

    method Parse() returns (ok: bool)
      modifies this
      ensures ok <==> ParseFile(data).Some?
      ensures ok ==> var p := ParseFile(data).value;
                     version == p.header.version && alignment == p.alignment && dataStart == p.dataStart
                       && tensors == p.header.records
      ensures ok ==> Stores(metadata, ParseFile(data).value.header.entries)
    {
      hide ReadUint, ReadEntries, ReadRecords, Lookup, Stores, Alignment, AlignUp, ReaderNbytes;
      var magic := ReadRaw(data, 0, 4);
      if magic.Fail? || magic.value != MAGIC { return false; }
      var v := ReadUint(data, 4, 4);
      if v.Fail? { return false; }
      version := v.value;
      var tensorCount := ReadUint(data, 8, 8);
      if tensorCount.Fail? { return false; }
      var metadataCount := ReadUint(data, 16, 8);
      if metadataCount.Fail? { return false; }
      if version < 2 || version > 3 { return false; }
      var es := ReadEntriesAt(24, metadataCount.value);
      if es.Fail? { return false; }
      alignment := Alignment(es.value);
      var rs := ReadTensorsAt(es.pos, tensorCount.value);
      if rs.Fail? { return false; }
      if alignment == 0 { return false; }
      dataStart := AlignUp(rs.pos, alignment);
      ghost var p := Parsed(Header(version, es.value, rs.value), alignment, dataStart);
      for i := 0 to |tensors|
        invariant InBounds(data, p, i)
      {
        if dataStart + tensors[i].offset + ReaderNbytes(tensors[i].typeId, tensors[i].dims) > |data| {
          assert AbsoluteOffset(p, i) == dataStart + tensors[i].offset;
          return false;
        }
      }
      ok := true;
    }
  }

  function Before<T>(front: seq<T>, r: Got<seq<T>>): Got<seq<T>> {
    if r.Fail? then Fail else Got(front + r.value, r.pos)
  }

  lemma BeforeNothing<T>(r: Got<seq<T>>)
    ensures Before([], r) == r
  {
    if r.Got? { assert [] + r.value == r.value; }
  }

  lemma BeforeOne<T>(front: seq<T>, x: T, r: Got<seq<T>>)
    ensures Before(front, Before([x], r)) == Before(front + [x], r)
    ensures Before([x], r) == if r.Fail? then Fail else Got([x] + r.value, r.pos)
  {
    if r.Got? { assert front + ([x] + r.value) == front + [x] + r.value; }
  }

  /** Every key read is in the map, with its last value, and no other key is. */
  ghost predicate Stores(m: map<Bytes, Value>, es: seq<Entry>) {
    forall k :: (k in m <==> Lookup(es, k).Some?) && (k in m ==> Lookup(es, k) == Some(m[k]))
  }

  lemma NothingStored()
    ensures Stores(map[], [])
  {
  }

  lemma StoresMore(m: map<Bytes, Value>, es: seq<Entry>, e: Entry)
    requires Stores(m, es)
    ensures Stores(m[e.key := e.value], es + [e])
  {
    assert (es + [e])[..|es|] == es;
  }

  // ----- skipping, on the Python side -----

  /** Seeking does not look at the end of the file; reading a length does. */
  function SkipString(d: Bytes, pos: nat): Option<nat> {
    var n := ReadUint(d, pos, 8);
    if n.Fail? then None else Some(n.pos + n.value)
  }

  function SkipStrings(d: Bytes, pos: nat, n: nat): Option<nat>
    decreases n
  {
    if n == 0 then Some(pos)
    else
      var s := SkipString(d, pos);
      if s.None? then None else SkipStrings(d, s.value, n - 1)
  }

  function SkipValue(d: Bytes, pos: nat, tag: nat): Option<nat> {
    if tag == STRING then SkipString(d, pos)
    else if tag == ARRAY then
      var t := ReadUint(d, pos, 4);
      if t.Fail? then None
      else
        var n := ReadUint(d, t.pos, 8);
        if n.Fail? then None
        else if t.value == STRING then SkipStrings(d, n.pos, n.value)
        else if ScalarSize(t.value) > 0 then Some(n.pos + n.value * ScalarSize(t.value))
        else None
    else if ScalarSize(tag) > 0 then Some(pos + ScalarSize(tag))
    else None
  }

  method SkipMetadataValue(d: Bytes, pos: nat, tag: nat) returns (r: Option<nat>)
    ensures r == SkipValue(d, pos, tag)
  {
    hide SkipString;
    if tag == STRING { return SkipString(d, pos); }
    if tag == ARRAY {
      var t := ReadUint(d, pos, 4);
      if t.Fail? { return None; }
      var n := ReadUint(d, t.pos, 8);
      if n.Fail? { return None; }
      if t.value == STRING {
        var at := n.pos;
        for i := 0 to n.value
          invariant SkipStrings(d, n.pos, n.value) == SkipStrings(d, at, n.value - i)
        {
          var s := SkipString(d, at);
          if s.None? { return None; }
          at := s.value;
        }
        return Some(at);
      }
      if ScalarSize(t.value) == 0 { return None; }
      return Some(n.pos + n.value * ScalarSize(t.value));
    }
    r := if ScalarSize(tag) > 0 then Some(pos + ScalarSize(tag)) else None;
  }

  lemma StringSkips(d: Bytes, pos: nat)
    requires ReadString(d, pos).Got?
    ensures SkipString(d, pos) == Some(ReadString(d, pos).pos)
  {
  }

  lemma {:induction false} StringsSkip(d: Bytes, pos: nat, n: nat)
    requires ReadStrings(d, pos, n).Got?
    ensures SkipStrings(d, pos, n) == Some(ReadStrings(d, pos, n).pos)
    decreases n
  {
    hide ReadString, SkipString;
    if n > 0 {
      StringSkips(d, pos);
      StringsSkip(d, ReadString(d, pos).pos, n - 1);
    }
  }

  lemma {:induction false} ItemsSpan(d: Bytes, pos: nat, w: nat, n: nat)
    requires ReadItems(d, pos, w, n).Got?
    ensures ReadItems(d, pos, w, n).pos == pos + n * w
    decreases n
  {
    if n > 0 {
      ItemsSpan(d, pos + w, w, n - 1);
      assert n * w == (n - 1) * w + w;
    }
  }

  /** Whatever the reader can read, skipping goes over exactly as far. */
  lemma SkipsAsRead(d: Bytes, pos: nat, tag: nat)
    requires ReadValue(d, pos, tag).Got?
    ensures SkipValue(d, pos, tag) == Some(ReadValue(d, pos, tag).pos)
  {
    hide ReadString, SkipString, ReadStrings, SkipStrings, ReadItems;
    if tag == STRING {
      StringSkips(d, pos);
    } else if tag == ARRAY {
      var t := ReadUint(d, pos, 4);
      var n := ReadUint(d, t.pos, 8);
      if t.value == STRING {
        StringsSkip(d, n.pos, n.value);
      } else {
        ItemsSpan(d, n.pos, ScalarSize(t.value), n.value);
      }
    }
  }

  function SkipEntries(d: Bytes, pos: nat, n: nat): Option<nat>
    decreases n
  {
    if n == 0 then Some(pos)
    else
      var k := SkipString(d, pos);
      if k.None? then None
      else
        var t := ReadUint(d, k.value, 4);
        if t.Fail? then None
        else
          var v := SkipValue(d, t.pos, t.value);
          if v.None? then None else SkipEntries(d, v.value, n - 1)
  }

  lemma {:induction false} EntriesSkip(d: Bytes, pos: nat, n: nat)
    requires ReadEntries(d, pos, n).Got?
    ensures SkipEntries(d, pos, n) == Some(ReadEntries(d, pos, n).pos)
    decreases n
  {
    hide ReadString, SkipString, ReadValue, SkipValue;
    if n > 0 {
      var k := ReadString(d, pos);
      StringSkips(d, pos);
      var t := ReadUint(d, k.pos, 4);
      SkipsAsRead(d, t.pos, t.value);
      EntriesSkip(d, ReadEntry(d, pos).pos, n - 1);
    }
  }

  /** `_metadata_raw_bytes`: a short read at the end of the file is not noticed. */
  function RawMetadata(d: Bytes, count: nat): Option<Bytes> {
    var m := ReadRaw(d, 0, 4);
    if m.Fail? || m.value != MAGIC then None
    else
      var end := SkipEntries(d, 24, count);
      if end.None? then None else Some(Between(d, 24, end.value))
  }

  function Between(d: Bytes, a: nat, b: nat): Bytes {
    if a <= b <= |d| then d[a..b] else if a <= |d| then d[a..] else []
  }

  method MetadataRawBytes(d: Bytes, count: nat) returns (r: Option<Bytes>)
    ensures r == RawMetadata(d, count)
  {
    hide SkipString, SkipValue;
    var m := ReadRaw(d, 0, 4);
    if m.Fail? || m.value != MAGIC { return None; }
    var at := 24;
    for i := 0 to count
      invariant at >= 0 && SkipEntries(d, 24, count) == SkipEntries(d, at, count - i)
    {
      var key := SkipString(d, at);
      if key.None? { return None; }
      var tag := ReadUint(d, key.value, 4);
      if tag.Fail? { return None; }
      var v := SkipMetadataValue(d, tag.pos, tag.value);
      if v.None? { return None; }
      at := v.value;
    }
    r := Some(Between(d, 24, at));
  }

  /** The raw metadata is the bytes of the entries the reader reads. */
  lemma RawMetadataIsEntries(d: Bytes)
    requires ReadHeader(d).Got?
    ensures RawMetadata(d, |ReadHeader(d).value.entries|) == Some(EntriesBytes(ReadHeader(d).value.entries))
  {
    hide SkipEntries, ReadEntries, ReadRecords, EntriesBytes, ReadUint;
    var n := ReadUint(d, 16, 8).value;
    EntriesSkip(d, 24, n);
    SizesInFront(d);
    EntriesAreBytes(d, 24, n);
  }

  lemma SizesInFront(d: Bytes)
    requires ReadUint(d, 16, 8).Got?
    ensures |d| >= 24
  {
  }
}
