/** The GGUF header format: what its parts look like as bytes, how they are read, and that the two
    agree in both directions. */
module Gguf {
  import opened Texts

  const U32 := 0x1_0000_0000
  const U64 := 0x1_0000_0000_0000_0000

  // ----- little-endian integers -----

  function Le(n: nat, w: nat): (b: Bytes)
    ensures |b| == w
  {
    if w == 0 then [] else [n % 256] + Le(n / 256, w - 1)
  }

  function FromLe(b: Bytes): nat { if b == [] then 0 else b[0] + 256 * FromLe(b[1..]) }

  predicate Fits(n: nat, w: nat) { if w == 0 then n == 0 else Fits(n / 256, w - 1) }

  lemma {:induction false} LeReads(n: nat, w: nat)
    requires Fits(n, w)
    ensures FromLe(Le(n, w)) == n
    decreases w
  {
    if w > 0 {
      LeReads(n / 256, w - 1);
      assert Le(n, w)[1..] == Le(n / 256, w - 1);
    }
  }

  lemma {:induction false} ReadsLe(b: Bytes)
    ensures Le(FromLe(b), |b|) == b && Fits(FromLe(b), |b|)
    decreases |b|
  {
    if b != [] {
      ReadsLe(b[1..]);
      assert FromLe(b) % 256 == b[0] && FromLe(b) / 256 == FromLe(b[1..]);
      assert b == [b[0]] + b[1..];
    }
  }

  lemma FitsWords(n: nat)
    ensures (Fits(n, 4) <==> n < U32) && (Fits(n, 8) <==> n < U64)
  {
    var a := n / 256;
    var b := a / 256;
    var c := b / 256;
    var d := c / 256;
    assert Fits(n, 4) <==> d == 0 by {
      assert Fits(n, 4) <==> Fits(a, 3);
      assert Fits(a, 3) <==> Fits(b, 2);
      assert Fits(b, 2) <==> Fits(c, 1);
    }
    var e := d / 256;
    var f := e / 256;
    var g := f / 256;
    assert Fits(n, 8) <==> g / 256 == 0 by {
      assert Fits(n, 8) <==> Fits(a, 7);
      assert Fits(a, 7) <==> Fits(b, 6);
      assert Fits(b, 6) <==> Fits(c, 5);
      assert Fits(c, 5) <==> Fits(d, 4);
      assert Fits(d, 4) <==> Fits(e, 3);
      assert Fits(e, 3) <==> Fits(f, 2);
      assert Fits(f, 2) <==> Fits(g, 1);
    }
  }

  // ----- the parts of a header -----

  /** Scalars keep their bytes. */
  datatype Value =
    | Scalar(tag: nat, raw: Bytes)
    | Str(s: Bytes)
    | Items(itemTag: nat, items: seq<Bytes>)
    | Strs(ss: seq<Bytes>)

  datatype Entry = Entry(key: Bytes, value: Value)

  datatype Record = Record(name: Bytes, dims: seq<nat>, typeId: nat, offset: nat)

  datatype Header = Header(version: nat, entries: seq<Entry>, records: seq<Record>)

  const STRING := 8
  const ARRAY := 9

  /** The size of a scalar type, 0 for anything else. */
  function ScalarSize(tag: nat): nat {
    if tag == 0 || tag == 1 || tag == 7 then 1
    else if tag == 2 || tag == 3 then 2
    else if tag == 4 || tag == 5 || tag == 6 then 4
    else if tag == 10 || tag == 11 || tag == 12 then 8
    else 0
  }

  function Tag(v: Value): nat {
    match v
    case Scalar(tag, _) => tag
    case Str(_) => STRING
    case _ => ARRAY
  }

  predicate GoodString(s: Bytes) { |s| < U64 }

  predicate GoodItems(items: seq<Bytes>, w: nat) { forall i :: 0 <= i < |items| ==> |items[i]| == w }

  predicate GoodStrings(ss: seq<Bytes>) { forall i :: 0 <= i < |ss| ==> GoodString(ss[i]) }

  predicate GoodValue(v: Value) {
    match v
    case Scalar(tag, raw) => ScalarSize(tag) > 0 && |raw| == ScalarSize(tag)
    case Str(s) => GoodString(s)
    case Items(tag, items) => ScalarSize(tag) > 0 && |items| < U64 && GoodItems(items, ScalarSize(tag))
    case Strs(ss) => |ss| < U64 && GoodStrings(ss)
  }

  predicate GoodEntry(e: Entry) { GoodString(e.key) && GoodValue(e.value) }

  predicate GoodEntries(es: seq<Entry>) { forall i :: 0 <= i < |es| ==> GoodEntry(es[i]) }

  predicate GoodDims(dims: seq<nat>) { forall i :: 0 <= i < |dims| ==> dims[i] < U64 }

  predicate GoodRecord(r: Record) {
    GoodString(r.name) && |r.dims| < U32 && GoodDims(r.dims) && r.typeId < U32 && r.offset < U64
  }

  predicate GoodRecords(rs: seq<Record>) { forall i :: 0 <= i < |rs| ==> GoodRecord(rs[i]) }

  predicate GoodHeader(h: Header) {
    h.version < U32 && |h.entries| < U64 && GoodEntries(h.entries) && |h.records| < U64 && GoodRecords(h.records)
  }

  // ----- as bytes -----

  function StringBytes(s: Bytes): Bytes { Le(|s|, 8) + s }

  function StringsBytes(ss: seq<Bytes>): Bytes { if ss == [] then [] else StringBytes(ss[0]) + StringsBytes(ss[1..]) }

  function ValueBytes(v: Value): Bytes {
    match v
    case Scalar(_, raw) => raw
    case Str(s) => StringBytes(s)
    case Items(tag, items) => Le(tag, 4) + Le(|items|, 8) + Concat(items)
    case Strs(ss) => Le(STRING, 4) + Le(|ss|, 8) + StringsBytes(ss)
  }

  function EntryBytes(e: Entry): Bytes { StringBytes(e.key) + Le(Tag(e.value), 4) + ValueBytes(e.value) }

  function EntriesBytes(es: seq<Entry>): Bytes { if es == [] then [] else EntryBytes(es[0]) + EntriesBytes(es[1..]) }

  function DimsBytes(dims: seq<nat>): Bytes { if dims == [] then [] else Le(dims[0], 8) + DimsBytes(dims[1..]) }

  function RecordBytes(r: Record): Bytes {
    StringBytes(r.name) + Le(|r.dims|, 4) + DimsBytes(r.dims) + Le(r.typeId, 4) + Le(r.offset, 8)
  }

  function RecordsBytes(rs: seq<Record>): Bytes { if rs == [] then [] else RecordBytes(rs[0]) + RecordsBytes(rs[1..]) }

  const MAGIC: Bytes := [0x47, 0x47, 0x55, 0x46]

  function HeaderBytes(h: Header): Bytes {
    MAGIC + Le(h.version, 4) + Le(|h.records|, 8) + Le(|h.entries|, 8) + EntriesBytes(h.entries)
      + RecordsBytes(h.records)
  }

  // ----- reading -----

  /** A value and the position behind it. */
  datatype Got<+T> = Fail | Got(value: T, pos: nat)

  function ReadUint(d: Bytes, pos: nat, w: nat): Got<nat> {
    if pos + w > |d| then Fail else Got(FromLe(d[pos..pos + w]), pos + w)
  }

  function ReadRaw(d: Bytes, pos: nat, w: nat): Got<Bytes> {
    if pos + w > |d| then Fail else Got(d[pos..pos + w], pos + w)
  }

  function ReadString(d: Bytes, pos: nat): Got<Bytes> {
    var n := ReadUint(d, pos, 8);
    if n.Fail? then Fail else ReadRaw(d, n.pos, n.value)
  }

  function ReadItems(d: Bytes, pos: nat, w: nat, n: nat): Got<seq<Bytes>>
    decreases n
  {
    if n == 0 then Got([], pos)
    else
      var x := ReadRaw(d, pos, w);
      if x.Fail? then Fail
      else
        var rest := ReadItems(d, x.pos, w, n - 1);
        if rest.Fail? then Fail else Got([x.value] + rest.value, rest.pos)
  }

  function ReadStrings(d: Bytes, pos: nat, n: nat): Got<seq<Bytes>>
    decreases n
  {
    if n == 0 then Got([], pos)
    else
      var x := ReadString(d, pos);
      if x.Fail? then Fail
      else
        var rest := ReadStrings(d, x.pos, n - 1);
        if rest.Fail? then Fail else Got([x.value] + rest.value, rest.pos)
  }

  function ReadArray(d: Bytes, pos: nat): Got<Value> {
    var t := ReadUint(d, pos, 4);
    if t.Fail? then Fail
    else
      var n := ReadUint(d, t.pos, 8);
      if n.Fail? then Fail
      else if t.value == STRING then
        var ss := ReadStrings(d, n.pos, n.value);
        if ss.Fail? then Fail else Got(Strs(ss.value), ss.pos)
      else if ScalarSize(t.value) > 0 then
        var items := ReadItems(d, n.pos, ScalarSize(t.value), n.value);
        if items.Fail? then Fail else Got(Items(t.value, items.value), items.pos)
      else Fail
  }

  /** `read_metadata_value` */
  function ReadValue(d: Bytes, pos: nat, tag: nat): Got<Value> {
    if tag == STRING then
      var s := ReadString(d, pos);
      if s.Fail? then Fail else Got(Str(s.value), s.pos)
    else if tag == ARRAY then ReadArray(d, pos)
    else if ScalarSize(tag) > 0 then
      var x := ReadRaw(d, pos, ScalarSize(tag));
      if x.Fail? then Fail else Got(Scalar(tag, x.value), x.pos)
    else Fail
  }

  function ReadEntry(d: Bytes, pos: nat): Got<Entry> {
    var k := ReadString(d, pos);
    if k.Fail? then Fail
    else
      var t := ReadUint(d, k.pos, 4);
      if t.Fail? then Fail
      else
        var v := ReadValue(d, t.pos, t.value);
        if v.Fail? then Fail else Got(Entry(k.value, v.value), v.pos)
  }

  function ReadEntries(d: Bytes, pos: nat, n: nat): Got<seq<Entry>>
    decreases n
  {
    if n == 0 then Got([], pos)
    else
      var x := ReadEntry(d, pos);
      if x.Fail? then Fail
      else
        var rest := ReadEntries(d, x.pos, n - 1);
        if rest.Fail? then Fail else Got([x.value] + rest.value, rest.pos)
  }

  function ReadDims(d: Bytes, pos: nat, n: nat): Got<seq<nat>>
    decreases n
  {
    if n == 0 then Got([], pos)
    else
      var x := ReadUint(d, pos, 8);
      if x.Fail? then Fail
      else
        var rest := ReadDims(d, x.pos, n - 1);
        if rest.Fail? then Fail else Got([x.value] + rest.value, rest.pos)
  }

  function ReadRecord(d: Bytes, pos: nat): Got<Record> {
    var name := ReadString(d, pos);
    if name.Fail? then Fail
    else
      var n := ReadUint(d, name.pos, 4);
      if n.Fail? then Fail
      else
        var dims := ReadDims(d, n.pos, n.value);
        if dims.Fail? then Fail
        else
          var t := ReadUint(d, dims.pos, 4);
          if t.Fail? then Fail
          else
            var off := ReadUint(d, t.pos, 8);
            if off.Fail? then Fail else Got(Record(name.value, dims.value, t.value, off.value), off.pos)
  }

  function ReadRecords(d: Bytes, pos: nat, n: nat): Got<seq<Record>>
    decreases n
  {
    if n == 0 then Got([], pos)
    else
      var x := ReadRecord(d, pos);
      if x.Fail? then Fail
      else
        var rest := ReadRecords(d, x.pos, n - 1);
        if rest.Fail? then Fail else Got([x.value] + rest.value, rest.pos)
  }

  function ReadHeader(d: Bytes): Got<Header> {
    var m := ReadRaw(d, 0, 4);
    if m.Fail? || m.value != MAGIC then Fail
    else
      var v := ReadUint(d, 4, 4);
      if v.Fail? then Fail
      else
        var t := ReadUint(d, 8, 8);
        if t.Fail? then Fail
        else
          var n := ReadUint(d, 16, 8);
          if n.Fail? then Fail
          else
            var es := ReadEntries(d, 24, n.value);
            if es.Fail? then Fail
            else
              var rs := ReadRecords(d, es.pos, t.value);
              if rs.Fail? then Fail else Got(Header(v.value, es.value, rs.value), rs.pos)
  }

  // ----- reading is the inverse of writing -----

  /** s stands in d at pos. */
  predicate Here(d: Bytes, pos: nat, s: Bytes) { pos + |s| <= |d| && d[pos..pos + |s|] == s }

  lemma HereSplit(d: Bytes, pos: nat, a: Bytes, b: Bytes)
    ensures Here(d, pos, a + b) <==> Here(d, pos, a) && Here(d, pos + |a|, b)
  {
    if pos + |a| + |b| <= |d| {
      var t := d[pos..pos + |a| + |b|];
      assert t[..|a|] == d[pos..pos + |a|] && t[|a|..] == d[pos + |a|..pos + |a| + |b|];
      assert t == t[..|a|] + t[|a|..];
      assert (a + b)[..|a|] == a && (a + b)[|a|..] == b;
    }
  }

  lemma ReadsUint(d: Bytes, pos: nat, n: nat, w: nat)
    requires Here(d, pos, Le(n, w)) && Fits(n, w)
    ensures ReadUint(d, pos, w) == Got(n, pos + w)
  {
    LeReads(n, w);
  }

  lemma UintBytes(d: Bytes, pos: nat, w: nat)
    requires ReadUint(d, pos, w).Got?
    ensures var r := ReadUint(d, pos, w); Here(d, pos, Le(r.value, w)) && Fits(r.value, w) && r.pos == pos + w
  {
    ReadsLe(d[pos..pos + w]);
  }

  lemma ReadsString(d: Bytes, pos: nat, s: Bytes)
    requires GoodString(s) && Here(d, pos, StringBytes(s))
    ensures ReadString(d, pos) == Got(s, pos + |StringBytes(s)|)
  {
    hide Le, FromLe, Fits, Here;
    HereSplit(d, pos, Le(|s|, 8), s);
    FitsWords(|s|);
    ReadsUint(d, pos, |s|, 8);
    HereIs(d, pos + 8, s);
  }

  lemma HereIs(d: Bytes, pos: nat, s: Bytes)
    ensures Here(d, pos, s) <==> pos + |s| <= |d| && d[pos..pos + |s|] == s
  {
  }

  lemma StringIsBytes(d: Bytes, pos: nat)
    requires ReadString(d, pos).Got?
    ensures var r := ReadString(d, pos);
            GoodString(r.value) && Here(d, pos, StringBytes(r.value)) && r.pos == pos + |StringBytes(r.value)|
  {
    hide Le, FromLe, Fits, Here;
    UintBytes(d, pos, 8);
    var s := ReadString(d, pos).value;
    FitsWords(|s|);
    HereIs(d, pos + 8, s);
    HereSplit(d, pos, Le(|s|, 8), s);
  }

  lemma {:induction false} ReadsItems(d: Bytes, pos: nat, w: nat, items: seq<Bytes>)
    requires GoodItems(items, w) && Here(d, pos, Concat(items))
    ensures ReadItems(d, pos, w, |items|) == Got(items, pos + |Concat(items)|)
    decreases |items|
  {
    if items != [] {
      HereSplit(d, pos, items[0], Concat(items[1..]));
      ReadsItems(d, pos + |items[0]|, w, items[1..]);
      assert items == [items[0]] + items[1..];
    }
  }

  lemma {:induction false} ItemsAreBytes(d: Bytes, pos: nat, w: nat, n: nat)
    requires ReadItems(d, pos, w, n).Got? && pos <= |d|
    ensures var r := ReadItems(d, pos, w, n);
            |r.value| == n && GoodItems(r.value, w) && Here(d, pos, Concat(r.value)) && r.pos == pos + |Concat(r.value)|
    decreases n
  {
    if n > 0 {
      var x := ReadRaw(d, pos, w);
      ItemsAreBytes(d, x.pos, w, n - 1);
      var rest := ReadItems(d, x.pos, w, n - 1).value;
      assert ([x.value] + rest)[1..] == rest;
      HereSplit(d, pos, x.value, Concat(rest));
    }
  }

  lemma {:induction false} ReadsStrings(d: Bytes, pos: nat, ss: seq<Bytes>)
    requires GoodStrings(ss) && Here(d, pos, StringsBytes(ss)) && pos <= |d|
    ensures ReadStrings(d, pos, |ss|) == Got(ss, pos + |StringsBytes(ss)|)
    decreases |ss|
  {
    hide ReadString, StringBytes;
    if ss != [] {
      HereSplit(d, pos, StringBytes(ss[0]), StringsBytes(ss[1..]));
      ReadsString(d, pos, ss[0]);
      ReadsStrings(d, pos + |StringBytes(ss[0])|, ss[1..]);
      assert ss == [ss[0]] + ss[1..];
    }
  }

  lemma {:induction false} StringsAreBytes(d: Bytes, pos: nat, n: nat)
    requires ReadStrings(d, pos, n).Got? && pos <= |d|
    ensures var r := ReadStrings(d, pos, n);
            |r.value| == n && GoodStrings(r.value) && Here(d, pos, StringsBytes(r.value))
              && r.pos == pos + |StringsBytes(r.value)|
    decreases n
  {
    hide ReadString, StringBytes;
    if n > 0 {
      var x := ReadString(d, pos);
      StringIsBytes(d, pos);
      StringsAreBytes(d, x.pos, n - 1);
      var rest := ReadStrings(d, x.pos, n - 1).value;
      assert ([x.value] + rest)[1..] == rest;
      HereSplit(d, pos, StringBytes(x.value), StringsBytes(rest));
    }
  }

  lemma ReadsArray(d: Bytes, pos: nat, v: Value)
    requires GoodValue(v) && (v.Items? || v.Strs?) && Here(d, pos, ValueBytes(v))
    ensures ReadArray(d, pos) == Got(v, pos + |ValueBytes(v)|)
  {
    hide ReadItems, ReadStrings, Le, Fits, Here, Concat, StringsBytes;
    var tag := if v.Strs? then STRING else v.itemTag;
    var n := if v.Strs? then |v.ss| else |v.items|;
    var body := if v.Strs? then StringsBytes(v.ss) else Concat(v.items);
    FitsWords(tag);
    FitsWords(n);
    HereSplit(d, pos, Le(tag, 4) + Le(n, 8), body);
    HereSplit(d, pos, Le(tag, 4), Le(n, 8));
    ReadsUint(d, pos, tag, 4);
    ReadsUint(d, pos + 4, n, 8);
    HereIs(d, pos + 12, body);
    if v.Strs? { ReadsStrings(d, pos + 12, v.ss); } else { ReadsItems(d, pos + 12, ScalarSize(tag), v.items); }
  }

  lemma ArrayIsBytes(d: Bytes, pos: nat)
    requires ReadArray(d, pos).Got?
    ensures var r := ReadArray(d, pos);
            GoodValue(r.value) && Tag(r.value) == ARRAY && Here(d, pos, ValueBytes(r.value))
              && r.pos == pos + |ValueBytes(r.value)|
  {
    hide ReadItems, ReadStrings, Le, Fits, Here, Concat, StringsBytes, FromLe;
    var t := ReadUint(d, pos, 4);
    UintBytes(d, pos, 4);
    var n := ReadUint(d, t.pos, 8);
    UintBytes(d, t.pos, 8);
    FitsWords(n.value);
    HereSplit(d, pos, Le(t.value, 4), Le(n.value, 8));
    if t.value == STRING {
      StringsAreBytes(d, n.pos, n.value);
      HereSplit(d, pos, Le(t.value, 4) + Le(n.value, 8), StringsBytes(ReadStrings(d, n.pos, n.value).value));
    } else {
      ItemsAreBytes(d, n.pos, ScalarSize(t.value), n.value);
      HereSplit(d, pos, Le(t.value, 4) + Le(n.value, 8),
        Concat(ReadItems(d, n.pos, ScalarSize(t.value), n.value).value));
    }
  }

  lemma ReadsValue(d: Bytes, pos: nat, v: Value)
    requires GoodValue(v) && Here(d, pos, ValueBytes(v))
    ensures ReadValue(d, pos, Tag(v)) == Got(v, pos + |ValueBytes(v)|)
  {
    hide ReadArray, ReadString, Le, StringBytes, Concat, StringsBytes;
    match v {
      case Scalar(_, _) =>
      case Str(s) => ReadsString(d, pos, s);
      case _ => ReadsArray(d, pos, v);
    }
  }

  lemma ValueIsBytes(d: Bytes, pos: nat, tag: nat)
    requires ReadValue(d, pos, tag).Got?
    ensures var r := ReadValue(d, pos, tag);
            GoodValue(r.value) && Tag(r.value) == tag && Here(d, pos, ValueBytes(r.value))
              && r.pos == pos + |ValueBytes(r.value)|
  {
    hide ReadArray, ReadString, Le, StringBytes, Concat, StringsBytes;
    if tag == STRING { StringIsBytes(d, pos); } else if tag == ARRAY { ArrayIsBytes(d, pos); }
  }

  lemma TagSmall(v: Value)
    requires GoodValue(v)
    ensures Tag(v) < U32
  {
  }

  lemma ReadsEntry(d: Bytes, pos: nat, e: Entry)
    requires GoodEntry(e) && Here(d, pos, EntryBytes(e))
    ensures ReadEntry(d, pos) == Got(e, pos + |EntryBytes(e)|)
  {
    hide ReadString, ReadValue, StringBytes, ValueBytes, Le, Fits, Here, Tag, GoodValue;
    var k, t, v := StringBytes(e.key), Le(Tag(e.value), 4), ValueBytes(e.value);
    HereSplit(d, pos, k + t, v);
    HereSplit(d, pos, k, t);
    TagSmall(e.value);
    FitsWords(Tag(e.value));
    ReadsString(d, pos, e.key);
    ReadsUint(d, pos + |k|, Tag(e.value), 4);
    ReadsValue(d, pos + |k| + 4, e.value);
  }

  lemma EntryIsBytes(d: Bytes, pos: nat)
    requires ReadEntry(d, pos).Got?
    ensures var r := ReadEntry(d, pos);
            GoodEntry(r.value) && Here(d, pos, EntryBytes(r.value)) && r.pos == pos + |EntryBytes(r.value)|
              && r.pos <= |d|
  {
    hide ReadString, ReadValue, StringBytes, ValueBytes, Le, Fits, Here, Tag, GoodValue, FromLe;
    var k := ReadString(d, pos);
    StringIsBytes(d, pos);
    var t := ReadUint(d, k.pos, 4);
    UintBytes(d, k.pos, 4);
    var v := ReadValue(d, t.pos, t.value);
    ValueIsBytes(d, t.pos, t.value);
    HereSplit(d, pos, StringBytes(k.value), Le(t.value, 4));
    HereSplit(d, pos, StringBytes(k.value) + Le(t.value, 4), ValueBytes(v.value));
    HereIs(d, t.pos, ValueBytes(v.value));
  }

  lemma {:induction false} ReadsEntries(d: Bytes, pos: nat, es: seq<Entry>)
    requires GoodEntries(es) && Here(d, pos, EntriesBytes(es))
    ensures ReadEntries(d, pos, |es|) == Got(es, pos + |EntriesBytes(es)|)
    decreases |es|
  {
    hide ReadEntry, EntryBytes, GoodEntry, Here;
    if es != [] {
      HereSplit(d, pos, EntryBytes(es[0]), EntriesBytes(es[1..]));
      ReadsEntry(d, pos, es[0]);
      ReadsEntries(d, pos + |EntryBytes(es[0])|, es[1..]);
      assert es == [es[0]] + es[1..];
    }
  }

  lemma {:induction false} EntriesAreBytes(d: Bytes, pos: nat, n: nat)
    requires ReadEntries(d, pos, n).Got? && pos <= |d|
    ensures var r := ReadEntries(d, pos, n);
            && |r.value| == n && GoodEntries(r.value) && Here(d, pos, EntriesBytes(r.value))
            && r.pos == pos + |EntriesBytes(r.value)| && r.pos <= |d|
    decreases n
  {
    hide ReadEntry, EntryBytes, GoodEntry;
    if n > 0 {
      var x := ReadEntry(d, pos);
      EntryIsBytes(d, pos);
      EntriesAreBytes(d, x.pos, n - 1);
      var rest := ReadEntries(d, x.pos, n - 1).value;
      assert ([x.value] + rest)[1..] == rest;
      HereSplit(d, pos, EntryBytes(x.value), EntriesBytes(rest));
    }
  }

  lemma {:induction false} ReadsDims(d: Bytes, pos: nat, dims: seq<nat>)
    requires GoodDims(dims) && Here(d, pos, DimsBytes(dims))
    ensures ReadDims(d, pos, |dims|) == Got(dims, pos + |DimsBytes(dims)|)
    decreases |dims|
  {
    hide Le, Fits, Here, ReadUint;
    if dims != [] {
      HereSplit(d, pos, Le(dims[0], 8), DimsBytes(dims[1..]));
      FitsWords(dims[0]);
      ReadsUint(d, pos, dims[0], 8);
      ReadsDims(d, pos + 8, dims[1..]);
      assert dims == [dims[0]] + dims[1..];
    }
  }

  lemma {:induction false} DimsAreBytes(d: Bytes, pos: nat, n: nat)
    requires ReadDims(d, pos, n).Got? && pos <= |d|
    ensures var r := ReadDims(d, pos, n);
            && |r.value| == n && GoodDims(r.value) && Here(d, pos, DimsBytes(r.value))
            && r.pos == pos + |DimsBytes(r.value)| && r.pos <= |d|
    decreases n
  {
    hide Le, Fits, FromLe;
    if n > 0 {
      var x := ReadUint(d, pos, 8);
      UintBytes(d, pos, 8);
      FitsWords(x.value);
      DimsAreBytes(d, x.pos, n - 1);
      var rest := ReadDims(d, x.pos, n - 1).value;
      assert ([x.value] + rest)[1..] == rest;
      HereSplit(d, pos, Le(x.value, 8), DimsBytes(rest));
    }
  }

  lemma ReadsRecord(d: Bytes, pos: nat, r: Record)
    requires GoodRecord(r) && Here(d, pos, RecordBytes(r))
    ensures ReadRecord(d, pos) == Got(r, pos + |RecordBytes(r)|)
  {
    hide ReadString, ReadDims, StringBytes, DimsBytes, Le, Fits, Here, ReadUint, GoodDims;
    var s, n, dims, t, o := StringBytes(r.name), Le(|r.dims|, 4), DimsBytes(r.dims), Le(r.typeId, 4), Le(r.offset, 8);
    HereSplit(d, pos, s + n + dims + t, o);
    HereSplit(d, pos, s + n + dims, t);
    HereSplit(d, pos, s + n, dims);
    HereSplit(d, pos, s, n);
    FitsWords(|r.dims|);
    FitsWords(r.typeId);
    FitsWords(r.offset);
    ReadsString(d, pos, r.name);
    ReadsUint(d, pos + |s|, |r.dims|, 4);
    ReadsDims(d, pos + |s| + 4, r.dims);
    ReadsUint(d, pos + |s| + 4 + |dims|, r.typeId, 4);
    ReadsUint(d, pos + |s| + 4 + |dims| + 4, r.offset, 8);
  }

  lemma RecordIsBytes(d: Bytes, pos: nat)
    requires ReadRecord(d, pos).Got?
    ensures var r := ReadRecord(d, pos);
            GoodRecord(r.value) && Here(d, pos, RecordBytes(r.value)) && r.pos == pos + |RecordBytes(r.value)|
              && r.pos <= |d|
  {
    hide ReadString, ReadDims, StringBytes, DimsBytes, Le, Fits, Here, GoodDims, FromLe;
    var name := ReadString(d, pos);
    StringIsBytes(d, pos);
    var n := ReadUint(d, name.pos, 4);
    UintBytes(d, name.pos, 4);
    FitsWords(n.value);
    var dims := ReadDims(d, n.pos, n.value);
    DimsAreBytes(d, n.pos, n.value);
    var t := ReadUint(d, dims.pos, 4);
    UintBytes(d, dims.pos, 4);
    FitsWords(t.value);
    var o := ReadUint(d, t.pos, 8);
    UintBytes(d, t.pos, 8);
    FitsWords(o.value);
    var sb, nb, db, tb := StringBytes(name.value), Le(n.value, 4), DimsBytes(dims.value), Le(t.value, 4);
    HereSplit(d, pos, sb, nb);
    HereSplit(d, pos, sb + nb, db);
    HereSplit(d, pos, sb + nb + db, tb);
    HereSplit(d, pos, sb + nb + db + tb, Le(o.value, 8));
    HereIs(d, t.pos, Le(o.value, 8));
  }

  lemma {:induction false} ReadsRecords(d: Bytes, pos: nat, rs: seq<Record>)
    requires GoodRecords(rs) && Here(d, pos, RecordsBytes(rs))
    ensures ReadRecords(d, pos, |rs|) == Got(rs, pos + |RecordsBytes(rs)|)
    decreases |rs|
  {
    hide ReadRecord, RecordBytes, GoodRecord, Here;
    if rs != [] {
      HereSplit(d, pos, RecordBytes(rs[0]), RecordsBytes(rs[1..]));
      ReadsRecord(d, pos, rs[0]);
      ReadsRecords(d, pos + |RecordBytes(rs[0])|, rs[1..]);
      assert rs == [rs[0]] + rs[1..];
    }
  }

  lemma {:induction false} RecordsAreBytes(d: Bytes, pos: nat, n: nat)
    requires ReadRecords(d, pos, n).Got? && pos <= |d|
    ensures var r := ReadRecords(d, pos, n);
            && |r.value| == n && GoodRecords(r.value) && Here(d, pos, RecordsBytes(r.value))
            && r.pos == pos + |RecordsBytes(r.value)| && r.pos <= |d|
    decreases n
  {
    hide ReadRecord, RecordBytes, GoodRecord;
    if n > 0 {
      var x := ReadRecord(d, pos);
      RecordIsBytes(d, pos);
      RecordsAreBytes(d, x.pos, n - 1);
      var rest := ReadRecords(d, x.pos, n - 1).value;
      assert ([x.value] + rest)[1..] == rest;
      HereSplit(d, pos, RecordBytes(x.value), RecordsBytes(rest));
    }
  }

  /** The counts and the magic number in front, then the metadata, then the tensor records. */
  function Preamble(version: nat, records: nat, entries: nat): (p: Bytes)
    ensures |p| == 24
  {
    MAGIC + Le(version, 4) + Le(records, 8) + Le(entries, 8)
  }

  lemma PreambleParts(d: Bytes, version: nat, records: nat, entries: nat)
    ensures Here(d, 0, Preamble(version, records, entries))
       <==> Here(d, 0, MAGIC) && Here(d, 4, Le(version, 4)) && Here(d, 8, Le(records, 8)) && Here(d, 16, Le(entries, 8))
  {
    hide Here, Le;
    HereSplit(d, 0, MAGIC + Le(version, 4) + Le(records, 8), Le(entries, 8));
    HereSplit(d, 0, MAGIC + Le(version, 4), Le(records, 8));
    HereSplit(d, 0, MAGIC, Le(version, 4));
  }

  lemma HeaderParts(d: Bytes, h: Header)
    ensures Here(d, 0, HeaderBytes(h))
       <==> && Here(d, 0, Preamble(h.version, |h.records|, |h.entries|)) && Here(d, 24, EntriesBytes(h.entries))
            && Here(d, 24 + |EntriesBytes(h.entries)|, RecordsBytes(h.records))
    ensures |HeaderBytes(h)| == 24 + |EntriesBytes(h.entries)| + |RecordsBytes(h.records)|
  {
    hide Here, Le, EntriesBytes, RecordsBytes;
    var p := Preamble(h.version, |h.records|, |h.entries|);
    HereSplit(d, 0, p + EntriesBytes(h.entries), RecordsBytes(h.records));
    HereSplit(d, 0, p, EntriesBytes(h.entries));
  }

  /** Every well-formed header reads back from its bytes, whatever follows. */
  lemma ReadsHeader(d: Bytes, h: Header)
    requires GoodHeader(h) && Here(d, 0, HeaderBytes(h))
    ensures ReadHeader(d) == Got(h, |HeaderBytes(h)|)
  {
    hide Here, Le, Fits, EntriesBytes, RecordsBytes, ReadEntries, ReadRecords, ReadUint, GoodEntries, GoodRecords,
         HeaderBytes, Preamble;
    HeaderParts(d, h);
    PreambleParts(d, h.version, |h.records|, |h.entries|);
    FitsWords(h.version);
    FitsWords(|h.records|);
    FitsWords(|h.entries|);
    HereIs(d, 0, MAGIC);
    ReadsUint(d, 4, h.version, 4);
    ReadsUint(d, 8, |h.records|, 8);
    ReadsUint(d, 16, |h.entries|, 8);
    ReadsEntries(d, 24, h.entries);
    ReadsRecords(d, 24 + |EntriesBytes(h.entries)|, h.records);
  }

  /** Whatever reads as a header is a well-formed one and consists of exactly its bytes. */
  lemma HeaderIsBytes(d: Bytes)
    requires ReadHeader(d).Got?
    ensures var r := ReadHeader(d);
            GoodHeader(r.value) && Here(d, 0, HeaderBytes(r.value)) && r.pos == |HeaderBytes(r.value)| && r.pos <= |d|
  {
    hide Here, Le, Fits, EntriesBytes, RecordsBytes, ReadEntries, ReadRecords, GoodEntries, GoodRecords, HeaderBytes,
         Preamble, FromLe;
    var h := ReadHeader(d).value;
    HereIs(d, 0, MAGIC);
    UintBytes(d, 4, 4);
    UintBytes(d, 8, 8);
    UintBytes(d, 16, 8);
    FitsWords(h.version);
    var t, n := ReadUint(d, 8, 8).value, ReadUint(d, 16, 8).value;
    FitsWords(t);
    FitsWords(n);
    EntriesAreBytes(d, 24, n);
    RecordsAreBytes(d, ReadEntries(d, 24, n).pos, t);
    PreambleParts(d, h.version, t, n);
    HeaderParts(d, h);
  }
}
