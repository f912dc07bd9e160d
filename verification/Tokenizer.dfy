/** Byte-pair merging, encoding with special tokens, decoding, and their round trip. */
module Tokenizer {
  import opened Texts
  import opened ByteCodes
  import opened Pretokens

  const INT_MAX := 0x7FFF_FFFF

  datatype Pair = Pair(left: Bytes, right: Bytes)

  /** The tables a tokenizer is made of. `special` lists the ids of special tokens. */
  datatype Vocab = Vocab(
    idToToken: seq<Bytes>, tokenToId: map<Bytes, int>, ranks: map<Pair, int>, special: seq<int>)

  // ----- merging -----

  /** The rank of the pair at i and i + 1; unlisted pairs rank behind all others. */
  function RankAt(ranks: map<Pair, int>, pieces: seq<Bytes>, i: nat): int
    requires i + 1 < |pieces|
  {
    var p := Pair(pieces[i], pieces[i + 1]);
    if p in ranks && ranks[p] < INT_MAX then ranks[p] else INT_MAX
  }

  /** The leftmost pair of least rank, or |pieces| when no pair can be merged. */
  ghost predicate IsBest(ranks: map<Pair, int>, pieces: seq<Bytes>, k: nat) {
    if k + 1 < |pieces| then
      && RankAt(ranks, pieces, k) < INT_MAX
      && (forall i :: 0 <= i < k ==> RankAt(ranks, pieces, k) < RankAt(ranks, pieces, i))
      && (forall i :: k < i < |pieces| - 1 ==> RankAt(ranks, pieces, k) <= RankAt(ranks, pieces, i))
    else k == |pieces| && Unmergeable(ranks, pieces)
  }

  ghost predicate Unmergeable(ranks: map<Pair, int>, pieces: seq<Bytes>) {
    forall i :: 0 <= i < |pieces| - 1 ==> RankAt(ranks, pieces, i) == INT_MAX
  }

  /** The best among the first n pairs. */
  function BestIn(ranks: map<Pair, int>, pieces: seq<Bytes>, n: nat): (best: nat)
    requires n == 0 || n + 1 <= |pieces|
    ensures best == |pieces| || best < n
  {
    if n == 0 then |pieces|
    else
      var before := BestIn(ranks, pieces, n - 1);
      if RankAt(ranks, pieces, n - 1) < RankOr(ranks, pieces, before) then n - 1 else before
  }

  function RankOr(ranks: map<Pair, int>, pieces: seq<Bytes>, k: nat): int {
    if k + 1 < |pieces| then RankAt(ranks, pieces, k) else INT_MAX
  }

  function Best(ranks: map<Pair, int>, pieces: seq<Bytes>): nat {
    BestIn(ranks, pieces, if pieces == [] then 0 else |pieces| - 1)
  }

  lemma {:induction false} BestInMeaning(ranks: map<Pair, int>, pieces: seq<Bytes>, n: nat)
    requires n == 0 || n + 1 <= |pieces|
    ensures var best := BestIn(ranks, pieces, n);
            && (best < n ==> RankAt(ranks, pieces, best) < INT_MAX)
            && forall i :: 0 <= i < n ==>
                 if best < n && i < best then RankAt(ranks, pieces, best) < RankAt(ranks, pieces, i)
                 else RankOr(ranks, pieces, best) <= RankAt(ranks, pieces, i)
  {
    if n > 0 { BestInMeaning(ranks, pieces, n - 1); }
  }

  /** The selected pair is the leftmost of least rank, and none is selected only if none can be. */
  lemma BestMeaning(ranks: map<Pair, int>, pieces: seq<Bytes>)
    ensures IsBest(ranks, pieces, Best(ranks, pieces))
  {
    BestInMeaning(ranks, pieces, if pieces == [] then 0 else |pieces| - 1);
  }

  method BestPair(ranks: map<Pair, int>, pieces: seq<Bytes>) returns (best: nat)
    ensures best == Best(ranks, pieces)
  {
    var bestRank := INT_MAX;
    best := |pieces|;
    var i := 0;
    while i + 1 < |pieces|
      invariant i == 0 || i + 1 <= |pieces|
      invariant best == BestIn(ranks, pieces, i) && bestRank == RankOr(ranks, pieces, best)
    {
      var pair := Pair(pieces[i], pieces[i + 1]);
      if pair in ranks && ranks[pair] < bestRank {
        bestRank := ranks[pair];
        best := i;
      }
      i := i + 1;
    }
  }

  /** The pieces at k and k + 1 joined. */
  function MergeAt(pieces: seq<Bytes>, k: nat): seq<Bytes>
    requires k + 1 < |pieces|
  {
    pieces[..k] + [pieces[k] + pieces[k + 1]] + pieces[k + 2..]
  }

  /** Merges the leftmost best pair until none is left. */
  function Merged(ranks: map<Pair, int>, pieces: seq<Bytes>): seq<Bytes>
    decreases |pieces|
  {
    var best := Best(ranks, pieces);
    if best + 1 < |pieces| then Merged(ranks, MergeAt(pieces, best)) else pieces
  }

  lemma JoinKeepsText(head: seq<Bytes>, a: Bytes, b: Bytes, rest: seq<Bytes>)
    ensures Concat(head + ([a] + ([b] + rest))) == Concat(head + ([a + b] + rest))
  {
    hide Concat;
    ConcatAppend(head, [a] + ([b] + rest));
    ConcatOne(a, [b] + rest);
    ConcatOne(b, rest);
    ConcatAppend(head, [a + b] + rest);
    ConcatOne(a + b, rest);
    assert a + (b + Concat(rest)) == a + b + Concat(rest);
  }

  lemma MergeKeepsText(pieces: seq<Bytes>, k: nat)
    requires k + 1 < |pieces|
    ensures Concat(MergeAt(pieces, k)) == Concat(pieces)
  {
    hide Concat;
    var head, a, b, rest := pieces[..k], pieces[k], pieces[k + 1], pieces[k + 2..];
    JoinKeepsText(head, a, b, rest);
    assert pieces == head + pieces[k..];
    assert pieces[k..] == [a] + pieces[k + 1..];
    assert pieces[k + 1..] == [b] + rest;
    assert head + [a + b] + rest == head + ([a + b] + rest);
  }

  ghost predicate AllCoded(pieces: seq<Bytes>) {
    forall i :: 0 <= i < |pieces| ==> Coded(pieces[i]) && pieces[i] != []
  }

  lemma MergeStaysCoded(pieces: seq<Bytes>, k: nat)
    requires k + 1 < |pieces| && AllCoded(pieces)
    ensures AllCoded(MergeAt(pieces, k))
  {
    hide Coded;
    CodedAppend(pieces[k], pieces[k + 1]);
  }

  /** Merging keeps the text and whole codes, and ends where no adjacent pair can be merged. */
  lemma {:induction false} MergedMeaning(ranks: map<Pair, int>, pieces: seq<Bytes>)
    ensures var m := Merged(ranks, pieces);
            Concat(m) == Concat(pieces) && Unmergeable(ranks, m) && (AllCoded(pieces) ==> AllCoded(m))
    decreases |pieces|
  {
    hide Coded, Best, AllCoded, MergeAt, Unmergeable, Concat, RankAt;
    BestMeaning(ranks, pieces);
    BestRange(ranks, pieces);
    var k := Best(ranks, pieces);
    if k + 1 < |pieces| {
      MergeKeepsText(pieces, k);
      MergeShrinks(pieces, k);
      if AllCoded(pieces) { MergeStaysCoded(pieces, k); }
      MergedMeaning(ranks, MergeAt(pieces, k));
    }
  }

  /** From a to b the pieces at k and k + 1 are joined, all others stay. */
  ghost predicate Joins(a: seq<Bytes>, b: seq<Bytes>, k: nat) {
    && k + 1 < |a| && |b| == |a| - 1 && b[k] == a[k] + a[k + 1]
    && (forall i :: 0 <= i < k ==> b[i] == a[i]) && forall i :: k < i < |b| ==> b[i] == a[i + 1]
  }

  /** One merge: the leftmost pair of least rank. */
  ghost predicate MergesBest(ranks: map<Pair, int>, a: seq<Bytes>, b: seq<Bytes>) {
    exists k: nat :: IsBest(ranks, a, k) && Joins(a, b, k)
  }

  /** The piece lists a merging goes through, up to one in which no pair can be merged. */
  ghost predicate MergeTrace(ranks: map<Pair, int>, trace: seq<seq<Bytes>>, start: seq<Bytes>, end: seq<Bytes>) {
    && trace != [] && trace[0] == start && trace[|trace| - 1] == end && Unmergeable(ranks, end)
    && forall i :: 0 <= i < |trace| - 1 ==> MergesBest(ranks, trace[i], trace[i + 1])
  }

  lemma {:induction false} MergedByTrace(ranks: map<Pair, int>, pieces: seq<Bytes>) returns (trace: seq<seq<Bytes>>)
    ensures MergeTrace(ranks, trace, pieces, Merged(ranks, pieces))
    decreases |pieces|
  {
    hide Best, RankAt;
    BestMeaning(ranks, pieces);
    var k := Best(ranks, pieces);
    if k + 1 < |pieces| {
      var next := MergeAt(pieces, k);
      assert Joins(pieces, next, k) && MergesBest(ranks, pieces, next);
      var rest := MergedByTrace(ranks, next);
      trace := [pieces] + rest;
      TraceInFront(ranks, pieces, rest, Merged(ranks, pieces));
    } else {
      trace := [pieces];
    }
  }

  lemma TraceInFront(ranks: map<Pair, int>, start: seq<Bytes>, rest: seq<seq<Bytes>>, end: seq<Bytes>)
    requires rest != [] && MergeTrace(ranks, rest, rest[0], end) && MergesBest(ranks, start, rest[0])
    ensures MergeTrace(ranks, [start] + rest, start, end)
  {
    hide MergesBest, Unmergeable;
    var trace := [start] + rest;
    forall i | 0 <= i < |trace| - 1 ensures MergesBest(ranks, trace[i], trace[i + 1]) {
      if i > 0 { assert trace[i] == rest[i - 1] && trace[i + 1] == rest[i]; }
    }
  }

  /** The best pair leaves one way to go on. */
  lemma MergesOneWay(ranks: map<Pair, int>, a: seq<Bytes>, b: seq<Bytes>, c: seq<Bytes>)
    requires MergesBest(ranks, a, b) && MergesBest(ranks, a, c)
    ensures b == c && !Unmergeable(ranks, a)
  {
    hide RankAt;
    var k: nat :| IsBest(ranks, a, k) && Joins(a, b, k);
    var j: nat :| IsBest(ranks, a, j) && Joins(a, c, j);
    assert k == j;
    assert forall i :: 0 <= i < |b| ==> b[i] == c[i];
  }

  lemma TraceTail(ranks: map<Pair, int>, trace: seq<seq<Bytes>>, start: seq<Bytes>, end: seq<Bytes>)
    requires MergeTrace(ranks, trace, start, end) && |trace| > 1
    ensures MergeTrace(ranks, trace[1..], trace[1], end)
  {
    hide MergesBest, Unmergeable;
    var rest := trace[1..];
    forall i | 0 <= i < |rest| - 1 ensures MergesBest(ranks, rest[i], rest[i + 1]) {
      assert rest[i] == trace[i + 1] && rest[i + 1] == trace[i + 2];
    }
  }

  /** So there is one trace from any start. */
  lemma {:induction false} TraceIsUnique(
      ranks: map<Pair, int>, s: seq<seq<Bytes>>, t: seq<seq<Bytes>>, start: seq<Bytes>, e: seq<Bytes>, f: seq<Bytes>)
    requires MergeTrace(ranks, s, start, e) && MergeTrace(ranks, t, start, f)
    ensures s == t && e == f
    decreases |s|
  {
    hide MergesBest, Unmergeable;
    if |s| > 1 { MergesOneWay(ranks, start, s[1], s[1]); }
    if |t| > 1 { MergesOneWay(ranks, start, t[1], t[1]); }
    if |s| > 1 && |t| > 1 {
      MergesOneWay(ranks, start, s[1], t[1]);
      TraceTail(ranks, s, start, e);
      TraceTail(ranks, t, start, f);
      TraceIsUnique(ranks, s[1..], t[1..], s[1], e, f);
      assert s == [s[0]] + s[1..] && t == [t[0]] + t[1..];
    }
  }

  /** Merging ends with exactly the list that joining the leftmost pair of least rank, again and
      again while a pair can be merged, leads to. */
  lemma MergedExactly(ranks: map<Pair, int>, start: seq<Bytes>, end: seq<Bytes>)
    ensures end == Merged(ranks, start) <==> exists trace :: MergeTrace(ranks, trace, start, end)
  {
    hide MergeTrace;
    var trace := MergedByTrace(ranks, start);
    forall t | MergeTrace(ranks, t, start, end) ensures end == Merged(ranks, start) {
      TraceIsUnique(ranks, t, trace, start, end, Merged(ranks, start));
    }
  }

  method MergePieces(ranks: map<Pair, int>, start: seq<Bytes>) returns (pieces: seq<Bytes>)
    ensures pieces == Merged(ranks, start)
  {
    hide Best, MergeAt;
    pieces := start;
    while |pieces| > 1
      invariant Merged(ranks, pieces) == Merged(ranks, start)
      decreases |pieces|
    {
      var best := BestPair(ranks, pieces);
      BestRange(ranks, pieces);
      if best == |pieces| { break; }
      MergeShrinks(pieces, best);
      pieces := MergeAt(pieces, best);
    }
    BestRange(ranks, pieces);
  }

  lemma BestRange(ranks: map<Pair, int>, pieces: seq<Bytes>)
    ensures Best(ranks, pieces) == |pieces| || Best(ranks, pieces) + 1 < |pieces|
  {
  }

  lemma MergeShrinks(pieces: seq<Bytes>, k: nat)
    requires k + 1 < |pieces|
    ensures |MergeAt(pieces, k)| == |pieces| - 1
  {
  }

  // ----- encoding -----

  /** Ids, or nothing when a piece is missing from the vocabulary. */
  type Ids = Option<seq<int>>

  function Both(a: Ids, b: Ids): Ids {
    if a.Some? && b.Some? then Some(a.value + b.value) else None
  }

  lemma BothAssociates(a: Ids, b: Ids, c: Ids)
    ensures Both(Both(a, b), c) == Both(a, Both(b, c))
  {
    if a.Some? && b.Some? && c.Some? { assert a.value + b.value + c.value == a.value + (b.value + c.value); }
  }

  function PieceIds(v: Vocab, pieces: seq<Bytes>): Ids {
    if pieces == [] then Some([])
    else if pieces[0] !in v.tokenToId then None
    else Both(Some([v.tokenToId[pieces[0]]]), PieceIds(v, pieces[1..]))
  }

  function PretokenIds(v: Vocab, pre: Bytes): Ids { PieceIds(v, Merged(v.ranks, CodePieces(pre))) }

  function PretokensIds(v: Vocab, pres: seq<Bytes>): Ids {
    if pres == [] then Some([]) else Both(PretokenIds(v, pres[0]), PretokensIds(v, pres[1..]))
  }

  function SegmentIds(v: Vocab, segment: Bytes): Ids { PretokensIds(v, Cut(segment)) }

  datatype Special = Special(id: int, len: nat)

  function TokenText(v: Vocab, id: int): Bytes { if 0 <= id < |v.idToToken| then v.idToToken[id] else [] }

  /** The longest special token at pos among the first n listed; of equal ones the first. */
  function LongestSpecial(v: Vocab, text: Bytes, pos: nat, n: nat): (s: Special)
    requires n <= |v.special|
    ensures s.id >= 0 ==> 0 < s.len && s.id < |v.idToToken| && |v.idToToken[s.id]| == s.len
                          && StartsWithAt(text, pos, v.idToToken[s.id]) && s.id in v.special
    ensures s.id < 0 ==> s.len == 0
    ensures forall i :: 0 <= i < n && StartsWithAt(text, pos, TokenText(v, v.special[i])) ==>
              |TokenText(v, v.special[i])| <= s.len
  {
    if n == 0 then Special(-1, 0)
    else
      var before := LongestSpecial(v, text, pos, n - 1);
      var id := v.special[n - 1];
      var tok := TokenText(v, id);
      if StartsWithAt(text, pos, tok) && |tok| > before.len then Special(id, |tok|) else before
  }

  /** The rest of the text from pos on, with the segment collected so far. */
  function EncodedFrom(v: Vocab, text: Bytes, pos: nat, segment: Bytes): Ids
    decreases |text| - pos
  {
    if pos >= |text| then if segment == [] then Some([]) else SegmentIds(v, segment)
    else
      var s := LongestSpecial(v, text, pos, |v.special|);
      if s.id >= 0 then
        Both(if segment == [] then Some([]) else SegmentIds(v, segment),
             Both(Some([s.id]), EncodedFrom(v, text, pos + s.len, [])))
      else EncodedFrom(v, text, pos + 1, segment + [text[pos]])
  }

  function Encoded(v: Vocab, text: Bytes, addBos: bool): Ids {
    Both(Some(if addBos then [0] else []), EncodedFrom(v, text, 0, []))
  }

  method AppendPretoken(v: Vocab, bytes: seq<Bytes>, pretoken: Bytes, before: seq<int>) returns (ids: Ids)
    requires |bytes| == 256 && forall b: Byte :: bytes[b] == Code(b)
    ensures ids == Both(Some(before), PretokenIds(v, pretoken))
  {
    hide Code, Merged;
    var pieces: seq<Bytes> := [];
    for i := 0 to |pretoken|
      invariant CodePieces(pretoken) == pieces + CodePieces(pretoken[i..])
    {
      assert pretoken[i..][1..] == pretoken[i + 1..];
      pieces := pieces + [bytes[pretoken[i]]];
    }
    assert pieces + [] == pieces && pretoken[|pretoken|..] == [];
    pieces := MergePieces(v.ranks, pieces);
    var out := before;
    for i := 0 to |pieces|
      invariant Both(Some(before), PieceIds(v, pieces)) == Both(Some(out), PieceIds(v, pieces[i..]))
    {
      assert pieces[i..][1..] == pieces[i + 1..];
      if pieces[i] !in v.tokenToId { return None; }
      var id := v.tokenToId[pieces[i]];
      BothAssociates(Some(out), Some([id]), PieceIds(v, pieces[i + 1..]));
      out := out + [id];
    }
    assert out + [] == out;
    ids := Some(out);
  }

  method AppendSegment(v: Vocab, bytes: seq<Bytes>, segment: Bytes, before: seq<int>) returns (ids: Ids)
    requires |bytes| == 256 && forall b: Byte :: bytes[b] == Code(b)
    ensures ids == Both(Some(before), SegmentIds(v, segment))
  {
    hide Code, PretokenIds, Cut;
    var pres := BytelevelPretokens(segment);
    var out := before;
    for i := 0 to |pres|
      invariant Both(Some(before), PretokensIds(v, pres)) == Both(Some(out), PretokensIds(v, pres[i..]))
    {
      assert pres[i..][1..] == pres[i + 1..];
      BothAssociates(Some(out), PretokenIds(v, pres[i]), PretokensIds(v, pres[i + 1..]));
      var r := AppendPretoken(v, bytes, pres[i], out);
      if r.None? { return None; }
      out := r.value;
    }
    assert out + [] == out;
    ids := Some(out);
  }

  method LongestSpecialAt(v: Vocab, text: Bytes, pos: nat) returns (id: int, len: nat)
    ensures Special(id, len) == LongestSpecial(v, text, pos, |v.special|)
  {
    id, len := -1, 0;
    for i := 0 to |v.special|
      invariant Special(id, len) == LongestSpecial(v, text, pos, i)
    {
      var s := v.special[i];
      if s < 0 || s >= |v.idToToken| { continue; }
      var tok := v.idToToken[s];
      if tok == [] { continue; }
      if StartsWithAt(text, pos, tok) && |tok| > len { id, len := s, |tok|; }
    }
  }

  /** The segment's ids and the special id go in front of what is still to be encoded. */
  lemma SpecialStep(v: Vocab, text: Bytes, pos: nat, segment: Bytes, ids: seq<int>)
    requires pos < |text| && LongestSpecial(v, text, pos, |v.special|).id >= 0
    ensures var s := LongestSpecial(v, text, pos, |v.special|);
            var tail := EncodedFrom(v, text, pos + s.len, []);
            var a := if segment == [] then Some(ids) else Both(Some(ids), SegmentIds(v, segment));
            Both(Some(ids), EncodedFrom(v, text, pos, segment))
              == if a.Some? then Both(Some(a.value + [s.id]), tail) else None
  {
    hide SegmentIds, LongestSpecial;
    var s := LongestSpecial(v, text, pos, |v.special|);
    var tail := EncodedFrom(v, text, pos + s.len, []);
    var part := if segment == [] then Some([]) else SegmentIds(v, segment);
    BothAssociates(Some(ids), part, Both(Some([s.id]), tail));
    assert ids + [] == ids;
    BothAssociates(Both(Some(ids), part), Some([s.id]), tail);
  }

  lemma PlainStep(v: Vocab, text: Bytes, pos: nat, segment: Bytes)
    requires pos < |text| && LongestSpecial(v, text, pos, |v.special|).id < 0
    ensures EncodedFrom(v, text, pos, segment) == EncodedFrom(v, text, pos + 1, segment + [text[pos]])
  {
    hide SegmentIds, LongestSpecial;
  }

  lemma LastStep(v: Vocab, text: Bytes, pos: nat, segment: Bytes, ids: seq<int>)
    requires pos >= |text|
    ensures Both(Some(ids), EncodedFrom(v, text, pos, segment))
         == if segment == [] then Some(ids) else Both(Some(ids), SegmentIds(v, segment))
  {
    hide SegmentIds;
    assert ids + [] == ids;
  }

  method Encode(v: Vocab, text: Bytes, addBos: bool) returns (r: Ids)
    ensures r == Encoded(v, text, addBos)
  {
    hide Code, SegmentIds, LongestSpecial, EncodedFrom;
    var bytes := ByteAlphabet();
    var ids: seq<int> := if addBos then [0] else [];
    var segment: Bytes := [];
    var pos := 0;
    while pos < |text|
      invariant Encoded(v, text, addBos) == Both(Some(ids), EncodedFrom(v, text, pos, segment))
      decreases |text| - pos
    {
      var specialId, specialLen := LongestSpecialAt(v, text, pos);
      if specialId >= 0 {
        SpecialStep(v, text, pos, segment, ids);
        if segment != [] {
          var a := AppendSegment(v, bytes, segment, ids);
          if a.None? { return None; }
          ids := a.value;
          segment := [];
        }
        ids := ids + [specialId];
        pos := pos + specialLen;
      } else {
        PlainStep(v, text, pos, segment);
        segment := segment + [text[pos]];
        pos := pos + 1;
      }
    }
    LastStep(v, text, pos, segment, ids);
    r := Some(ids);
    if segment != [] { r := AppendSegment(v, bytes, segment, ids); }
  }

  // ----- what an encoding is -----

  /** A text in parts: special tokens and what stands between them. */
  datatype Part = Mark(id: int) | Run(bytes: Bytes)

  ghost predicate NoMarkAt(v: Vocab, text: Bytes, pos: nat) {
    forall i :: 0 <= i < |v.special| && TokenText(v, v.special[i]) != [] ==>
      !StartsWithAt(text, pos, TokenText(v, v.special[i]))
  }

  /** The longest special token at pos is `id`; of equal ones the first listed. */
  ghost predicate LongestMarkAt(v: Vocab, text: Bytes, pos: nat, id: int) {
    && TokenText(v, id) != [] && StartsWithAt(text, pos, TokenText(v, id))
    && exists n :: 0 <= n < |v.special| && v.special[n] == id && FirstLongest(v, text, pos, n)
  }

  ghost predicate FirstLongest(v: Vocab, text: Bytes, pos: nat, n: nat)
    requires n < |v.special|
  {
    forall i :: 0 <= i < |v.special| && StartsWithAt(text, pos, TokenText(v, v.special[i])) ==>
      if i < n then |TokenText(v, v.special[i])| < |TokenText(v, v.special[n])|
      else |TokenText(v, v.special[i])| <= |TokenText(v, v.special[n])|
  }

  /** From pos on the text consists of these parts: every special token is the longest where it stands,
      and between two of them nothing begins one. */
  ghost predicate PartsFrom(v: Vocab, text: Bytes, pos: nat, parts: seq<Part>)
    decreases |parts|
  {
    if parts == [] then pos == |text|
    else
      match parts[0]
      case Mark(id) =>
        LongestMarkAt(v, text, pos, id) && PartsFrom(v, text, pos + |TokenText(v, id)|, parts[1..])
      case Run(r) =>
        && r != [] && StartsWithAt(text, pos, r) && (forall i: nat :: pos <= i < pos + |r| ==> NoMarkAt(v, text, i))
        && (parts[1..] == [] || parts[1].Mark?) && PartsFrom(v, text, pos + |r|, parts[1..])
  }

  function PartIds(v: Vocab, parts: seq<Part>): Ids {
    if parts == [] then Some([])
    else
      Both(match parts[0] case Mark(id) => Some([id]) case Run(r) => SegmentIds(v, r), PartIds(v, parts[1..]))
  }

  lemma {:induction false} LongestIsFirst(v: Vocab, text: Bytes, pos: nat, n: nat) returns (at: nat)
    requires n <= |v.special| && LongestSpecial(v, text, pos, n).id >= 0
    ensures at < n && v.special[at] == LongestSpecial(v, text, pos, n).id
    ensures TokenText(v, v.special[at]) != [] && StartsWithAt(text, pos, TokenText(v, v.special[at]))
    ensures forall i :: 0 <= i < n && StartsWithAt(text, pos, TokenText(v, v.special[i])) ==>
              if i < at then |TokenText(v, v.special[i])| < |TokenText(v, v.special[at])|
              else |TokenText(v, v.special[i])| <= |TokenText(v, v.special[at])|
  {
    var before := LongestSpecial(v, text, pos, n - 1);
    var tok := TokenText(v, v.special[n - 1]);
    if StartsWithAt(text, pos, tok) && |tok| > before.len {
      at := n - 1;
    } else {
      at := LongestIsFirst(v, text, pos, n - 1);
    }
  }

  lemma SpecialIsMark(v: Vocab, text: Bytes, pos: nat)
    ensures var s := LongestSpecial(v, text, pos, |v.special|);
            if s.id >= 0 then LongestMarkAt(v, text, pos, s.id) && s.len == |TokenText(v, s.id)|
            else NoMarkAt(v, text, pos)
  {
    if LongestSpecial(v, text, pos, |v.special|).id >= 0 {
      var at := LongestIsFirst(v, text, pos, |v.special|);
      assert FirstLongest(v, text, pos, at);
    }
  }

  lemma ExtendSegment(text: Bytes, pos: nat, segment: Bytes)
    requires |segment| <= pos < |text| && text[pos - |segment|..pos] == segment
    ensures var longer := segment + [text[pos]];
            text[pos + 1 - |longer|..pos + 1] == longer && longer + text[pos + 1..] == segment + text[pos..]
  {
  }

  lemma {:induction false} EncodesParts(v: Vocab, text: Bytes, pos: nat, segment: Bytes) returns (parts: seq<Part>)
    requires |segment| <= pos <= |text| && text[pos - |segment|..pos] == segment
    requires forall i: nat :: pos - |segment| <= i < pos ==> NoMarkAt(v, text, i)
    ensures PartsFrom(v, text, pos - |segment|, parts) && EncodedFrom(v, text, pos, segment) == PartIds(v, parts)
    decreases |text| - pos
  {
    hide SegmentIds, LongestSpecial, LongestMarkAt, NoMarkAt, TokenText;
    if pos == |text| {
      parts := if segment == [] then [] else [Run(segment)];
      NothingBehind(v, parts);
    } else {
      SpecialIsMark(v, text, pos);
      var s := LongestSpecial(v, text, pos, |v.special|);
      if s.id >= 0 {
        MarkFits(v, text, pos, s.id);
        var rest := EncodesParts(v, text, pos + s.len, []);
        parts := [Mark(s.id)] + rest;
        assert parts[1..] == rest;
        if segment != [] {
          assert ([Run(segment)] + parts)[1..] == parts;
          parts := [Run(segment)] + parts;
        } else {
          EmptyInFront(PartIds(v, parts));
        }
      } else {
        ExtendSegment(text, pos, segment);
        parts := EncodesParts(v, text, pos + 1, segment + [text[pos]]);
      }
    }
  }

  lemma MarkFits(v: Vocab, text: Bytes, pos: nat, id: int)
    requires LongestMarkAt(v, text, pos, id)
    ensures pos + |TokenText(v, id)| <= |text|
  {
  }

  lemma EmptyInFront(ids: Ids)
    ensures Both(Some([]), ids) == ids
  {
    if ids.Some? { assert [] + ids.value == ids.value; }
  }

  lemma NothingBehind(v: Vocab, parts: seq<Part>)
    requires |parts| <= 1 && (parts != [] ==> parts[0].Run?)
    ensures PartIds(v, parts) == if parts == [] then Some([]) else SegmentIds(v, parts[0].bytes)
  {
    if parts != [] {
      var ids := SegmentIds(v, parts[0].bytes);
      assert parts[1..] == [];
      if ids.Some? { assert ids.value + [] == ids.value; }
    }
  }

  /** A text has one way of being cut into parts. */
  lemma {:induction false} PartsAreUnique(v: Vocab, text: Bytes, pos: nat, a: seq<Part>, b: seq<Part>)
    requires PartsFrom(v, text, pos, a) && PartsFrom(v, text, pos, b)
    ensures a == b
    decreases |a|
  {
    hide LongestMarkAt, NoMarkAt, TokenText, StartsWithAt;
    PartsFit(v, text, pos, a);
    PartsFit(v, text, pos, b);
    if a != [] && b != [] {
      if a[0].Mark? && b[0].Mark? { OneLongestMark(v, text, pos, a[0].id, b[0].id); }
      if a[0].Mark? && b[0].Run? { MarkOrNone(v, text, pos, a[0].id); }
      if a[0].Run? && b[0].Mark? { MarkOrNone(v, text, pos, b[0].id); }
      if a[0].Run? && b[0].Run? { RunsEndTogether(v, text, pos, a, b); }
      PartsAreUnique(v, text, if a[0].Mark? then pos + |TokenText(v, a[0].id)| else pos + |a[0].bytes|, a[1..], b[1..]);
      assert a == [a[0]] + a[1..] && b == [b[0]] + b[1..];
    }
  }

  lemma PartsFit(v: Vocab, text: Bytes, pos: nat, parts: seq<Part>)
    requires PartsFrom(v, text, pos, parts)
    ensures parts != [] ==> pos < |text|
    ensures parts == [] ==> pos == |text|
  {
  }

  lemma OneLongestMark(v: Vocab, text: Bytes, pos: nat, a: int, b: int)
    requires LongestMarkAt(v, text, pos, a) && LongestMarkAt(v, text, pos, b)
    ensures a == b
  {
    var m :| 0 <= m < |v.special| && v.special[m] == a && FirstLongest(v, text, pos, m);
    var n :| 0 <= n < |v.special| && v.special[n] == b && FirstLongest(v, text, pos, n);
  }

  lemma MarkOrNone(v: Vocab, text: Bytes, pos: nat, id: int)
    requires LongestMarkAt(v, text, pos, id)
    ensures !NoMarkAt(v, text, pos)
  {
  }

  /** What stands between special tokens ends where the next one begins. */
  lemma RunsEndTogether(v: Vocab, text: Bytes, pos: nat, a: seq<Part>, b: seq<Part>)
    requires PartsFrom(v, text, pos, a) && PartsFrom(v, text, pos, b)
    requires a != [] && b != [] && a[0].Run? && b[0].Run?
    ensures a[0] == b[0]
  {
    hide LongestMarkAt, NoMarkAt, TokenText;
    var i, j := pos + |a[0].bytes|, pos + |b[0].bytes|;
    if i < j && a[1..] != [] { MarkOrNone(v, text, i, a[1].id); }
    if j < i && b[1..] != [] { MarkOrNone(v, text, j, b[1].id); }
    assert a[0].bytes == text[pos..i] && b[0].bytes == text[pos..j];
  }

  /** An encoding is, behind the begin token if one is asked for, the ids of the text's parts: of the
      special tokens, the longest where they stand, and of what stands between them. */
  lemma EncodedExactly(v: Vocab, text: Bytes, addBos: bool, r: Ids)
    ensures r == Encoded(v, text, addBos)
       <==> exists parts ::
              PartsFrom(v, text, 0, parts) && r == Both(Some(if addBos then [0] else []), PartIds(v, parts))
  {
    hide PartsFrom, PartIds;
    var parts := EncodesParts(v, text, 0, []);
    forall other | PartsFrom(v, text, 0, other) ensures other == parts { PartsAreUnique(v, text, 0, other, parts); }
  }

  /** All pieces the pretokens are merged to, in order. */
  function EndPieces(v: Vocab, pres: seq<Bytes>): seq<Bytes> {
    if pres == [] then [] else Merged(v.ranks, CodePieces(pres[0])) + EndPieces(v, pres[1..])
  }

  /** The ids of a list of pieces, if the vocabulary has them all. */
  ghost predicate IdsOf(v: Vocab, pieces: seq<Bytes>, ids: Ids) {
    if forall i :: 0 <= i < |pieces| ==> pieces[i] in v.tokenToId then
      ids.Some? && |ids.value| == |pieces| && forall i :: 0 <= i < |pieces| ==> ids.value[i] == v.tokenToId[pieces[i]]
    else ids.None?
  }

  lemma {:induction false} PieceIdsAre(v: Vocab, pieces: seq<Bytes>)
    ensures IdsOf(v, pieces, PieceIds(v, pieces))
    decreases |pieces|
  {
    if pieces != [] {
      PieceIdsAre(v, pieces[1..]);
      assert pieces == [pieces[0]] + pieces[1..];
      if i :| 0 <= i < |pieces| && pieces[i] !in v.tokenToId { assert i > 0 ==> pieces[1..][i - 1] !in v.tokenToId; }
    }
  }

  lemma IdsOfBoth(v: Vocab, a: seq<Bytes>, b: seq<Bytes>, x: Ids, y: Ids)
    requires IdsOf(v, a, x) && IdsOf(v, b, y)
    ensures IdsOf(v, a + b, Both(x, y))
  {
    if i :| 0 <= i < |a| && a[i] !in v.tokenToId { assert (a + b)[i] == a[i]; }
    if i :| 0 <= i < |b| && b[i] !in v.tokenToId { assert (a + b)[|a| + i] == b[i]; }
  }

  /** A segment is encoded to the ids of the pieces its pretokens are merged to, in order, and fails
      exactly when the vocabulary lacks one of them. */
  lemma {:induction false} SegmentIdsAre(v: Vocab, pres: seq<Bytes>)
    ensures IdsOf(v, EndPieces(v, pres), PretokensIds(v, pres))
    decreases |pres|
  {
    hide IdsOf, Merged, PieceIds;
    if pres == [] {
      NoPieces(v);
    } else {
      var pieces := Merged(v.ranks, CodePieces(pres[0]));
      PieceIdsAre(v, pieces);
      SegmentIdsAre(v, pres[1..]);
      IdsOfBoth(v, pieces, EndPieces(v, pres[1..]), PretokenIds(v, pres[0]), PretokensIds(v, pres[1..]));
    }
  }

  lemma NoPieces(v: Vocab)
    ensures IdsOf(v, [], Some([]))
  {
  }

  // ----- decoding -----

  const INVALID: Bytes := ['<' as int, 'i' as int, 'n' as int, 'v' as int, 'a' as int, 'l' as int, 'i' as int,
    'd' as int, '>' as int]
  const EMPTY: Bytes := ['<' as int, 'e' as int, 'm' as int, 'p' as int, 't' as int, 'y' as int, '>' as int]

  function Token(v: Vocab, id: int): Bytes {
    if id < 0 || id >= |v.idToToken| then INVALID
    else if v.idToToken[id] == [] then EMPTY
    else v.idToToken[id]
  }

  predicate Skips(v: Vocab, id: int, skipSpecial: bool) {
    var p := Token(v, id);
    skipSpecial && ((id >= 0 && id in v.special) || (|p| >= 2 && p[0] == '<' as int && p[|p| - 1] == '>' as int))
  }

  ghost function DecodedIds(v: Vocab, ids: seq<int>, skipSpecial: bool): Bytes {
    if ids == [] then []
    else
      (if Skips(v, ids[0], skipSpecial) then [] else Decoded(Token(v, ids[0])))
      + DecodedIds(v, ids[1..], skipSpecial)
  }

  lemma NothingDecodes(v: Vocab, skipSpecial: bool)
    ensures DecodedIds(v, [], skipSpecial) == []
  {
  }

  lemma DecodesOneMore(v: Vocab, ids: seq<int>, i: nat, skipSpecial: bool, out: Bytes)
    requires i < |ids|
    ensures out + DecodedIds(v, ids[i..], skipSpecial)
         == out + (if Skips(v, ids[i], skipSpecial) then [] else Decoded(Token(v, ids[i])))
            + DecodedIds(v, ids[i + 1..], skipSpecial)
  {
    hide Decoded, Token, Skips;
    assert ids[i..][1..] == ids[i + 1..];
    var one := if Skips(v, ids[i], skipSpecial) then [] else Decoded(Token(v, ids[i]));
    var rest := DecodedIds(v, ids[i + 1..], skipSpecial);
    assert DecodedIds(v, ids[i..], skipSpecial) == one + rest;
    hide DecodedIds;
    assert out + (one + rest) == out + one + rest;
  }

  method DecodeTokens(v: Vocab, ids: seq<int>, skipSpecial: bool, order: seq<Byte>) returns (out: Bytes)
    requires forall b: Byte :: b in order
    ensures out == DecodedIds(v, ids, skipSpecial)
  {
    NothingDecodes(v, skipSpecial);
    hide Decoded, Token, Skips, DecodedIds;
    out := [];
    assert ids[0..] == ids && [] + DecodedIds(v, ids, skipSpecial) == DecodedIds(v, ids, skipSpecial);
    for i := 0 to |ids|
      invariant DecodedIds(v, ids, skipSpecial) == out + DecodedIds(v, ids[i..], skipSpecial)
    {
      DecodesOneMore(v, ids, i, skipSpecial, out);
      if !Skips(v, ids[i], skipSpecial) {
        var piece := DecodePiece(Token(v, ids[i]), order);
        out := out + piece;
      } else {
        assert out + [] == out;
      }
    }
    assert ids[|ids|..] == [] && out + [] == out;
  }

  lemma {:induction false} DecodedIdsAppend(v: Vocab, a: seq<int>, b: seq<int>, skip: bool)
    ensures DecodedIds(v, a + b, skip) == DecodedIds(v, a, skip) + DecodedIds(v, b, skip)
    decreases |a|
  {
    hide Decoded, Token, Skips;
    if a == [] {
      assert a + b == b;
    } else {
      assert (a + b)[1..] == a[1..] + b;
      DecodedIdsAppend(v, a[1..], b, skip);
    }
  }

  /** A text in angle brackets. */
  predicate Bracketed(t: Bytes) { |t| >= 2 && t[0] == '<' as int && t[|t| - 1] == '>' as int }

  /** Tokens that decoding shows although special ones are skipped: of the vocabulary, not special, with
      a text, and that not in brackets. */
  predicate Shown(v: Vocab, id: int) {
    0 <= id < |v.idToToken| && id !in v.special && v.idToToken[id] != [] && !Bracketed(v.idToToken[id])
  }

  /** The text of an id with placeholders for ids that have none. */
  function TextOrPlaceholder(v: Vocab, id: int): Bytes {
    if TokenText(v, id) != [] then TokenText(v, id)
    else if 0 <= id < |v.idToToken| then Ascii("<empty>")
    else Ascii("<invalid>")
  }

  function Ascii(s: string): Bytes {
    seq(|s|, i requires 0 <= i < |s| => if s[i] as int < 128 then s[i] as int else 0)
  }

  ghost function Contribution(v: Vocab, id: int, skipSpecial: bool): Bytes {
    if !skipSpecial then Decoded(TextOrPlaceholder(v, id))
    else if Shown(v, id) then Decoded(v.idToToken[id])
    else []
  }

  /** Decoding puts the tokens' own texts together; with special tokens skipped, those of the ids that
      are shown, and nothing for any other id. */
  lemma {:induction false} DecodesEach(v: Vocab, ids: seq<int>, skipSpecial: bool)
    ensures DecodedIds(v, ids, skipSpecial)
         == Concat(seq(|ids|, i requires 0 <= i < |ids| => Contribution(v, ids[i], skipSpecial)))
    decreases |ids|
  {
    var parts := seq(|ids|, i requires 0 <= i < |ids| => Contribution(v, ids[i], skipSpecial));
    if ids != [] {
      DecodesEach(v, ids[1..], skipSpecial);
      assert parts[1..] == seq(|ids[1..]|, i requires 0 <= i < |ids[1..]| => Contribution(v, ids[1..][i], skipSpecial));
      OneContribution(v, ids[0], skipSpecial);
    }
  }

  lemma OneContribution(v: Vocab, id: int, skipSpecial: bool)
    ensures (if Skips(v, id, skipSpecial) then [] else Decoded(Token(v, id))) == Contribution(v, id, skipSpecial)
  {
    hide Decoded;
    assert INVALID == Ascii("<invalid>") && EMPTY == Ascii("<empty>");
    assert Bracketed(INVALID) && Bracketed(EMPTY);
    DecodedNothing();
  }

  // ----- the round trip -----

  /** Every id a token is given stands for that token. */
  predicate Consistent(v: Vocab) {
    forall t :: t in v.tokenToId ==> var id := v.tokenToId[t]; 0 <= id < |v.idToToken| && v.idToToken[id] == t
  }

  /** The special tokens that stand in the text mean themselves: no part of theirs is a byte code of
      another byte. Nothing is asked of a vocabulary whose special tokens do not occur. */
  ghost predicate SpecialsArePlain(v: Vocab, text: Bytes) {
    forall i, pos: nat :: 0 <= i < |v.special| && StartsWithAt(text, pos, TokenText(v, v.special[i])) ==>
      Decoded(TokenText(v, v.special[i])) == TokenText(v, v.special[i])
  }

  lemma DecodedId(v: Vocab, id: int)
    ensures DecodedIds(v, [id], false) == Decoded(Token(v, id))
  {
    assert DecodedIds(v, [id][1..], false) == [];
    assert Decoded(Token(v, id)) + [] == Decoded(Token(v, id));
  }

  lemma {:induction false} DecodesPieces(v: Vocab, pieces: seq<Bytes>)
    requires Consistent(v) && AllCoded(pieces) && PieceIds(v, pieces).Some?
    ensures DecodedIds(v, PieceIds(v, pieces).value, false) == Decoded(Concat(pieces))
    decreases |pieces|
  {
    hide Decoded, Coded;
    if pieces == [] {
      DecodedNothing();
    } else {
      var id := v.tokenToId[pieces[0]];
      assert Coded(pieces[0]);
      DecodesPieces(v, pieces[1..]);
      DecodedIdsAppend(v, [id], PieceIds(v, pieces[1..]).value, false);
      DecodedId(v, id);
      CodedAppend(pieces[0], Concat(pieces[1..]));
    }
  }

  lemma {:induction false} CodePiecesAreCoded(x: Bytes)
    ensures AllCoded(CodePieces(x))
    decreases |x|
  {
    hide Code, Coded;
    if x != [] {
      OneCode(x[0]);
      CodePiecesAreCoded(x[1..]);
      assert forall i :: 1 <= i < |CodePieces(x)| ==> CodePieces(x)[i] == CodePieces(x[1..])[i - 1];
    }
  }

  lemma OneCode(b: Byte)
    ensures Coded(Code(b)) && Code(b) != []
  {
    hide Code, Coded;
    CodesStep([b]);
    NoCodes();
    assert [b][1..] == [];
    assert Code(b) + [] == Code(b);
    CodesAreCoded([b]);
    CodeNotEmpty(b);
  }

  lemma DecodesPretoken(v: Vocab, pre: Bytes)
    requires Consistent(v) && PretokenIds(v, pre).Some?
    ensures DecodedIds(v, PretokenIds(v, pre).value, false) == pre
  {
    hide DecodedIds, Merged, AllCoded;
    CodePiecesAreCoded(pre);
    MergedMeaning(v.ranks, CodePieces(pre));
    DecodesPieces(v, Merged(v.ranks, CodePieces(pre)));
    CodesAreCoded(pre);
  }

  lemma {:induction false} DecodesPretokens(v: Vocab, pres: seq<Bytes>)
    requires Consistent(v) && PretokensIds(v, pres).Some?
    ensures DecodedIds(v, PretokensIds(v, pres).value, false) == Concat(pres)
    decreases |pres|
  {
    hide Decoded, PretokenIds, Consistent;
    if pres != [] {
      DecodesPretoken(v, pres[0]);
      DecodesPretokens(v, pres[1..]);
      DecodedIdsAppend(v, PretokenIds(v, pres[0]).value, PretokensIds(v, pres[1..]).value, false);
    }
  }

  lemma {:induction false} DecodesFrom(v: Vocab, text: Bytes, pos: nat, segment: Bytes)
    requires Consistent(v) && SpecialsArePlain(v, text) && !Stranded(text)
    requires |segment| <= pos <= |text| && text[pos - |segment|..pos] == segment
    requires EncodedFrom(v, text, pos, segment).Some?
    ensures DecodedIds(v, EncodedFrom(v, text, pos, segment).value, false) == segment + text[pos..]
    decreases |text| - pos
  {
    hide Decoded, SegmentIds, Consistent, SpecialsArePlain, Stranded, LongestSpecial, DecodedIds;
    if pos == |text| {
      DecodesSegment(v, text, pos, segment);
      assert segment + [] == segment;
    } else {
      var s := LongestSpecial(v, text, pos, |v.special|);
      if s.id >= 0 {
        DecodesSegment(v, text, pos, segment);
        SpecialDecodes(v, text, pos);
        DecodesFrom(v, text, pos + s.len, []);
        var before := if segment == [] then [] else SegmentIds(v, segment).value;
        DecodesJoined(v, before, s.id, EncodedFrom(v, text, pos + s.len, []).value);
        assert text[pos..] == text[pos..pos + s.len] + ([] + text[pos + s.len..]);
      } else {
        ExtendSegment(text, pos, segment);
        DecodesFrom(v, text, pos + 1, segment + [text[pos]]);
      }
    }
  }

  lemma DecodesJoined(v: Vocab, a: seq<int>, id: int, b: seq<int>)
    ensures DecodedIds(v, a + ([id] + b), false)
            == DecodedIds(v, a, false) + (DecodedIds(v, [id], false) + DecodedIds(v, b, false))
  {
    DecodedIdsAppend(v, [id], b, false);
    DecodedIdsAppend(v, a, [id] + b, false);
  }

  lemma DecodesSegment(v: Vocab, text: Bytes, pos: nat, segment: Bytes)
    requires Consistent(v) && !Stranded(text)
    requires |segment| <= pos <= |text| && text[pos - |segment|..pos] == segment
    requires segment != [] ==> SegmentIds(v, segment).Some?
    ensures DecodedIds(v, if segment == [] then [] else SegmentIds(v, segment).value, false) == segment
  {
    hide Cut, Consistent;
    if segment != [] {
      forall i ensures !StrandedAt(segment, i) {
        assert !StrandedAt(text, pos - |segment| + i);
      }
      PretokensKeepExactly(segment);
      DecodesPretokens(v, Cut(segment));
    }
  }

  lemma SpecialDecodes(v: Vocab, text: Bytes, pos: nat)
    requires SpecialsArePlain(v, text) && LongestSpecial(v, text, pos, |v.special|).id >= 0
    ensures var s := LongestSpecial(v, text, pos, |v.special|);
            pos + s.len <= |text| && DecodedIds(v, [s.id], false) == text[pos..pos + s.len]
  {
    hide Decoded;
    var s := LongestSpecial(v, text, pos, |v.special|);
    DecodedId(v, s.id);
    var i :| 0 <= i < |v.special| && v.special[i] == s.id;
    assert StartsWithAt(text, pos, TokenText(v, v.special[i]));
    assert Decoded(TokenText(v, v.special[i])) == TokenText(v, v.special[i]);
  }

  /** For every text without a stranded space: when encoding succeeds, decoding the ids without
      skipping gives the text back, behind the text of the begin token if one was asked for. */
  lemma RoundTrip(v: Vocab, text: Bytes, addBos: bool)
    requires Consistent(v) && SpecialsArePlain(v, text) && !Stranded(text) && Encoded(v, text, addBos).Some?
    ensures DecodedIds(v, Encoded(v, text, addBos).value, false)
         == (if addBos then Decoded(Token(v, 0)) else []) + text
  {
    hide Decoded, Consistent, SpecialsArePlain, Stranded, Token, DecodedIds;
    DecodesFrom(v, text, 0, []);
    var ids := EncodedFrom(v, text, 0, []).value;
    assert [] + text[0..] == text;
    DecodedIdsAppend(v, if addBos then [0] else [], ids, false);
    DecodedId(v, 0);
    NoIds(v);
  }

  lemma NoIds(v: Vocab)
    ensures DecodedIds(v, [], false) == []
  {
  }

  /** Without special tokens in it the whole text is one segment. */
  lemma {:induction false} OneSegment(v: Vocab, text: Bytes, pos: nat)
    requires NoSpecials(v, text) && pos <= |text|
    ensures EncodedFrom(v, text, pos, text[..pos]) == if text == [] then Some([]) else SegmentIds(v, text)
    decreases |text| - pos
  {
    hide SegmentIds, LongestSpecial;
    if pos < |text| {
      NoneIsLongest(v, text, pos);
      assert text[..pos] + [text[pos]] == text[..pos + 1];
      OneSegment(v, text, pos + 1);
    } else {
      assert text[..pos] == text;
    }
  }

  /** No special token occurs in the text. */
  ghost predicate NoSpecials(v: Vocab, text: Bytes) {
    forall i, pos: nat :: 0 <= i < |v.special| && TokenText(v, v.special[i]) != [] ==>
      !StartsWithAt(text, pos, TokenText(v, v.special[i]))
  }

  lemma NoneIsLongest(v: Vocab, text: Bytes, pos: nat)
    requires NoSpecials(v, text)
    ensures LongestSpecial(v, text, pos, |v.special|).id < 0
  {
  }

  /** For text made of whole UTF-8 characters with no special token in it, decoding gives back what
      was encoded if and only if no space stands directly before another whitespace byte. */
  lemma RoundTripExactly(v: Vocab, text: Bytes)
    requires Consistent(v) && NoSpecials(v, text) && WholeChars(text) && Encoded(v, text, false).Some?
    ensures DecodedIds(v, Encoded(v, text, false).value, false) == text <==> !Stranded(text)
  {
    hide DecodedIds, Consistent, NoSpecials, WholeChars, Cut;
    OneSegment(v, text, 0);
    var ids := EncodedFrom(v, text, 0, text[..0]).value;
    assert text[..0] == [] && [] + ids == ids;
    PretokensKeepExactly(text);
    if text == [] { NoIds(v); } else { DecodesPretokens(v, Cut(text)); }
  }

  ghost predicate AllShown(v: Vocab, ids: seq<int>) { forall i :: 0 <= i < |ids| ==> Shown(v, ids[i]) }

  /** Skipping leaves out nothing but what is not shown. */
  lemma {:induction false} ShowsAll(v: Vocab, ids: seq<int>)
    ensures AllShown(v, ids) ==> DecodedIds(v, ids, true) == DecodedIds(v, ids, false)
    ensures |DecodedIds(v, ids, true)| <= |DecodedIds(v, ids, false)|
    decreases |ids|
  {
    hide Decoded, Shown, Skips, Token;
    if ids != [] {
      ShownIsKept(v, ids[0]);
      ShowsAll(v, ids[1..]);
      assert AllShown(v, ids) ==> AllShown(v, ids[1..]);
    }
  }

  lemma ShownIsKept(v: Vocab, id: int)
    ensures Shown(v, id) ==> !Skips(v, id, true)
    ensures !Skips(v, id, false)
  {
    assert Bracketed(INVALID) && Bracketed(EMPTY);
  }

  lemma {:induction false} HidesSome(v: Vocab, ids: seq<int>, i: nat)
    requires i < |ids| && !Shown(v, ids[i]) && Decoded(Token(v, ids[i])) != []
    ensures |DecodedIds(v, ids, true)| < |DecodedIds(v, ids, false)|
    decreases |ids|
  {
    OneContribution(v, ids[0], true);
    ShowsAll(v, ids[1..]);
    if i > 0 { HidesSome(v, ids[1..], i - 1); }
  }

  lemma {:induction false} EndPiecesAreCoded(v: Vocab, pres: seq<Bytes>)
    ensures AllCoded(EndPieces(v, pres))
    decreases |pres|
  {
    hide Coded, Merged;
    if pres != [] {
      CodePiecesAreCoded(pres[0]);
      MergedMeaning(v.ranks, CodePieces(pres[0]));
      EndPiecesAreCoded(v, pres[1..]);
    }
  }

  /** Every id of an encoded segment stands for at least one byte. */
  lemma IdsHaveText(v: Vocab, pres: seq<Bytes>, i: nat)
    requires Consistent(v) && PretokensIds(v, pres).Some? && i < |PretokensIds(v, pres).value|
    ensures Decoded(Token(v, PretokensIds(v, pres).value[i])) != []
  {
    hide Merged, Coded, PretokensIds;
    SegmentIdsAre(v, pres);
    EndPiecesAreCoded(v, pres);
    var piece := EndPieces(v, pres)[i];
    assert piece in v.tokenToId && Token(v, v.tokenToId[piece]) == piece;
    CodedHasText(piece);
  }

  lemma CodedHasText(p: Bytes)
    requires Coded(p) && p != []
    ensures Decoded(p) != []
  {
    hide Decoded;
    var x :| Codes(x) == p;
    if x == [] { NoCodes(); }
    CodesAreCoded(x);
  }

  /** With special tokens skipped: text made of whole UTF-8 characters with no special token in it comes
      back, behind the begin token only if that is shown, if and only if no space stands directly
      before another whitespace byte and every token it was encoded to is shown. */
  lemma RoundTripSkippingExactly(v: Vocab, text: Bytes, addBos: bool)
    requires Consistent(v) && NoSpecials(v, text) && WholeChars(text) && Encoded(v, text, false).Some?
    ensures Encoded(v, text, addBos).Some?
    ensures DecodedIds(v, Encoded(v, text, addBos).value, true)
         == (if addBos && Shown(v, 0) then Decoded(v.idToToken[0]) else []) + text
       <==> !Stranded(text) && AllShown(v, Encoded(v, text, false).value)
  {
    hide Consistent, NoSpecials, WholeChars, Stranded, Decoded, AllShown;
    var ids := EncodedFrom(v, text, 0, []).value;
    assert [] + ids == ids;
    BeginTokenDecodes(v, addBos, ids);
    SkippingSegment(v, text);
    var y, bos := DecodedIds(v, ids, true), if addBos && Shown(v, 0) then Decoded(v.idToToken[0]) else [];
    assert (bos + y)[|bos|..] == y && (bos + text)[|bos|..] == text;
  }

  lemma BeginTokenDecodes(v: Vocab, addBos: bool, ids: seq<int>)
    ensures DecodedIds(v, (if addBos then [0] else []) + ids, true)
         == (if addBos && Shown(v, 0) then Decoded(v.idToToken[0]) else []) + DecodedIds(v, ids, true)
  {
    hide Decoded, Shown, Skips, Token;
    DecodedIdsAppend(v, if addBos then [0] else [], ids, true);
    NoIds(v);
    OneContribution(v, 0, true);
    assert DecodedIds(v, [0][1..], true) == [];
    assert Contribution(v, 0, true) + [] == Contribution(v, 0, true);
  }

  lemma SkippingSegment(v: Vocab, text: Bytes)
    requires Consistent(v) && NoSpecials(v, text) && WholeChars(text) && EncodedFrom(v, text, 0, []).Some?
    ensures var ids := EncodedFrom(v, text, 0, []).value;
            DecodedIds(v, ids, true) == text <==> !Stranded(text) && AllShown(v, ids)
  {
    hide Consistent, NoSpecials, WholeChars, Stranded, Decoded, Shown, DecodedIds, Cut;
    OneSegment(v, text, 0);
    assert text[..0] == [];
    var ids := EncodedFrom(v, text, 0, []).value;
    PretokensKeepExactly(text);
    CutAddsNothing(text);
    ShowsAll(v, ids);
    if text == [] {
      NoIds(v);
      NothingStranded();
    } else {
      DecodesPretokens(v, Cut(text));
      if !AllShown(v, ids) {
        var i :| 0 <= i < |ids| && !Shown(v, ids[i]);
        IdsHaveText(v, Cut(text), i);
        HidesSome(v, ids, i);
      }
    }
  }

  lemma NothingStranded()
    ensures !Stranded([])
  {
  }

  /** The text of the parts without the special tokens. */
  function WithoutMarks(parts: seq<Part>): Bytes {
    if parts == [] then [] else (if parts[0].Run? then parts[0].bytes else []) + WithoutMarks(parts[1..])
  }

  /** Every token of what stands between special tokens is shown. */
  ghost predicate RunsShown(v: Vocab, parts: seq<Part>)
    requires PartIds(v, parts).Some?
  {
    parts == [] ||
    ((parts[0].Run? ==> AllShown(v, SegmentIds(v, parts[0].bytes).value)) && RunsShown(v, parts[1..]))
  }

  /** Decoding with special tokens skipped gives back the text without its special tokens. */
  lemma {:induction false} SkipsMarks(v: Vocab, text: Bytes, pos: nat, parts: seq<Part>)
    requires Consistent(v) && !Stranded(text) && PartsFrom(v, text, pos, parts)
    requires PartIds(v, parts).Some? && RunsShown(v, parts)
    ensures DecodedIds(v, PartIds(v, parts).value, true) == WithoutMarks(parts)
    decreases |parts|
  {
    hide Consistent, Stranded, LongestMarkAt, NoMarkAt, TokenText, Shown, Decoded, DecodedIds, SegmentIds;
    if parts == [] {
      OnlyNothing(v);
    } else {
      SkipsMarks(v, text,
        if parts[0].Mark? then pos + |TokenText(v, parts[0].id)| else pos + |parts[0].bytes|, parts[1..]);
      var rest := PartIds(v, parts[1..]).value;
      match parts[0] {
        case Mark(id) =>
          MarkIsHidden(v, text, pos, id);
          DecodedIdsAppend(v, [id], rest, true);
          assert [] + WithoutMarks(parts[1..]) == WithoutMarks(parts[1..]);
        case Run(r) =>
          var ids := SegmentIds(v, r).value;
          DecodedIdsAppend(v, ids, rest, true);
          ShowsAll(v, ids);
          assert text[pos + |r| - |r|..pos + |r|] == r;
          DecodesSegment(v, text, pos + |r|, r);
      }
    }
  }

  lemma OnlyNothing(v: Vocab)
    ensures DecodedIds(v, [], true) == []
  {
  }

  lemma MarkIsHidden(v: Vocab, text: Bytes, pos: nat, id: int)
    requires LongestMarkAt(v, text, pos, id)
    ensures DecodedIds(v, [id], true) == []
  {
    OneContribution(v, id, true);
    assert DecodedIds(v, [id][1..], true) == [];
  }

  // ----- a vocabulary from GGUF metadata -----

  predicate HasSpace(merge: Bytes) { exists i :: 0 <= i < |merge| && merge[i] == SP }

  /** A merge rule is two pieces around its first space. */
  function SplitMerge(merge: Bytes): (p: Pair)
    requires HasSpace(merge)
    ensures p.left + [SP] + p.right == merge && SP !in p.left
  {
    var pos := FirstSpace(merge);
    Pair(merge[..pos], merge[pos + 1..])
  }

  function FirstSpace(merge: Bytes): (pos: nat)
    requires HasSpace(merge)
    ensures pos < |merge| && merge[pos] == SP && SP !in merge[..pos]
  {
    if merge[0] == SP then 0
    else
      assert HasSpace(merge[1..]) by { var i :| 0 <= i < |merge| && merge[i] == SP; assert merge[1..][i - 1] == SP; }
      assert merge[..1 + FirstSpace(merge[1..])] == [merge[0]] + merge[1..][..FirstSpace(merge[1..])];
      1 + FirstSpace(merge[1..])
  }

  /** Of equal rules the last one counts. */
  ghost predicate RanksOf(ranks: map<Pair, int>, merges: seq<Bytes>)
    requires forall i :: 0 <= i < |merges| ==> HasSpace(merges[i])
  {
    && (forall i :: 0 <= i < |merges| ==> SplitMerge(merges[i]) in ranks && ranks[SplitMerge(merges[i])] >= i)
    && forall p :: p in ranks ==> 0 <= ranks[p] < |merges| && SplitMerge(merges[ranks[p]]) == p
  }

  method ReadMerges(merges: seq<Bytes>) returns (ranks: Option<map<Pair, int>>)
    ensures ranks.None? <==> exists i :: 0 <= i < |merges| && !HasSpace(merges[i])
    ensures ranks.Some? ==> RanksOf(ranks.value, merges)
  {
    var table: map<Pair, int> := map[];
    var rank := 0;
    while rank < |merges|
      invariant 0 <= rank <= |merges| && (forall i :: 0 <= i < rank ==> HasSpace(merges[i]))
      invariant RanksOf(table, merges[..rank])
    {
      if !HasSpace(merges[rank]) { return None; }
      assert merges[..rank + 1] == merges[..rank] + [merges[rank]];
      table := table[SplitMerge(merges[rank]) := rank];
      rank := rank + 1;
    }
    assert merges[..rank] == merges;
    ranks := Some(table);
  }

  /** A later token takes over the id of an equal earlier one, so ids are consistent. Ids and ranks
      are 32-bit ints, which the numbers of tokens and merges are taken to fit. */
  method FromGguf(tokens: seq<Bytes>, merges: seq<Bytes>, types: seq<int>) returns (v: Option<Vocab>)
    ensures v.None? <==> |tokens| != |types| || exists i :: 0 <= i < |merges| && !HasSpace(merges[i])
    ensures v.Some? ==> Consistent(v.value) && v.value.idToToken == tokens && RanksOf(v.value.ranks, merges)
    ensures v.Some? ==> forall t :: t in v.value.tokenToId <==> t in tokens
    ensures v.Some? ==> forall id :: id in v.value.special <==> 0 <= id < |tokens| && types[id] != 1
  {
    if |tokens| != |types| { return None; }
    var toId: map<Bytes, int> := map[];
    var special: seq<int> := [];
    for i := 0 to |tokens|
      invariant forall t :: t in toId ==> 0 <= toId[t] < i && tokens[toId[t]] == t
      invariant forall t :: t in toId <==> t in tokens[..i]
      invariant forall id :: id in special <==> 0 <= id < i && types[id] != 1
    {
      toId := toId[tokens[i] := i];
      if types[i] != 1 { special := special + [i]; }
    }
    assert tokens[..|tokens|] == tokens;
    var ranks := ReadMerges(merges);
    if ranks.None? { return None; }
    v := Some(Vocab(tokens, toId, ranks.value, special));
  }
}
