/** Cutting a segment into pretokens, and exactly when the cut loses nothing. */
module Pretokens {
  import opened Texts
  import opened ByteCodes

  datatype Class = Space | Whitespace | Letter | Number | Other

  const SP: Byte := 32

  function ClassOf(c: Byte): Class {
    if c == SP then Space
    else if 9 <= c <= 13 then Whitespace
    else if c < 128 then
      if 'A' as int <= c <= 'Z' as int || 'a' as int <= c <= 'z' as int then Letter
      else if '0' as int <= c <= '9' as int then Number
      else Other
    else Letter
  }

  /** The length a lead byte announces; anything that is no lead byte counts as one. */
  function CharLen(c: Byte): (n: nat)
    ensures 1 <= n <= 4
  {
    if c < 0x80 then 1
    else if 0xC0 <= c < 0xE0 then 2
    else if 0xE0 <= c < 0xF0 then 3
    else if 0xF0 <= c < 0xF8 then 4
    else 1
  }

  function SpacesEnd(text: Bytes, pos: nat): (e: nat)
    requires pos <= |text|
    ensures pos <= e <= |text| && (forall i :: pos <= i < e ==> text[i] == SP) && (e < |text| ==> text[e] != SP)
    decreases |text| - pos
  {
    if pos < |text| && text[pos] == SP then SpacesEnd(text, pos + 1) else pos
  }

  function WhitespaceEnd(text: Bytes, pos: nat): (e: nat)
    requires pos <= |text|
    ensures pos <= e <= |text|
    ensures pos < |text| && ClassOf(text[pos]) == Whitespace ==> pos < e
    decreases |text| - pos
  {
    if pos < |text| && ClassOf(text[pos]) == Whitespace then WhitespaceEnd(text, pos + 1) else pos
  }

  /** Steps by characters: it may end behind the text when the last character is cut short. */
  function RunEnd(text: Bytes, pos: nat, cls: Class): (e: nat)
    ensures pos <= e
    ensures pos < |text| && ClassOf(text[pos]) == cls ==> pos < e
    decreases |text| - pos
  {
    if pos < |text| && ClassOf(text[pos]) == cls then RunEnd(text, pos + CharLen(text[pos]), cls) else pos
  }

  /** C++ substr: from start, up to end or the end of the text. */
  function Sub(text: Bytes, start: nat, end: nat): Bytes
    requires start <= |text| && start <= end
  {
    if end <= |text| then text[start..end] else text[start..]
  }

  function Blanks(n: nat): Bytes { if n == 0 then [] else [SP] + Blanks(n - 1) }

  /** One turn of the loop: the pretokens it puts out, where it goes on, the space it holds back. */
  datatype Turn = Turn(pieces: seq<Bytes>, pos: nat, pending: Bytes)

  function SpaceTurn(text: Bytes, pos: nat, pending: Bytes): Turn
    requires pos < |text|
  {
    var e := SpacesEnd(text, pos);
    if e == |text| then Turn([Blanks(e - pos)], e, pending)
    else Turn(if e - pos > 1 then [Blanks(e - pos - 1)] else [], e, [SP])
  }

  function OneTurn(text: Bytes, pos: nat, pending: Bytes): (t: Turn)
    requires pos < |text|
    ensures pos < t.pos
  {
    var cls := ClassOf(text[pos]);
    if cls == Space then SpaceTurn(text, pos, pending)
    else if cls == Whitespace then Turn([text[pos..WhitespaceEnd(text, pos)]], WhitespaceEnd(text, pos), pending)
    else Turn([pending + Sub(text, pos, RunEnd(text, pos, cls))], RunEnd(text, pos, cls), [])
  }

  function Scan(text: Bytes, pos: nat, pending: Bytes): seq<Bytes>
    decreases |text| - pos
  {
    if pos >= |text| then []
    else
      var t := OneTurn(text, pos, pending);
      t.pieces + Scan(text, t.pos, t.pending)
  }

  function Cut(text: Bytes): seq<Bytes> { Scan(text, 0, []) }

  method BytelevelPretokens(text: Bytes) returns (out: seq<Bytes>)
    ensures out == Cut(text)
  {
    hide OneTurn;
    out := [];
    var pending: Bytes := [];
    var pos := 0;
    while pos < |text|
      invariant Cut(text) == out + Scan(text, pos, pending)
      decreases |text| - pos
    {
      ghost var t := OneTurn(text, pos, pending);
      ghost var before := out;
      var piece: seq<Bytes>;
      piece, pos, pending := TakeTurn(text, pos, pending);
      out := out + piece;
      assert before + (t.pieces + Scan(text, t.pos, t.pending)) == (before + t.pieces) + Scan(text, t.pos, t.pending);
    }
  }

  /** The body of the loop over the text. */
  method TakeTurn(text: Bytes, start: nat, pending: Bytes) returns (out: seq<Bytes>, pos: nat, held: Bytes)
    requires start < |text|
    ensures Turn(out, pos, held) == OneTurn(text, start, pending)
  {
    hide ClassOf, CharLen;
    var cls := ClassOf(text[start]);
    out, pos, held := [], start, pending;
    if cls == Space {
      while pos < |text| && text[pos] == SP
        invariant start <= pos <= |text| && SpacesEnd(text, start) == SpacesEnd(text, pos)
      {
        pos := pos + 1;
      }
      var count := pos - start;
      if pos < |text| {
        if count > 1 { out := [Blanks(count - 1)]; }
        held := [SP];
      } else {
        out := [Blanks(count)];
      }
    } else if cls == Whitespace {
      while pos < |text| && ClassOf(text[pos]) == Whitespace
        invariant start <= pos <= |text| && WhitespaceEnd(text, start) == WhitespaceEnd(text, pos)
      {
        pos := pos + 1;
      }
      out := [text[start..pos]];
    } else {
      while pos < |text| && ClassOf(text[pos]) == cls
        invariant start <= pos && RunEnd(text, start, cls) == RunEnd(text, pos, cls)
        decreases |text| - pos
      {
        pos := pos + CharLen(text[pos]);
      }
      out := [pending + Sub(text, start, pos)];
      held := [];
    }
  }

  /** A space with another whitespace byte right behind it. */
  predicate StrandedAt(text: Bytes, i: int) { 0 <= i < |text| - 1 && text[i] == SP && 9 <= text[i + 1] <= 13 }

  ghost predicate Stranded(text: Bytes) { exists i :: StrandedAt(text, i) }

  /** What a lead byte announces is there, or the text ends before: true of all UTF-8. */
  ghost predicate WholeChars(text: Bytes) {
    forall i, j :: 0 <= i < j < |text| && j < i + CharLen(text[i]) ==> text[j] >= 128
  }

  lemma {:induction false} BlanksAre(text: Bytes, pos: nat, e: nat)
    requires pos <= e <= |text| && forall i :: pos <= i < e ==> text[i] == SP
    ensures text[pos..e] == Blanks(e - pos)
    decreases e - pos
  {
    if pos < e {
      BlanksAre(text, pos + 1, e);
      assert text[pos..e] == [text[pos]] + text[pos + 1..e];
    }
  }

  function From(text: Bytes, pos: nat): Bytes { if pos <= |text| then text[pos..] else [] }

  /** The held-back space, if any, is the one just before pos. */
  predicate Held(text: Bytes, pos: nat, pending: Bytes) {
    pending == [] || (pending == [SP] && 0 < pos < |text| && text[pos - 1] == SP && text[pos] != SP)
  }

  lemma SpaceTurnKeeps(text: Bytes, pos: nat, pending: Bytes)
    requires pos < |text| && text[pos] == SP && Held(text, pos, pending)
    ensures pending == []
    ensures var t := SpaceTurn(text, pos, pending);
            Held(text, t.pos, t.pending) && Concat(t.pieces) + t.pending == text[pos..t.pos] && t.pos <= |text|
  {
    var e := SpacesEnd(text, pos);
    BlanksAre(text, pos, e);
    BlanksAre(text, pos, e - 1);
    assert text[pos..e] == text[pos..e - 1] + [SP];
    ConcatOne(Blanks(e - pos), []);
    ConcatOne(Blanks(e - pos - 1), []);
  }

  /** A turn that does not start with a whitespace byte behind a held-back space loses nothing. */
  lemma TurnKeeps(text: Bytes, pos: nat, pending: Bytes)
    requires pos < |text| && Held(text, pos, pending) && (pending == [] || !StrandedAt(text, pos - 1))
    ensures var t := OneTurn(text, pos, pending);
            && Held(text, t.pos, t.pending)
            && Concat(t.pieces) + t.pending + From(text, t.pos) == pending + text[pos..]
            && |Concat(t.pieces)| + |t.pending| >= |pending|
            && (t.pos <= |text| ==> |Concat(t.pieces)| + |t.pending| == |pending| + t.pos - pos)
  {
    hide SpacesEnd, SpaceTurn, WhitespaceEnd, RunEnd;
    var t := OneTurn(text, pos, pending);
    var cls := ClassOf(text[pos]);
    if cls == Space {
      SpaceTurnKeeps(text, pos, pending);
      assert text[pos..] == text[pos..t.pos] + text[t.pos..];
    } else {
      var piece := t.pieces[0];
      ConcatOne(piece, []);
      assert piece + [] == piece;
      if t.pos <= |text| { assert text[pos..] == text[pos..t.pos] + text[t.pos..]; }
    }
  }

  /** The pretokens from a position on, a held-back space included, are the rest of the text, if no
      space stands before another whitespace byte. */
  lemma {:induction false} ScanKeeps(text: Bytes, pos: nat, pending: Bytes)
    requires !Stranded(text) && Held(text, pos, pending)
    ensures Concat(Scan(text, pos, pending)) == pending + From(text, pos)
    decreases |text| - pos
  {
    hide OneTurn, StrandedAt;
    if pos < |text| {
      assert !StrandedAt(text, pos - 1);
      TurnKeeps(text, pos, pending);
      var t := OneTurn(text, pos, pending);
      ScanKeeps(text, t.pos, t.pending);
      ConcatAppend(t.pieces, Scan(text, t.pos, t.pending));
      var c, f := Concat(t.pieces), From(text, t.pos);
      assert c + (t.pending + f) == c + t.pending + f;
    }
  }

  lemma {:induction false} RunStops(text: Bytes, pos: nat, cls: Class, i: nat)
    requires WholeChars(text) && cls != Space && pos <= i < |text| && text[i] == SP
    ensures RunEnd(text, pos, cls) <= i
    decreases |text| - pos
  {
    if ClassOf(text[pos]) == cls {
      assert i >= pos + CharLen(text[pos]);
      RunStops(text, pos + CharLen(text[pos]), cls, i);
    }
  }

  /** The first stranded space does not come out at its place. */
  lemma {:induction false} ScanLoses(text: Bytes, pos: nat, pending: Bytes, i: nat)
    requires WholeChars(text) && StrandedAt(text, i) && Held(text, pos, pending)
    requires forall j :: j < i ==> !StrandedAt(text, j)
    requires pos <= i || (pos == i + 1 && pending == [SP])
    ensures LosesAt(Concat(Scan(text, pos, pending)), |pending| + i - pos)
    decreases |text| - pos
  {
    hide WholeChars, OneTurn, Concat, Held;
    var t := OneTurn(text, pos, pending);
    var rest := Scan(text, t.pos, t.pending);
    ConcatAppend(t.pieces, rest);
    if pos == i + 1 {
      WhitespaceFirst(text, pos, pending);
    } else {
      TurnReaches(text, pos, pending, i);
      assert pending == [] || !StrandedAt(text, pos - 1) by { hide StrandedAt; }
      TurnKeeps(text, pos, pending);
      ScanLoses(text, t.pos, t.pending, i);
    }
  }

  /** What is put out has no space at place k. */
  predicate LosesAt(r: Bytes, k: int) { 0 <= k && (k < |r| ==> r[k] != SP) }

  lemma WhitespaceFirst(text: Bytes, pos: nat, pending: Bytes)
    requires pos < |text| && 9 <= text[pos] <= 13
    ensures var c := Concat(OneTurn(text, pos, pending).pieces); c != [] && c[0] == text[pos]
  {
    var e := WhitespaceEnd(text, pos);
    ConcatOne(text[pos..e], []);
    assert text[pos..e] + [] == text[pos..e];
  }

  /** No turn goes beyond the stranded space, and one that takes it holds it back. */
  lemma TurnReaches(text: Bytes, pos: nat, pending: Bytes, i: nat)
    requires WholeChars(text) && StrandedAt(text, i) && pos <= i
    ensures var t := OneTurn(text, pos, pending); t.pos <= i || (t.pos == i + 1 && t.pending == [SP])
  {
    var cls := ClassOf(text[pos]);
    if cls == Space {
      var e := SpacesEnd(text, pos);
      assert e <= i + 1;
    } else if cls == Whitespace {
      WhitespaceStops(text, pos, i);
    } else {
      RunStops(text, pos, cls, i);
    }
  }

  lemma {:induction false} WhitespaceStops(text: Bytes, pos: nat, i: nat)
    requires pos <= i < |text| && text[i] == SP
    ensures WhitespaceEnd(text, pos) <= i
    decreases |text| - pos
  {
    if pos < i { WhitespaceStops(text, pos + 1, i); }
  }

  /** The pretokens give back the text when no space stands directly before another whitespace byte;
      for text made of whole UTF-8 characters, only then. */
  lemma PretokensKeepExactly(text: Bytes)
    ensures !Stranded(text) ==> Concat(Cut(text)) == text
    ensures WholeChars(text) ==> (Concat(Cut(text)) == text <==> !Stranded(text))
  {
    hide Cut, WholeChars, Concat;
    if !Stranded(text) {
      CutKeeps(text);
    } else if WholeChars(text) {
      var i :| StrandedAt(text, i);
      var first := FirstStranded(text, 0, i);
      CutLoses(text, first);
    }
  }

  lemma {:induction false} BlanksSize(n: nat)
    ensures |Blanks(n)| == n
  {
    if n > 0 { BlanksSize(n - 1); }
  }

  lemma TurnAddsNothing(text: Bytes, pos: nat, pending: Bytes)
    requires pos < |text|
    ensures var t := OneTurn(text, pos, pending);
            |Concat(t.pieces)| + |t.pending| + |From(text, t.pos)| <= |pending| + |text| - pos
  {
    var t := OneTurn(text, pos, pending);
    if t.pieces != [] { ConcatOne(t.pieces[0], []); }
    if text[pos] == SP {
      var e := SpacesEnd(text, pos);
      BlanksSize(e - pos);
      if e - pos > 1 { BlanksSize(e - pos - 1); }
    }
  }

  lemma {:induction false} ScanAddsNothing(text: Bytes, pos: nat, pending: Bytes)
    ensures |Concat(Scan(text, pos, pending))| <= |pending| + |From(text, pos)|
    decreases |text| - pos
  {
    hide OneTurn;
    if pos < |text| {
      TurnAddsNothing(text, pos, pending);
      var t := OneTurn(text, pos, pending);
      ScanAddsNothing(text, t.pos, t.pending);
      ConcatAppend(t.pieces, Scan(text, t.pos, t.pending));
    }
  }

  /** Pretokens are never longer than the text. */
  lemma CutAddsNothing(text: Bytes)
    ensures |Concat(Cut(text))| <= |text|
  {
    ScanAddsNothing(text, 0, []);
  }

  lemma CutKeeps(text: Bytes)
    requires !Stranded(text)
    ensures Concat(Cut(text)) == text
  {
    hide Scan, Stranded, Concat;
    ScanKeeps(text, 0, []);
    assert [] + text[0..] == text;
  }

  lemma CutLoses(text: Bytes, i: nat)
    requires WholeChars(text) && StrandedAt(text, i) && forall j :: j < i ==> !StrandedAt(text, j)
    ensures Concat(Cut(text)) != text
  {
    hide Scan, WholeChars, Concat;
    ScanLoses(text, 0, [], i);
  }

  lemma {:induction false} FirstStranded(text: Bytes, from: nat, i: nat) returns (first: nat)
    requires from <= i && StrandedAt(text, i) && forall j :: j < from ==> !StrandedAt(text, j)
    ensures StrandedAt(text, first) && forall j :: j < first ==> !StrandedAt(text, j)
    decreases i - from
  {
    if StrandedAt(text, from) { first := from; } else { first := FirstStranded(text, from + 1, i); }
  }

  lemma ConcatOne(a: Bytes, rest: seq<Bytes>)
    ensures Concat([a] + rest) == a + Concat(rest) && Concat([a]) == a && Concat<Byte>([]) == []
  {
    assert ([a] + rest)[1..] == rest;
    assert Concat([a]) == a + Concat([a][1..]);
  }

  // ----- where the text is cut -----

  /** The characters of the text from pos on: as many bytes as each lead byte announces, or as there
      are. */
  function CharsFrom(text: Bytes, pos: nat): seq<Bytes>
    decreases |text| - pos
  {
    if pos >= |text| then []
    else [Sub(text, pos, pos + CharLen(text[pos]))] + CharsFrom(text, pos + CharLen(text[pos]))
  }

  function Head(c: Bytes): Byte { if c == [] then 0 else c[0] }

  /** The first byte of each character. */
  function Heads(cs: seq<Bytes>): seq<Byte> { seq(|cs|, i requires 0 <= i < |cs| => Head(cs[i])) }

  predicate IsBreak(b: Byte) { 9 <= b <= 13 }

  predicate IsLetter(b: Byte) { 65 <= b <= 90 || 97 <= b <= 122 || b >= 128 }

  predicate IsDigit(b: Byte) { 48 <= b <= 57 }

  /** Both spaces, both breaks, both letters, both digits, or both none of these. */
  predicate SameKind(x: Byte, y: Byte) {
    && (x == 32 <==> y == 32) && (IsBreak(x) <==> IsBreak(y))
    && (IsLetter(x) <==> IsLetter(y)) && (IsDigit(x) <==> IsDigit(y))
  }

  /** A space that goes to what comes behind it: the last one of a run that does not end the text. */
  predicate HandedOn(heads: seq<Byte>, i: int) {
    0 <= i < |heads| - 1 && heads[i] == 32 && heads[i + 1] != 32
  }

  /** A longest run of characters of one kind, handed-on spaces apart. */
  predicate IsRun(heads: seq<Byte>, a: nat, b: nat) {
    && a < b <= |heads|
    && (forall i :: a <= i < b ==> !HandedOn(heads, i) && SameKind(heads[a], heads[i]))
    && (a > 0 ==> HandedOn(heads, a - 1) || !SameKind(heads[a - 1], heads[a]))
    && (b < |heads| ==> HandedOn(heads, b) || !SameKind(heads[a], heads[b]))
  }

  /** A space has been handed on, and nothing but breaks stands between it and i. */
  predicate SpaceWaits(heads: seq<Byte>, i: int) {
    i <= |heads| && exists h :: 0 <= h < i && HandedOn(heads, h) && forall j :: h < j < i ==> IsBreak(heads[j])
  }

  /** The handed-on space a run takes. */
  function Lead(heads: seq<Byte>, a: nat): Bytes
    requires a < |heads|
  {
    if heads[a] != 32 && !IsBreak(heads[a]) && SpaceWaits(heads, a) then [32] else []
  }

  datatype Span = Span(from: nat, to: nat)

  /** Pretokens that are the runs at these spans, in order. */
  predicate Pieces(cs: seq<Bytes>, ps: seq<Bytes>, spans: seq<Span>) {
    && |ps| == |spans|
    && (forall k :: 0 <= k < |spans| ==>
          && IsRun(Heads(cs), spans[k].from, spans[k].to)
          && ps[k] == Lead(Heads(cs), spans[k].from) + Concat(cs[spans[k].from..spans[k].to]))
    && forall k, l :: 0 <= k < l < |spans| ==> spans[k].to <= spans[l].from
  }

  /** No character from i on is left out but handed-on spaces. */
  ghost predicate Covers(heads: seq<Byte>, i: nat, spans: seq<Span>) {
    && (forall k :: 0 <= k < |spans| ==> i <= spans[k].from)
    && forall j :: i <= j < |heads| && !HandedOn(heads, j) ==>
         exists k :: 0 <= k < |spans| && spans[k].from <= j < spans[k].to
  }

  lemma ClassesAreKinds(x: Byte, y: Byte)
    ensures ClassOf(x) == ClassOf(y) <==> SameKind(x, y)
  {
  }

  lemma {:induction false} SpacesAreRun(text: Bytes, pos: nat)
    requires pos <= |text|
    ensures SpacesEnd(text, pos) == RunEnd(text, pos, Space)
    decreases |text| - pos
  {
    if pos < |text| && text[pos] == SP { SpacesAreRun(text, pos + 1); }
  }

  lemma {:induction false} WhitespaceIsRun(text: Bytes, pos: nat)
    requires pos <= |text|
    ensures WhitespaceEnd(text, pos) == RunEnd(text, pos, Whitespace)
    decreases |text| - pos
  {
    if pos < |text| && ClassOf(text[pos]) == Whitespace { WhitespaceIsRun(text, pos + 1); }
  }

  /** A run of one class, character by character. */
  lemma {:induction false} RunChars(text: Bytes, pos: nat, cls: Class, cs: seq<Bytes>, i: nat) returns (j: nat)
    requires i <= |cs| && cs[i..] == CharsFrom(text, pos)
    ensures i <= j <= |cs| && cs[j..] == CharsFrom(text, RunEnd(text, pos, cls))
    ensures forall k :: i <= k < j ==> ClassOf(Head(cs[k])) == cls
    ensures j < |cs| ==> ClassOf(Head(cs[j])) != cls
    ensures pos < |text| && ClassOf(text[pos]) == cls ==> i < j
    decreases |text| - pos
  {
    hide ClassOf, CharLen;
    j := i;
    if pos < |text| {
      FirstChar(text, pos, cs, i);
      if ClassOf(text[pos]) == cls { j := RunChars(text, pos + CharLen(text[pos]), cls, cs, i + 1); }
    }
  }

  lemma FirstChar(text: Bytes, pos: nat, cs: seq<Bytes>, i: nat)
    requires i <= |cs| && cs[i..] == CharsFrom(text, pos) && pos < |text|
    ensures i < |cs| && Head(cs[i]) == text[pos] && cs[i + 1..] == CharsFrom(text, pos + CharLen(text[pos]))
    ensures text[pos] < 128 ==> cs[i] == [text[pos]]
  {
    assert cs[i..][0] == cs[i] && cs[i..][1..] == cs[i + 1..];
  }

  lemma {:induction false} CharsAreText(text: Bytes, pos: nat)
    ensures Concat(CharsFrom(text, pos)) == From(text, pos)
    decreases |text| - pos
  {
    if pos < |text| {
      var next := pos + CharLen(text[pos]);
      CharsAreText(text, next);
      ConcatOne(Sub(text, pos, next), CharsFrom(text, next));
      assert next <= |text| ==> text[pos..] == text[pos..next] + text[next..];
    }
  }

  /** The characters between two positions are the text between them. */
  lemma CharsBetween(text: Bytes, pos: nat, next: nat, cs: seq<Bytes>, i: nat, j: nat)
    requires i <= j <= |cs| && pos <= |text| && pos <= next
    requires cs[i..] == CharsFrom(text, pos) && cs[j..] == CharsFrom(text, next)
    ensures Concat(cs[i..j]) == Sub(text, pos, next)
  {
    CharsAreText(text, pos);
    CharsAreText(text, next);
    hide CharsFrom, Concat, From, Sub;
    assert cs[i..] == cs[i..j] + cs[j..];
    ConcatAppend(cs[i..j], cs[j..]);
    FrontIs(text, pos, next, Concat(cs[i..j]));
  }

  lemma FrontIs(text: Bytes, pos: nat, next: nat, x: Bytes)
    requires pos <= |text| && pos <= next && x + From(text, next) == From(text, pos)
    ensures x == Sub(text, pos, next)
  {
    var all := x + From(text, next);
    assert x == all[..|x|];
    if next <= |text| { assert |x| == next - pos; } else { assert x == all; }
  }

  lemma {:induction false} BlankChars(cs: seq<Bytes>, i: nat, j: nat)
    requires i <= j <= |cs| && forall k :: i <= k < j ==> cs[k] == [SP]
    ensures Concat(cs[i..j]) == Blanks(j - i)
    decreases j - i
  {
    if i < j {
      assert cs[i..j] == [cs[i]] + cs[i + 1..j];
      BlankChars(cs, i + 1, j);
    }
  }

  /** Where a turn begins: not in the middle of a run. */
  predicate TurnStarts(heads: seq<Byte>, i: nat) {
    0 < i < |heads| ==> HandedOn(heads, i - 1) || !SameKind(heads[i - 1], heads[i])
  }

  /** One turn takes the characters of one kind that stand together. */
  lemma TurnTakes(text: Bytes, pos: nat, pending: Bytes, cs: seq<Bytes>, i: nat) returns (j: nat)
    requires i <= |cs| && cs[i..] == CharsFrom(text, pos) && pos < |text|
    ensures var heads, next := Heads(cs), OneTurn(text, pos, pending).pos;
      && i < j <= |cs| && heads[i] == text[pos] && cs[j..] == CharsFrom(text, next)
      && (forall k :: i <= k < j ==> SameKind(heads[i], heads[k]))
      && (j < |cs| ==> !SameKind(heads[i], heads[j])) && (j < |cs| <==> next < |text|)
      && Concat(cs[i..j]) == Sub(text, pos, next)
  {
    hide CharLen, SpacesEnd, WhitespaceEnd, CharsFrom;
    var cls := ClassOf(text[pos]);
    FirstChar(text, pos, cs, i);
    SpacesAreRun(text, pos);
    WhitespaceIsRun(text, pos);
    j := RunChars(text, pos, cls, cs, i);
    var next := OneTurn(text, pos, pending).pos;
    assert next == RunEnd(text, pos, cls);
    CharsBetween(text, pos, next, cs, i, j);
    forall k | i <= k <= j && k < |cs| ensures SameKind(Head(cs[i]), Head(cs[k])) <==> k < j {
      ClassesAreKinds(Head(cs[i]), Head(cs[k]));
    }
    assert j < |cs| <==> next < |text| by {
      assert CharsFrom(text, next) == [] <==> next >= |text| by { NoChars(text, next); }
    }
  }

  lemma NoChars(text: Bytes, pos: nat)
    ensures CharsFrom(text, pos) == [] <==> pos >= |text|
  {
  }

  lemma {:induction false} AsciiChars(text: Bytes, pos: nat, cs: seq<Bytes>, i: nat, k: nat)
    requires i <= k < |cs| && cs[i..] == CharsFrom(text, pos) && Head(cs[k]) < 128
    ensures cs[k] == [Head(cs[k])]
    decreases k - i
  {
    NoChars(text, pos);
    FirstChar(text, pos, cs, i);
    if i < k { AsciiChars(text, pos + CharLen(text[pos]), cs, i + 1, k); }
  }

  /** What a turn leaves to say about the characters i to j it takes. */
  ghost predicate TurnCuts(cs: seq<Bytes>, t: Turn, i: nat, j: nat, spans: seq<Span>) {
    && Pieces(cs, t.pieces, spans) && |spans| <= 1 && i <= j
    && (forall k :: 0 <= k < |spans| ==> i <= spans[k].from && spans[k].to <= j)
    && forall k :: i <= k < j && !HandedOn(Heads(cs), k) ==> spans != [] && spans[0].from <= k < spans[0].to
  }

  /** A turn of spaces takes as many characters as bytes. */
  lemma SpaceTurnCounts(text: Bytes, pos: nat, e: nat, cs: seq<Bytes>, i: nat, j: nat)
    requires i < j <= |cs| && pos <= e <= |text| && cs[i..] == CharsFrom(text, pos) && cs[j..] == CharsFrom(text, e)
    requires (forall k :: pos <= k < e ==> text[k] == SP) && forall k :: i <= k < j ==> Head(cs[k]) == 32
    ensures j - i == e - pos && forall k :: i <= k < j ==> cs[k] == [SP]
  {
    hide CharsFrom;
    forall k | i <= k < j ensures cs[k] == [SP] { AsciiChars(text, pos, cs, i, k); }
    BlanksAre(text, pos, e);
    CharsBetween(text, pos, e, cs, i, j);
    BlankChars(cs, i, j);
    BlanksSize(e - pos);
    BlanksSize(j - i);
  }

  lemma SpacesTaken(text: Bytes, pos: nat, pending: Bytes)
    requires pos < |text| && text[pos] == 32
    ensures var e, t := SpacesEnd(text, pos), OneTurn(text, pos, pending);
      && pos < e <= |text| && (forall k :: pos <= k < e ==> text[k] == SP) && t.pos == e
      && t.pieces == if e == |text| then [Blanks(e - pos)] else if e - pos > 1 then [Blanks(e - pos - 1)] else []
  {
    SpacesAreRun(text, pos);
  }

  /** Spaces in a row are one run, without the last one when something follows. */
  lemma SpacesAreOneRun(cs: seq<Bytes>, i: nat, j: nat, to: nat)
    requires i < j <= |cs| && TurnStarts(Heads(cs), i) && to == if j < |cs| then j - 1 else j
    requires var heads := Heads(cs); (forall k :: i <= k < j ==> heads[k] == 32) && (j < |cs| ==> heads[j] != 32)
    ensures var heads := Heads(cs);
      && (i < to ==> IsRun(heads, i, to) && Lead(heads, i) == [])
      && forall k :: to <= k < j ==> HandedOn(heads, k)
  {
  }

  lemma OnePiece(cs: seq<Bytes>, i: nat, to: nat, piece: Bytes)
    requires i < to && IsRun(Heads(cs), i, to) && Lead(Heads(cs), i) == [] && piece == Concat(cs[i..to])
    ensures Pieces(cs, [piece], [Span(i, to)])
  {
    hide IsRun, Lead, Concat;
    assert [] + piece == piece;
  }

  lemma SpaceTurnCuts(text: Bytes, pos: nat, pending: Bytes, cs: seq<Bytes>, i: nat, j: nat) returns (spans: seq<Span>)
    requires i < j <= |cs| && cs[i..] == CharsFrom(text, pos) && pos < |text| && text[pos] == 32
    requires TurnStarts(Heads(cs), i)
    requires var heads, next := Heads(cs), OneTurn(text, pos, pending).pos;
      && cs[j..] == CharsFrom(text, next) && (j < |cs| <==> next < |text|)
      && (forall k :: i <= k < j ==> heads[k] == 32) && (j < |cs| ==> heads[j] != 32)
    ensures TurnCuts(cs, OneTurn(text, pos, pending), i, j, spans)
  {
    assert forall k :: i <= k < j ==> Heads(cs)[k] == Head(cs[k]);
    hide *;
    var to := if j < |cs| then j - 1 else j;
    SpacesAreOneRun(cs, i, j, to);
    SpacesTaken(text, pos, pending);
    var e := SpacesEnd(text, pos);
    SpaceTurnCounts(text, pos, e, cs, i, j);
    BlankChars(cs, i, to);
    spans := if i < to then [Span(i, to)] else [];
    SpacesCut(cs, OneTurn(text, pos, pending), i, j, to);
  }

  lemma SpacesCut(cs: seq<Bytes>, t: Turn, i: nat, j: nat, to: nat)
    requires i <= to <= j <= |cs| && t.pieces == if i < to then [Concat(cs[i..to])] else []
    requires i < to ==> IsRun(Heads(cs), i, to) && Lead(Heads(cs), i) == []
    requires forall k :: to <= k < j ==> HandedOn(Heads(cs), k)
    ensures TurnCuts(cs, t, i, j, if i < to then [Span(i, to)] else [])
  {
    hide Concat, IsRun, Lead, HandedOn, Heads;
    if i < to { OnePiece(cs, i, to, Concat(cs[i..to])); }
  }

  lemma OtherTurnCuts(text: Bytes, pos: nat, pending: Bytes, cs: seq<Bytes>, i: nat, j: nat) returns (spans: seq<Span>)
    requires i < j <= |cs| && pos < |text| && text[pos] != 32 && TurnStarts(Heads(cs), i)
    requires pending == if SpaceWaits(Heads(cs), i) then [SP] else []
    requires var heads, next := Heads(cs), OneTurn(text, pos, pending).pos;
      && heads[i] == text[pos] && (forall k :: i <= k < j ==> SameKind(heads[i], heads[k]))
      && (j < |cs| ==> !SameKind(heads[i], heads[j])) && Concat(cs[i..j]) == Sub(text, pos, next)
    ensures TurnCuts(cs, OneTurn(text, pos, pending), i, j, spans)
  {
    hide SpacesEnd, WhitespaceEnd, RunEnd, SpaceWaits;
    var heads := Heads(cs);
    spans := [Span(i, j)];
    assert IsRun(heads, i, j);
    var whole := Concat(cs[i..j]);
    assert [] + whole == whole;
    ClassesAreKinds(text[pos], 9);
  }

  /** Whether a space waits behind the turn is what the loop holds back. */
  lemma TurnHolds(text: Bytes, pos: nat, pending: Bytes, cs: seq<Bytes>, i: nat, j: nat)
    requires i < j < |cs| && pos < |text| && OneTurn(text, pos, pending).pos < |text|
    requires pending == if SpaceWaits(Heads(cs), i) then [SP] else []
    requires var heads := Heads(cs);
      && heads[i] == text[pos] && (forall k :: i <= k < j ==> SameKind(heads[i], heads[k]))
      && !SameKind(heads[i], heads[j])
    ensures OneTurn(text, pos, pending).pending == if SpaceWaits(Heads(cs), j) then [SP] else []
    ensures TurnStarts(Heads(cs), j)
  {
    hide WhitespaceEnd, RunEnd;
    var heads := Heads(cs);
    if heads[i] == 32 {
      assert HandedOn(heads, j - 1);
    } else if IsBreak(heads[i]) {
      BreaksPassOn(heads, i, j);
    } else {
      assert heads[j - 1] != 32 && !IsBreak(heads[j - 1]);
    }
  }

  lemma BreaksPassOn(heads: seq<Byte>, i: nat, j: nat)
    requires i <= j <= |heads| && forall k :: i <= k < j ==> IsBreak(heads[k])
    ensures SpaceWaits(heads, i) <==> SpaceWaits(heads, j)
  {
    if SpaceWaits(heads, i) {
      var h :| 0 <= h < i && HandedOn(heads, h) && forall k :: h < k < i ==> IsBreak(heads[k]);
    }
  }

  /** The scan from a turn on cuts the characters from there on into runs. */
  lemma {:induction false} ScanCuts(text: Bytes, pos: nat, pending: Bytes, cs: seq<Bytes>, i: nat)
    returns (spans: seq<Span>)
    requires i <= |cs| && cs[i..] == CharsFrom(text, pos) && TurnStarts(Heads(cs), i)
    requires pos < |text| ==> pending == if SpaceWaits(Heads(cs), i) then [SP] else []
    ensures Pieces(cs, Scan(text, pos, pending), spans) && Covers(Heads(cs), i, spans)
    decreases |text| - pos
  {
    hide CharsFrom, OneTurn, Pieces, SameKind, HandedOn, SpaceWaits, TurnStarts, Covers, TurnCuts;
    NoChars(text, pos);
    if pos >= |text| {
      spans := [];
      NothingToCut(cs);
    } else {
      var t := OneTurn(text, pos, pending);
      var j := TurnTakes(text, pos, pending, cs, i);
      var first := TurnIsCut(text, pos, pending, cs, i, j);
      if t.pos < |text| { TurnHolds(text, pos, pending, cs, i, j); } else { EndStarts(cs, j); }
      var rest := ScanCuts(text, t.pos, t.pending, cs, j);
      spans := first + rest;
      CutsJoin(cs, t, Scan(text, t.pos, t.pending), i, j, first, rest);
    }
  }

  lemma EndStarts(cs: seq<Bytes>, j: nat)
    requires j == |cs|
    ensures TurnStarts(Heads(cs), j)
  {
  }

  lemma TurnIsCut(text: Bytes, pos: nat, pending: Bytes, cs: seq<Bytes>, i: nat, j: nat) returns (spans: seq<Span>)
    requires i < j <= |cs| && cs[i..] == CharsFrom(text, pos) && pos < |text| && TurnStarts(Heads(cs), i)
    requires pending == if SpaceWaits(Heads(cs), i) then [SP] else []
    requires var heads, next := Heads(cs), OneTurn(text, pos, pending).pos;
      && heads[i] == text[pos] && cs[j..] == CharsFrom(text, next)
      && (forall k :: i <= k < j ==> SameKind(heads[i], heads[k]))
      && (j < |cs| ==> !SameKind(heads[i], heads[j])) && (j < |cs| <==> next < |text|)
      && Concat(cs[i..j]) == Sub(text, pos, next)
    ensures TurnCuts(cs, OneTurn(text, pos, pending), i, j, spans)
  {
    hide CharsFrom, OneTurn, TurnCuts, TurnStarts, SpaceWaits;
    if text[pos] == 32 {
      spans := SpaceTurnCuts(text, pos, pending, cs, i, j);
    } else {
      spans := OtherTurnCuts(text, pos, pending, cs, i, j);
    }
  }

  lemma NothingToCut(cs: seq<Bytes>)
    ensures Pieces(cs, [], []) && Covers(Heads(cs), |cs|, [])
  {
  }

  lemma CutsJoin(cs: seq<Bytes>, t: Turn, ps: seq<Bytes>, i: nat, j: nat, first: seq<Span>, rest: seq<Span>)
    requires TurnCuts(cs, t, i, j, first) && Pieces(cs, ps, rest) && Covers(Heads(cs), j, rest)
    ensures Pieces(cs, t.pieces + ps, first + rest) && Covers(Heads(cs), i, first + rest)
  {
    hide IsRun, Lead, HandedOn;
    var spans := first + rest;
    forall k | 0 <= k < |spans| ensures i <= spans[k].from {
      if k >= |first| { assert spans[k] == rest[k - |first|]; }
    }
    forall x | i <= x < |Heads(cs)| && !HandedOn(Heads(cs), x)
      ensures exists k :: 0 <= k < |spans| && spans[k].from <= x < spans[k].to
    {
      if x < j {
        assert spans[0] == first[0];
      } else {
        var k :| 0 <= k < |rest| && rest[k].from <= x < rest[k].to;
        assert spans[|first| + k] == rest[k];
      }
    }
  }

  /** For every text, UTF-8 or not: the pretokens are, in order, all longest runs of characters of one
      kind - spaces, breaks, letters, digits, others - where the last space of a run that something
      else follows is no part of it but goes in front of the next run of letters, digits or others. */
  lemma PretokensAreRuns(text: Bytes) returns (spans: seq<Span>)
    ensures var cs := CharsFrom(text, 0);
            Concat(cs) == text && Pieces(cs, Cut(text), spans) && Covers(Heads(cs), 0, spans)
  {
    var cs := CharsFrom(text, 0);
    CharsAreText(text, 0);
    assert cs[0..] == cs && From(text, 0) == text;
    spans := ScanCuts(text, 0, [], cs, 0);
  }

  /** Longest runs that share a character are the same. */
  lemma RunsAreApart(heads: seq<Byte>, a: nat, b: nat, c: nat, d: nat)
    requires IsRun(heads, a, b) && IsRun(heads, c, d) && a <= c < b
    ensures a == c && b == d
  {
    hide SameKind, HandedOn;
    if a < c { KindsAgree(heads[a], heads[c - 1], heads[c]); }
  }

  lemma KindsAgree(x: Byte, y: Byte, z: Byte)
    requires SameKind(x, y) && SameKind(x, z)
    ensures SameKind(y, z)
  {
  }

  ghost predicate RunsInOrder(heads: seq<Byte>, i: nat, spans: seq<Span>) {
    && Covers(heads, i, spans) && (forall k :: 0 <= k < |spans| ==> IsRun(heads, spans[k].from, spans[k].to))
    && forall k, l :: 0 <= k < l < |spans| ==> spans[k].to <= spans[l].from
  }

  lemma TailInOrder(heads: seq<Byte>, i: nat, spans: seq<Span>)
    requires RunsInOrder(heads, i, spans) && spans != []
    ensures RunsInOrder(heads, spans[0].to, spans[1..])
  {
    hide IsRun, HandedOn;
    var rest := spans[1..];
    assert forall k :: 0 <= k < |rest| ==> rest[k] == spans[k + 1];
    assert IsRun(heads, spans[0].from, spans[0].to);
    forall j | spans[0].to <= j < |heads| && !HandedOn(heads, j)
      ensures exists k :: 0 <= k < |rest| && rest[k].from <= j < rest[k].to
    {
      RunIsNotEmpty(heads, spans[0].from, spans[0].to);
      var k :| 0 <= k < |spans| && spans[k].from <= j < spans[k].to;
      assert rest[k - 1] == spans[k];
    }
  }

  lemma RunIsNotEmpty(heads: seq<Byte>, a: nat, b: nat)
    requires IsRun(heads, a, b)
    ensures a < b <= |heads| && !HandedOn(heads, a)
  {
  }

  lemma FirstRunsAgree(heads: seq<Byte>, i: nat, s: seq<Span>, t: seq<Span>)
    requires RunsInOrder(heads, i, s) && RunsInOrder(heads, i, t) && s != []
    ensures t != [] && t[0].from <= s[0].from
    ensures t[0].from == s[0].from ==> t[0] == s[0]
  {
    hide IsRun, HandedOn;
    RunIsNotEmpty(heads, s[0].from, s[0].to);
    var k :| 0 <= k < |t| && t[k].from <= s[0].from < t[k].to;
    RunIsNotEmpty(heads, t[0].from, t[0].to);
    if t[0].from == s[0].from { RunsAreApart(heads, t[0].from, t[0].to, s[0].from, s[0].to); }
  }

  lemma {:induction false} RunsAreUnique(heads: seq<Byte>, i: nat, s: seq<Span>, t: seq<Span>)
    requires RunsInOrder(heads, i, s) && RunsInOrder(heads, i, t)
    ensures s == t
    decreases |s|
  {
    hide RunsInOrder;
    if s != [] { FirstRunsAgree(heads, i, s, t); }
    if t != [] { FirstRunsAgree(heads, i, t, s); }
    if s != [] {
      TailInOrder(heads, i, s);
      TailInOrder(heads, i, t);
      RunsAreUnique(heads, s[0].to, s[1..], t[1..]);
      assert s == [s[0]] + s[1..] && t == [t[0]] + t[1..];
    }
  }

  /** That says what the pretokens are: no other list of byte strings meets it. */
  lemma PretokensExactly(text: Bytes, ps: seq<Bytes>)
    ensures var cs := CharsFrom(text, 0);
            ps == Cut(text) <==> exists spans :: Pieces(cs, ps, spans) && Covers(Heads(cs), 0, spans)
  {
    hide IsRun, HandedOn, Covers, Cut;
    var cs := CharsFrom(text, 0);
    var own := PretokensAreRuns(text);
    forall spans | Pieces(cs, ps, spans) && Covers(Heads(cs), 0, spans) ensures ps == Cut(text) {
      RunsAreUnique(Heads(cs), 0, spans, own);
      assert forall k :: 0 <= k < |ps| ==> ps[k] == Cut(text)[k];
    }
  }
}
