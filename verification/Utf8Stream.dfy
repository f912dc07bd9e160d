/** Streaming decoded text without cutting a UTF-8 character in two. */
module Utf8Stream {
  import opened Texts
  import opened ByteCodes
  import Pretokens
  import Tokenizer

  // ----- UTF-8, as section 4 of RFC 3629 has it -----

  predicate IsTail(b: Byte) { 0x80 <= b <= 0xBF }

  predicate TailsAt(s: Bytes, from: nat, n: nat) {
    from + n <= |s| && forall i :: from <= i < from + n ==> IsTail(s[i])
  }

  /** The length of the character s begins with, 0 if it begins with none. */
  function FirstChar(s: Bytes): (n: nat)
    ensures n <= 4 && n <= |s|
  {
    if s == [] then 0
    else if s[0] <= 0x7F then 1
    else if |s| < 2 then 0
    else if 0xC2 <= s[0] <= 0xDF then if TailsAt(s, 1, 1) then 2 else 0
    else if 0xE0 <= s[0] <= 0xEF then
      if TailsAt(s, 1, 2) && (s[0] == 0xE0 ==> s[1] >= 0xA0) && (s[0] == 0xED ==> s[1] <= 0x9F) then 3 else 0
    else if 0xF0 <= s[0] <= 0xF4 then
      if TailsAt(s, 1, 3) && (s[0] == 0xF0 ==> s[1] >= 0x90) && (s[0] == 0xF4 ==> s[1] <= 0x8F) then 4 else 0
    else 0
  }

  predicate WellFormed(s: Bytes)
    decreases |s|
  {
    s == [] || (FirstChar(s) > 0 && WellFormed(s[FirstChar(s)..]))
  }

  /** Some well-formed text begins with s. */
  ghost predicate Begins(s: Bytes) { exists w :: s <= w && WellFormed(w) }

  // ----- the split -----

  /** What a start byte says about the length of its character. */
  function Expected(c: Byte): nat {
    if 0xC0 <= c <= 0xDF then 2 else if 0xE0 <= c <= 0xEF then 3 else if 0xF0 <= c <= 0xF7 then 4 else 1
  }

  /** How much of s is kept, looking back from i for at most `left` bytes. */
  function KeptFrom(s: Bytes, i: nat, left: nat): (k: nat)
    requires i <= |s|
    ensures k <= |s|
    decreases left
  {
    if left == 0 || i == 0 then |s|
    else
      var c := s[i - 1];
      if c < 0x80 then |s|
      else if c >= 0xC0 then if |s| - (i - 1) >= Expected(c) then |s| else i - 1
      else KeptFrom(s, i - 1, left - 1)
  }

  function Kept(s: Bytes): (k: nat)
    ensures k <= |s|
  {
    KeptFrom(s, |s|, 4)
  }

  method SplitUtf8Complete(s: Bytes) returns (complete: Bytes, leftover: Bytes)
    ensures complete == s[..Kept(s)] && leftover == s[Kept(s)..]
  {
    if s == [] { return [], []; }
    assert s[..|s|] == s;
    var i, back := |s|, 0;
    while back < 4 && i > 0
      invariant 0 <= i <= |s| && 0 <= back <= 4
      invariant Kept(s) == KeptFrom(s, i, 4 - back)
    {
      var c := s[i - 1];
      if c < 0x80 { return s, []; }
      if c >= 0xC0 {
        var expected := Expected(c);
        var available := |s| - (i - 1);
        if available >= expected { return s, []; }
        return s[..i - 1], s[i - 1..];
      }
      i := i - 1;
      back := back + 1;
    }
    return s, [];
  }

  /** What the bits of a start byte announce. */
  function Announced(c: Byte): nat {
    if c / 32 == 6 then 2 else if c / 16 == 14 then 3 else if c / 8 == 30 then 4 else 1
  }

  /** The text ends, from k on, in a start byte and fewer tail bytes than it announces. */
  predicate EndsShort(s: Bytes, k: int) {
    && 0 <= k < |s| && s[k] >= 192 && |s| - k < Announced(s[k])
    && forall i :: k < i < |s| ==> 128 <= s[i] < 192
  }

  /** On any bytes, well formed or not: withheld is a start byte at the end with fewer tail bytes than
      it announces, together with these; if there is none, nothing is. */
  lemma KeptExactly(s: Bytes)
    ensures forall k :: EndsShort(s, k) ==> Kept(s) == k
    ensures Kept(s) == |s| || EndsShort(s, Kept(s))
  {
    KeptFromExactly(s, |s|, 4);
  }

  lemma {:induction false} KeptFromExactly(s: Bytes, i: nat, left: nat)
    requires i <= |s| && left + |s| - i == 4 && forall j :: i <= j < |s| ==> 128 <= s[j] < 192
    ensures forall k :: EndsShort(s, k) ==> KeptFrom(s, i, left) == k
    ensures KeptFrom(s, i, left) == |s| || EndsShort(s, KeptFrom(s, i, left))
    decreases left
  {
    forall k | EndsShort(s, k) ensures k < i && |s| - k < 4 {
      assert s[k] >= 192;
    }
    if left > 0 && i > 0 {
      ExpectedIsAnnounced(s[i - 1]);
      if 128 <= s[i - 1] < 192 { KeptFromExactly(s, i - 1, left - 1); }
    }
  }

  lemma ExpectedIsAnnounced(c: Byte)
    ensures c >= 192 ==> Expected(c) == Announced(c) <= 4
  {
  }

  /** The pretokenizer steps over the characters of well-formed text. */
  lemma CharLenIsFirstChar(s: Bytes)
    requires FirstChar(s) > 0
    ensures Pretokens.CharLen(s[0]) == FirstChar(s)
  {
  }

  /** Whole characters in front do not change how far the split goes back. */
  lemma {:induction false} KeptShift(a: Bytes, q: Bytes, i: nat, left: nat)
    requires 0 < i <= |q| && !IsTail(q[0]) && left > 0
    ensures KeptFrom(a + q, |a| + i, left) == |a| + KeptFrom(q, i, left)
    decreases left
  {
    assert (a + q)[|a| + i - 1] == q[i - 1];
    if IsTail(q[i - 1]) && left > 1 {
      KeptShift(a, q, i - 1, left - 1);
    }
  }

  lemma FirstIsNoTail(s: Bytes)
    requires FirstChar(s) > 0
    ensures !IsTail(s[0]) && Expected(s[0]) == FirstChar(s)
    ensures forall i :: 1 <= i < FirstChar(s) ==> IsTail(s[i])
  {
  }

  lemma FirstAtMostFour(w: Bytes)
    ensures FirstChar(w) <= 4
  {
  }

  lemma FirstOfPrefix(w: Bytes, p: Bytes)
    requires p <= w && 0 < FirstChar(w) <= |p|
    ensures FirstChar(p) == FirstChar(w)
  {
    assert forall i :: 0 <= i < |p| ==> p[i] == w[i];
  }

  /** A single character cut short is withheld whole. */
  lemma KeptOfPart(w: Bytes, p: Bytes)
    requires p <= w && p != [] && |p| < FirstChar(w)
    ensures Kept(p) == 0
  {
    FirstIsNoTail(w);
    assert forall i :: 0 <= i < |p| ==> p[i] == w[i];
    PartWalk(p, |p|, 4, FirstChar(w));
  }

  lemma {:induction false} PartWalk(p: Bytes, i: nat, left: nat, n: nat)
    requires 0 < i <= |p| < n <= 4 && left >= i
    requires p[0] >= 0xC0 && Expected(p[0]) == n && forall k :: 1 <= k < |p| ==> IsTail(p[k])
    ensures KeptFrom(p, i, left) == 0
    decreases i
  {
    if i > 1 { PartWalk(p, i - 1, left - 1, n); }
  }

  /** A whole character is kept. */
  lemma KeptOfChar(c: Bytes)
    requires FirstChar(c) == |c| > 0
    ensures Kept(c) == |c|
  {
    FirstIsNoTail(c);
    CharWalk(c, |c|, 4);
  }

  lemma {:induction false} CharWalk(c: Bytes, i: nat, left: nat)
    requires FirstChar(c) == |c| > 0 && i <= |c|
    ensures KeptFrom(c, i, left) == |c|
    decreases left
  {
    FirstIsNoTail(c);
    if left > 0 && i > 1 && IsTail(c[i - 1]) { CharWalk(c, i - 1, left - 1); }
  }

  /** On a beginning of well-formed text the split keeps well-formed text and withholds less than a
      character. */
  lemma {:induction false} SplitIsBoundary(w: Bytes, p: Bytes)
    requires p <= w && WellFormed(w)
    ensures Kept(p) <= |p| && WellFormed(p[..Kept(p)]) && |p| - Kept(p) < 4
    ensures forall k :: Kept(p) < k <= |p| ==> !WellFormed(p[..k])
    decreases |w|
  {
    if p != [] {
      hide Kept, FirstChar;
      var n := FirstChar(w);
      if |p| < n {
        KeptOfPart(w, p);
        FirstAtMostFour(w);
        forall k | 0 < k <= |p| ensures !WellFormed(p[..k]) { PartIsIllFormed(w, p[..k]); }
      } else {
        SplitIsBoundary(w[n..], p[n..]);
        FirstOfPrefix(w, p);
        KeptBehind(w, p, n);
        ShiftedBoundary(p, n, Kept(p[n..]));
      }
    }
  }

  lemma KeptBehind(w: Bytes, p: Bytes, n: nat)
    requires p <= w && WellFormed(w) && FirstChar(w) == FirstChar(p) == n > 0
    ensures Kept(p) == n + Kept(p[n..])
  {
    hide WellFormed, FirstChar, KeptFrom;
    var a, q := p[..n], p[n..];
    assert p == a + q && q <= w[n..];
    CharIsChar(p, n);
    if q == [] {
      assert a == p;
      KeptOfChar(a);
    } else {
      TailWellFormed(w);
      QFirst(w[n..], q);
      KeptShift(a, q, |q|, 4);
    }
  }

  lemma TailWellFormed(w: Bytes)
    requires WellFormed(w) && w != []
    ensures WellFormed(w[FirstChar(w)..])
  {
  }

  lemma QFirst(w: Bytes, q: Bytes)
    requires q <= w && q != [] && WellFormed(w)
    ensures !IsTail(q[0])
  {
    FirstIsNoTail(w);
  }

  lemma PartIsIllFormed(w: Bytes, p: Bytes)
    requires p <= w && p != [] && |p| < FirstChar(w)
    ensures !WellFormed(p)
  {
    FirstIsNoTail(w);
    assert p[0] == w[0];
    if FirstChar(p) > 0 { FirstIsNoTail(p); }
  }

  lemma CharIsChar(p: Bytes, n: nat)
    requires FirstChar(p) == n > 0
    ensures FirstChar(p[..n]) == n && forall k :: n <= k <= |p| ==> FirstChar(p[..k]) == n
  {
    forall k | n <= k <= |p| ensures FirstChar(p[..k]) == n { FirstOfPrefix(p, p[..k]); }
  }

  /** Boundaries behind the first character are boundaries of the rest. */
  lemma ShiftedBoundary(p: Bytes, n: nat, kept: nat)
    requires FirstChar(p) == n > 0 && kept <= |p| - n && WellFormed(p[n..][..kept])
    requires forall k :: kept < k <= |p| - n ==> !WellFormed(p[n..][..k])
    ensures WellFormed(p[..n + kept]) && forall k :: n + kept < k <= |p| ==> !WellFormed(p[..k])
  {
    CharIsChar(p, n);
    forall k | n <= k <= |p| ensures WellFormed(p[..k]) <==> WellFormed(p[n..][..k - n]) {
      assert p[..k][n..] == p[n..][..k - n];
    }
  }

  /** What follows a well-formed beginning of well-formed text is well formed. */
  lemma {:induction false} RestIsWellFormed(a: Bytes, w: Bytes)
    requires WellFormed(a) && a <= w && WellFormed(w)
    ensures WellFormed(w[|a|..])
    decreases |a|
  {
    if a != [] {
      var n := FirstChar(a);
      FirstOfLonger(a, w);
      RestIsWellFormed(a[n..], w[n..]);
      assert w[n..][|a[n..]|..] == w[|a|..];
    } else {
      assert w[0..] == w;
    }
  }

  lemma FirstOfLonger(a: Bytes, w: Bytes)
    requires a <= w && FirstChar(a) > 0
    ensures FirstChar(w) == FirstChar(a)
  {
    assert forall i :: 0 <= i < |a| ==> a[i] == w[i];
  }

  lemma {:induction false} WellFormedAppend(a: Bytes, b: Bytes)
    requires WellFormed(a) && WellFormed(b)
    ensures WellFormed(a + b)
    decreases |a|
  {
    if a == [] {
      assert a + b == b;
    } else {
      var n := FirstChar(a);
      FirstOfLonger(a, a + b);
      assert (a + b)[n..] == a[n..] + b;
      WellFormedAppend(a[n..], b);
    }
  }

  // ----- the stream -----

  /** The chunks sent and how much of the decoded text they cover. */
  datatype Progress = Progress(offset: nat, chunks: seq<Bytes>)

  function Delta(full: Bytes, p: Progress): Progress {
    if |full| <= p.offset then p
    else
      var candidate := full[p.offset..];
      if Kept(candidate) == 0 then p
      else Progress(p.offset + Kept(candidate), p.chunks + [candidate[..Kept(candidate)]])
  }

  function Tail(full: Bytes, p: Progress): Progress {
    if |full| <= p.offset then p else Progress(|full|, p.chunks + [full[p.offset..]])
  }

  /** The loop of the handler: one emission for every token generated. */
  ghost function Streamed(v: Tokenizer.Vocab, tokens: seq<int>, skip: bool): Progress {
    if tokens == [] then Progress(0, [])
    else Delta(Tokenizer.DecodedIds(v, tokens, skip), Streamed(v, tokens[..|tokens| - 1], skip))
  }

  class Handler {
    var generated: seq<int>
    var sentOffset: nat
    var chunks: seq<Bytes>

    constructor ()
      ensures generated == [] && sentOffset == 0 && chunks == []
    {
      generated, sentOffset, chunks := [], 0, [];
    }

    method EmitDelta(v: Tokenizer.Vocab, skip: bool, order: seq<Byte>)
      requires forall b: Byte :: b in order
      modifies this
      ensures generated == old(generated)
      ensures Progress(sentOffset, chunks)
              == Delta(Tokenizer.DecodedIds(v, generated, skip), Progress(old(sentOffset), old(chunks)))
    {
      hide Kept, Tokenizer.DecodedIds;
      var full := Tokenizer.DecodeTokens(v, generated, skip, order);
      if |full| <= sentOffset { return; }
      var candidate := full[sentOffset..];
      var complete, leftover := SplitUtf8Complete(candidate);
      if complete != [] {
        sentOffset := sentOffset + |complete|;
        chunks := chunks + [complete];
      }
    }

    method Flush(v: Tokenizer.Vocab, skip: bool, order: seq<Byte>)
      requires forall b: Byte :: b in order
      modifies this
      ensures generated == old(generated)
      ensures Progress(sentOffset, chunks)
              == Tail(Tokenizer.DecodedIds(v, generated, skip), Progress(old(sentOffset), old(chunks)))
    {
      hide Tokenizer.DecodedIds;
      var full := Tokenizer.DecodeTokens(v, generated, skip, order);
      if |full| > sentOffset {
        var tail := full[sentOffset..];
        sentOffset := sentOffset + |tail|;
        chunks := chunks + [tail];
      }
    }

    /** `tokens` is what the engine generates before the end-of-sentence token or the limit. */
    method Run(v: Tokenizer.Vocab, tokens: seq<int>, skip: bool, order: seq<Byte>)
      requires forall b: Byte :: b in order
      requires generated == [] && sentOffset == 0 && chunks == []
      modifies this
      ensures generated == tokens
      ensures Progress(sentOffset, chunks) == Tail(Tokenizer.DecodedIds(v, tokens, skip), Streamed(v, tokens, skip))
    {
      hide Delta, Tail, Tokenizer.DecodedIds;
      for i := 0 to |tokens|
        invariant generated == tokens[..i]
        invariant Progress(sentOffset, chunks) == Streamed(v, tokens[..i], skip)
      {
        generated := generated + [tokens[i]];
        assert tokens[..i + 1][..i] == tokens[..i] && tokens[..i + 1] == tokens[..i] + [tokens[i]];
        EmitDelta(v, skip, order);
      }
      assert tokens[..|tokens|] == tokens;
      Flush(v, skip, order);
    }
  }

  /** The chunks are well formed, cover the text up to the offset, and nothing but part of one
      character is held back. */
  ghost predicate Covers(p: Progress, full: Bytes) {
    && p.offset <= |full| && Concat(p.chunks) == full[..p.offset]
    && (forall i :: 0 <= i < |p.chunks| ==> WellFormed(p.chunks[i]) && p.chunks[i] != [])
    && WellFormed(full[..p.offset])
    && |full| - p.offset < 4 && (forall k :: p.offset < k <= |full| ==> !WellFormed(full[..k]))
  }

  /** Covering a beginning of the text but perhaps not its newest part. */
  ghost predicate Lags(p: Progress, full: Bytes) {
    && p.offset <= |full| && Concat(p.chunks) == full[..p.offset]
    && (forall i :: 0 <= i < |p.chunks| ==> WellFormed(p.chunks[i]) && p.chunks[i] != [])
    && WellFormed(full[..p.offset])
  }

  lemma DeltaCovers(full: Bytes, p: Progress, w: Bytes)
    requires full <= w && WellFormed(w) && Lags(p, full)
    ensures Covers(Delta(full, p), full)
  {
    hide Kept, WellFormed;
    var sent, rest := full[..p.offset], full[p.offset..];
    assert sent <= w && w[|sent|..] == w[p.offset..] && rest <= w[p.offset..];
    RestIsWellFormed(sent, w);
    SplitIsBoundary(w[p.offset..], rest);
    var k := Kept(rest);
    BoundariesAdd(full, w, p.offset, k);
    if k > 0 {
      ConcatAppend(p.chunks, [rest[..k]]);
      assert Concat([rest[..k]]) == rest[..k] + Concat([rest[..k]][1..]) == rest[..k];
      assert full[..p.offset + k] == sent + rest[..k];
    }
  }

  lemma BoundariesAdd(full: Bytes, w: Bytes, offset: nat, k: nat)
    requires full <= w && WellFormed(w) && offset + k <= |full|
    requires WellFormed(full[..offset]) && WellFormed(full[offset..][..k])
    requires forall j :: k < j <= |full| - offset ==> !WellFormed(full[offset..][..j])
    ensures WellFormed(full[..offset + k])
    ensures forall j :: offset + k < j <= |full| ==> !WellFormed(full[..j])
  {
    hide WellFormed;
    assert full[..offset + k] == full[..offset] + full[offset..][..k];
    WellFormedAppend(full[..offset], full[offset..][..k]);
    forall j | offset + k < j <= |full| ensures !WellFormed(full[..j]) {
      assert full[..j][|full[..offset]|..] == full[offset..][..j - offset];
      if WellFormed(full[..j]) { RestIsWellFormed(full[..offset], full[..j]); }
    }
  }

  /** Longer output begins with the output so far, whatever tokens come next. */
  lemma DecodedGrows(v: Tokenizer.Vocab, tokens: seq<int>, n: nat, skip: bool)
    requires n <= |tokens|
    ensures Tokenizer.DecodedIds(v, tokens[..n], skip) <= Tokenizer.DecodedIds(v, tokens, skip)
  {
    assert tokens == tokens[..n] + tokens[n..];
    Tokenizer.DecodedIdsAppend(v, tokens[..n], tokens[n..], skip);
  }

  lemma {:induction false} StreamCovers(v: Tokenizer.Vocab, tokens: seq<int>, skip: bool, w: Bytes)
    requires Tokenizer.DecodedIds(v, tokens, skip) <= w && WellFormed(w)
    ensures Covers(Streamed(v, tokens, skip), Tokenizer.DecodedIds(v, tokens, skip))
    decreases |tokens|
  {
    hide Delta, Tokenizer.DecodedIds, WellFormed, Covers, Lags;
    var full := Tokenizer.DecodedIds(v, tokens, skip);
    if tokens == [] {
      Tokenizer.NoIds(v);
      NothingCovers(v, skip);
    } else {
      var shorter := tokens[..|tokens| - 1];
      var before := Tokenizer.DecodedIds(v, shorter, skip);
      DecodedGrows(v, tokens, |tokens| - 1, skip);
      StreamCovers(v, shorter, skip, w);
      StillLags(Streamed(v, shorter, skip), before, full);
      DeltaCovers(full, Streamed(v, shorter, skip), w);
    }
  }

  lemma NothingCovers(v: Tokenizer.Vocab, skip: bool)
    ensures Covers(Progress(0, []), Tokenizer.DecodedIds(v, [], skip))
  {
  }

  lemma StillLags(p: Progress, before: Bytes, full: Bytes)
    requires Covers(p, before) && before <= full
    ensures Lags(p, full)
  {
    assert before[..p.offset] == full[..p.offset];
  }

  /** What has been sent is the decoded text up to the offset. */
  ghost predicate Sent(p: Progress, full: Bytes) { p.offset <= |full| && Concat(p.chunks) == full[..p.offset] }

  lemma SentSlice(full: Bytes, p: Progress, k: nat)
    requires Sent(p, full) && p.offset <= k <= |full|
    ensures Concat(p.chunks + [full[p.offset..k]]) == full[..k]
  {
    ConcatAppend(p.chunks, [full[p.offset..k]]);
    assert Concat([full[p.offset..k]]) == full[p.offset..k] + Concat([full[p.offset..k]][1..]) == full[p.offset..k];
    assert full[..k] == full[..p.offset] + full[p.offset..k];
  }

  lemma DeltaSends(full: Bytes, p: Progress)
    requires Sent(p, full)
    ensures Sent(Delta(full, p), full)
  {
    hide Kept, Concat;
    var k := p.offset + Kept(full[p.offset..]);
    SentSlice(full, p, k);
    assert full[p.offset..][..Kept(full[p.offset..])] == full[p.offset..k];
  }

  lemma {:induction false} StreamSends(v: Tokenizer.Vocab, tokens: seq<int>, skip: bool)
    ensures Sent(Streamed(v, tokens, skip), Tokenizer.DecodedIds(v, tokens, skip))
    decreases |tokens|
  {
    hide Delta, Tokenizer.DecodedIds, Concat;
    if tokens == [] {
      NothingCovers(v, skip);
    } else {
      var n := |tokens| - 1;
      StreamSends(v, tokens[..n], skip);
      DecodedGrows(v, tokens, n, skip);
      var p := Streamed(v, tokens[..n], skip);
      var before, full := Tokenizer.DecodedIds(v, tokens[..n], skip), Tokenizer.DecodedIds(v, tokens, skip);
      assert before[..p.offset] == full[..p.offset];
      DeltaSends(full, p);
    }
  }

  /** Whatever the tokens decode to, the chunks and the flush concatenate to exactly that. */
  lemma StreamKeepsText(v: Tokenizer.Vocab, tokens: seq<int>, skip: bool)
    ensures var full := Tokenizer.DecodedIds(v, tokens, skip);
            Concat(Tail(full, Streamed(v, tokens, skip)).chunks) == full
  {
    hide Streamed, Tokenizer.DecodedIds, Concat;
    var full, p := Tokenizer.DecodedIds(v, tokens, skip), Streamed(v, tokens, skip);
    StreamSends(v, tokens, skip);
    SentSlice(full, p, |full|);
    assert full[..|full|] == full && full[p.offset..|full|] == full[p.offset..];
  }

  /** After every token, if the text can still become well formed: all chunks sent are well-formed
      text, they are the decoded text up to its last character boundary, and less than one
      character is held back. When the whole output is well formed, all of it has been sent and the
      flush at the end has nothing to add. */
  lemma StreamIsWellFormed(v: Tokenizer.Vocab, tokens: seq<int>, skip: bool)
    requires Begins(Tokenizer.DecodedIds(v, tokens, skip))
    ensures var full := Tokenizer.DecodedIds(v, tokens, skip);
            var p := Streamed(v, tokens, skip);
            Covers(p, full) && (WellFormed(full) ==> Tail(full, p) == p && p.offset == |full|)
  {
    hide Streamed, Tokenizer.DecodedIds, WellFormed;
    var full := Tokenizer.DecodedIds(v, tokens, skip);
    var w :| full <= w && WellFormed(w);
    StreamCovers(v, tokens, skip, w);
    assert full[..|full|] == full;
  }
}
