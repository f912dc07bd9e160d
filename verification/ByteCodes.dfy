/** The byte alphabet of the byte-level BPE tokenizer and the decoding of one token's text. */
module ByteCodes {
  import opened Texts

  // ----- the byte alphabet -----

  predicate Printable(b: int) { '!' as int <= b <= '~' as int || 0xA1 <= b <= 0xAC || 0xAE <= b <= 0xFF }

  /** How many bytes below b are not printable. */
  function Skipped(b: nat): nat {
    if b == 0 then 0 else Skipped(b - 1) + if Printable(b - 1) then 0 else 1
  }

  function CodePoint(b: Byte): nat { if Printable(b) then b else 256 + Skipped(b) }

  /** UTF-8 for code points below 0x10000. */
  function Utf8(cp: nat): Bytes
    requires cp < 0x10000
  {
    if cp <= 0x7F then [cp]
    else if cp <= 0x7FF then [0xC0 + cp / 64, 0x80 + cp % 64]
    else [0xE0 + cp / 4096, 0x80 + cp / 64 % 64, 0x80 + cp % 64]
  }

  lemma SkippedValue(b: nat)
    requires b <= 256
    ensures Skipped(b) == if b <= 33 then b
                          else if b <= 127 then 33
                          else if b <= 161 then b - 94
                          else if b <= 173 then 67 else 68
  {
  }

  function Code(b: Byte): Bytes {
    SkippedValue(b);
    Utf8(CodePoint(b))
  }

  function PairCodePoint(hi: int, lo: int): int { (hi - 0xC0) * 64 + lo - 0x80 }

  /** Codes are one byte below 128, or a pair that says which code point it is. */
  lemma CodeShape(b: Byte)
    ensures var c := Code(b);
            && (Printable(b) && b < 128 ==> c == [b])
            && (!(Printable(b) && b < 128) ==>
                  |c| == 2 && c[0] >= 0xC0 && CodePoint(b) == PairCodePoint(c[0], c[1]))
  {
    SkippedValue(b);
  }

  lemma CodePointsDiffer(a: Byte, b: Byte)
    requires a != b
    ensures CodePoint(a) != CodePoint(b)
  {
    SkippedValue(a);
    SkippedValue(b);
  }

  /** No code is a prefix of another: at most one can match, whatever the order of trying. */
  lemma PrefixFree(a: Byte, b: Byte, s: Bytes)
    requires Code(a) <= s && Code(b) <= s
    ensures a == b
  {
    CodeShape(a);
    CodeShape(b);
    assert s[0] == Code(a)[0] == Code(b)[0];
    assert |Code(a)| == 2 == |Code(b)| ==> s[1] == Code(a)[1] == Code(b)[1];
    if a != b { CodePointsDiffer(a, b); }
  }

  method PrintableBytes() returns (bs: seq<nat>)
    ensures forall i :: 0 <= i < |bs| ==> Printable(bs[i])
    ensures forall x: nat :: x < 256 && Printable(x) ==> x in bs
  {
    bs := [];
    var c := '!' as int;
    while c <= '~' as int
      invariant '!' as int <= c <= '~' as int + 1
      invariant |bs| == c - '!' as int && forall i :: 0 <= i < |bs| ==> bs[i] == '!' as int + i
    {
      bs := bs + [c];
      c := c + 1;
    }
    c := 0xA1;
    while c <= 0xAC
      invariant 0xA1 <= c <= 0xAD
      invariant |bs| == 94 + c - 0xA1
      invariant forall i :: 0 <= i < |bs| ==> bs[i] == if i < 94 then 33 + i else 0xA1 + i - 94
    {
      bs := bs + [c];
      c := c + 1;
    }
    c := 0xAE;
    while c <= 0xFF
      invariant 0xAE <= c <= 0x100
      invariant |bs| == 106 + c - 0xAE
      invariant forall i :: 0 <= i < |bs| ==>
                  bs[i] == if i < 94 then 33 + i else if i < 106 then 0xA1 + i - 94 else 0xAE + i - 106
    {
      bs := bs + [c];
      c := c + 1;
    }
    forall x: nat | x < 256 && Printable(x) ensures x in bs {
      assert bs[if x <= 126 then x - 33 else if x <= 0xAC then x - 0xA1 + 94 else x - 0xAE + 106] == x;
    }
  }

  lemma SkippedStep(b: Byte)
    ensures Skipped(b + 1) == Skipped(b) + if Printable(b) then 0 else 1
    ensures CodePoint(b) == if Printable(b) then b else 256 + Skipped(b)
  {
  }

  /** The printable bytes and then, in order, the others with the code points from 256 on. */
  method BytesAndCodePoints() returns (bs: seq<nat>, cs: seq<nat>)
    ensures |bs| == |cs| && forall i :: 0 <= i < |bs| ==> bs[i] < 256 && cs[i] == CodePoint(bs[i])
    ensures forall b: Byte :: b in bs
  {
    bs := PrintableBytes();
    assert forall i :: 0 <= i < |bs| ==> CodePoint(bs[i]) == bs[i];
    hide Printable, CodePoint;
    cs := bs;
    var n := 0;
    for b := 0 to 256
      invariant |bs| == |cs|
      invariant forall i :: 0 <= i < |bs| ==> bs[i] < 256 && cs[i] == CodePoint(bs[i])
      invariant forall x: nat :: x < b || (x < 256 && Printable(x)) ==> x in bs
      invariant forall x :: x in bs ==> Printable(x) || x < b
      invariant n == Skipped(b)
    {
      SkippedStep(b);
      if b !in bs {
        bs := bs + [b];
        cs := cs + [256 + n];
        n := n + 1;
      }
    }
  }

  method ByteAlphabet() returns (out: seq<Bytes>)
    ensures |out| == 256 && forall b: Byte :: out[b] == Code(b)
  {
    hide Code, CodePoint;
    var bs, cs := BytesAndCodePoints();
    out := FillCodes(bs, cs);
    forall b: Byte ensures out[b] == Code(b) {
      assert b in bs;
    }
  }

  method FillCodes(bs: seq<nat>, cs: seq<nat>) returns (out: seq<Bytes>)
    requires |bs| == |cs| && forall i :: 0 <= i < |bs| ==> bs[i] < 256 && cs[i] == CodePoint(bs[i])
    ensures |out| == 256 && forall j :: 0 <= j < |bs| ==> out[bs[j]] == Code(bs[j])
  {
    hide Code, Utf8, CodePoint, Printable, Skipped;
    out := seq(256, i => []);
    for i := 0 to |bs|
      invariant |out| == 256
      invariant forall j :: 0 <= j < i ==> out[bs[j]] == Code(bs[j])
    {
      CodeIs(bs[i]);
      out := out[bs[i] := Utf8(cs[i])];
    }
  }

  lemma CodeIs(b: Byte)
    ensures CodePoint(b) < 0x10000 && Code(b) == Utf8(CodePoint(b))
  {
    hide Utf8;
    SkippedValue(b);
  }

  // ----- decoding one token's text -----

  ghost predicate Matches(p: Bytes) { exists b: Byte :: Code(b) <= p }

  /** Codes give their byte, anything else is taken over as it is. */
  ghost function Decoded(p: Bytes): Bytes {
    if p == [] then []
    else if Matches(p) then
      var b: Byte :| Code(b) <= p;
      CodeShape(b);
      [b] + Decoded(p[|Code(b)|..])
    else [p[0]] + Decoded(p[1..])
  }

  function CodePieces(x: Bytes): seq<Bytes> { if x == [] then [] else [Code(x[0])] + CodePieces(x[1..]) }

  function Codes(x: Bytes): Bytes { Concat(CodePieces(x)) }

  lemma DecodedStep(b: Byte, rest: Bytes)
    ensures Decoded(Code(b) + rest) == [b] + Decoded(rest)
  {
    var p := Code(b) + rest;
    CodeShape(b);
    assert Code(b) <= p && Matches(p);
    var c: Byte :| Code(c) <= p && Decoded(p) == [c] + Decoded(p[|Code(c)|..]);
    PrefixFree(b, c, p);
    assert p[|Code(b)|..] == rest;
  }

  lemma {:induction false} DecodesCodes(x: Bytes, rest: Bytes)
    ensures Decoded(Codes(x) + rest) == x + Decoded(rest)
    decreases |x|
  {
    hide Code, Decoded, Codes;
    if x == [] {
      NoCodes();
      assert [] + rest == rest && x + Decoded(rest) == Decoded(rest);
    } else {
      var c, t, d := Code(x[0]), Codes(x[1..]), Decoded(rest);
      CodesStep(x);
      assert (c + t) + rest == c + (t + rest);
      DecodedStep(x[0], t + rest);
      DecodesCodes(x[1..], rest);
      assert x == [x[0]] + x[1..];
      assert [x[0]] + (x[1..] + d) == ([x[0]] + x[1..]) + d;
    }
  }

  lemma NoCodes()
    ensures Codes([]) == []
  {
  }

  /** A sequence of whole codes. */
  ghost predicate Coded(p: Bytes) { p == Codes(Decoded(p)) }

  lemma CodesAreCoded(x: Bytes)
    ensures Coded(Codes(x)) && Decoded(Codes(x)) == x
  {
    DecodesCodes(x, []);
    assert Codes(x) + [] == Codes(x) && x + [] == x && Decoded([]) == [];
  }

  lemma {:induction false} CodesAppend(x: Bytes, y: Bytes)
    ensures Codes(x + y) == Codes(x) + Codes(y)
    decreases |x|
  {
    hide Code, Codes;
    if x == [] {
      NoCodes();
      assert x + y == y;
    } else {
      assert (x + y)[1..] == x[1..] + y;
      CodesAppend(x[1..], y);
      CodesStep(x);
      CodesStep(x + y);
      assert (x + y)[0] == x[0];
      var c, t, u := Code(x[0]), Codes(x[1..]), Codes(y);
      assert c + (t + u) == c + t + u;
    }
  }

  lemma CodesStep(x: Bytes)
    requires x != []
    ensures Codes(x) == Code(x[0]) + Codes(x[1..])
  {
    hide Code;
    assert CodePieces(x)[1..] == CodePieces(x[1..]);
  }

  lemma CodedAppend(p: Bytes, q: Bytes)
    requires Coded(p)
    ensures Decoded(p + q) == Decoded(p) + Decoded(q)
    ensures Coded(q) ==> Coded(p + q)
  {
    DecodesCodes(Decoded(p), q);
    CodesAppend(Decoded(p), Decoded(q));
  }

  lemma {:induction false} DecodedPieces(pieces: seq<Bytes>)
    requires forall i :: 0 <= i < |pieces| ==> Coded(pieces[i])
    ensures Decoded(Concat(pieces)) == Concat(Decodings(pieces))
    decreases |pieces|
  {
    if pieces != [] {
      CodedAppend(pieces[0], Concat(pieces[1..]));
      DecodedPieces(pieces[1..]);
      assert Decodings(pieces)[1..] == Decodings(pieces[1..]);
    }
  }

  ghost function Decodings(pieces: seq<Bytes>): seq<Bytes> {
    if pieces == [] then [] else [Decoded(pieces[0])] + Decodings(pieces[1..])
  }

  predicate StartsWithAt(s: Bytes, pos: nat, prefix: Bytes) {
    pos + |prefix| <= |s| && s[pos..pos + |prefix|] == prefix
  }

  /** The decoder's table, tried in any order: `order` is the hash table's. */
  method MatchAt(piece: Bytes, i: nat, order: seq<Byte>) returns (matched: bool, b: Byte)
    requires i <= |piece| && forall b: Byte :: b in order
    ensures matched ==> StartsWithAt(piece, i, Code(b))
    ensures !matched ==> !Matches(piece[i..])
  {
    hide Code;
    matched, b := false, 0;
    for k := 0 to |order|
      invariant !matched && forall j :: 0 <= j < k ==> !(Code(order[j]) <= piece[i..])
    {
      b := order[k];
      if StartsWithAt(piece, i, Code(b)) { return true, b; }
      NotAPrefix(piece, i, Code(b));
    }
    NothingMatches(piece[i..], order);
  }

  method DecodePiece(piece: Bytes, order: seq<Byte>) returns (out: Bytes)
    requires forall b: Byte :: b in order
    ensures out == Decoded(piece)
  {
    hide Code, Decoded, Matches;
    out := [];
    var i := 0;
    assert piece[0..] == piece;
    assert [] + Decoded(piece) == Decoded(piece);
    while i < |piece|
      invariant 0 <= i <= |piece|
      invariant Decoded(piece) == out + Decoded(piece[i..])
      decreases |piece| - i
    {
      var matched, b := MatchAt(piece, i, order);
      DecodedAt(piece, i, matched, b, out);
      if matched {
        out := out + [b];
        i := i + |Code(b)|;
      } else {
        out := out + [piece[i]];
        i := i + 1;
      }
    }
    DecodedNothing();
    assert piece[i..] == [];
  }

  lemma DecodedNothing()
    ensures Decoded([]) == []
  {
  }

  lemma DecodedAt(piece: Bytes, i: nat, matched: bool, b: Byte, out: Bytes)
    requires i < |piece|
    requires if matched then StartsWithAt(piece, i, Code(b)) else !Matches(piece[i..])
    ensures Code(b) != []
    ensures out + Decoded(piece[i..])
         == if matched then (out + [b]) + Decoded(piece[i + |Code(b)|..])
           else (out + [piece[i]]) + Decoded(piece[i + 1..])
  {
    hide Code, Matches;
    CodeNotEmpty(b);
    if matched {
      hide Decoded;
      var rest := piece[i + |Code(b)|..];
      assert piece[i..] == piece[i..i + |Code(b)|] + rest;
      DecodedStep(b, rest);
      assert out + ([b] + Decoded(rest)) == (out + [b]) + Decoded(rest);
    } else {
      var rest := piece[i + 1..];
      assert piece[i..][1..] == rest;
      assert Decoded(piece[i..]) == [piece[i]] + Decoded(rest);
      assert out + ([piece[i]] + Decoded(rest)) == (out + [piece[i]]) + Decoded(rest);
    }
  }

  lemma CodeNotEmpty(b: Byte)
    ensures Code(b) != []
  {
  }

  lemma NotAPrefix(s: Bytes, i: nat, c: Bytes)
    requires i <= |s| && !StartsWithAt(s, i, c)
    ensures !(c <= s[i..])
  {
    if i + |c| <= |s| { assert s[i..][..|c|] == s[i..i + |c|]; }
  }

  lemma NothingMatches(p: Bytes, order: seq<Byte>)
    requires forall b: Byte :: b in order
    requires forall j :: 0 <= j < |order| ==> !(Code(order[j]) <= p)
    ensures !Matches(p)
  {
    forall b: Byte ensures !(Code(b) <= p) { assert b in order; }
  }

  // ----- what decoding does to any text -----

  /** A code, or a byte with which no code begins. */
  datatype Item = Coding(b: Byte) | Bare(b: Byte)

  function ItemText(i: Item): Bytes { if i.Coding? then Code(i.b) else [i.b] }

  function ItemsText(items: seq<Item>): Bytes {
    if items == [] then [] else ItemText(items[0]) + ItemsText(items[1..])
  }

  /** No code begins where a bare byte stands. */
  ghost predicate Separated(items: seq<Item>) {
    items == [] || ((items[0].Bare? ==> !Matches(ItemsText(items))) && Separated(items[1..]))
  }

  function Values(items: seq<Item>): Bytes { seq(|items|, i requires 0 <= i < |items| => items[i].b) }

  lemma {:induction false} CutItems(p: Bytes) returns (items: seq<Item>)
    ensures ItemsText(items) == p && Separated(items)
    decreases |p|
  {
    hide Code;
    if p == [] {
      items := [];
    } else if Matches(p) {
      var b: Byte :| Code(b) <= p;
      CodeNotEmpty(b);
      var rest := CutItems(p[|Code(b)|..]);
      items := [Coding(b)] + rest;
      assert items[1..] == rest && p == Code(b) + p[|Code(b)|..];
    } else {
      var rest := CutItems(p[1..]);
      items := [Bare(p[0])] + rest;
      assert items[1..] == rest && p == [p[0]] + p[1..];
    }
  }

  lemma {:induction false} DecodesItems(items: seq<Item>)
    requires Separated(items)
    ensures Decoded(ItemsText(items)) == Values(items)
    decreases |items|
  {
    hide Code, Decoded;
    if items == [] {
      DecodedNothing();
    } else {
      DecodesItems(items[1..]);
      assert Values(items) == [items[0].b] + Values(items[1..]);
      if items[0].Coding? {
        DecodedStep(items[0].b, ItemsText(items[1..]));
      } else {
        BareStays(items[0].b, ItemsText(items[1..]));
      }
    }
  }

  lemma BareStays(b: Byte, rest: Bytes)
    requires !Matches([b] + rest)
    ensures Decoded([b] + rest) == [b] + Decoded(rest)
  {
    assert ([b] + rest)[1..] == rest;
  }

  /** Decoding turns every code into its byte and leaves every byte alone with which no code begins. */
  lemma DecodedExactly(p: Bytes, r: Bytes)
    ensures r == Decoded(p) <==> exists items :: ItemsText(items) == p && Separated(items) && r == Values(items)
  {
    hide Decoded, Separated, ItemsText;
    var own := CutItems(p);
    DecodesItems(own);
    forall items | ItemsText(items) == p && Separated(items) && r == Values(items) ensures r == Decoded(p) {
      DecodesItems(items);
    }
  }

  /** The byte-level alphabet: printable bytes stand for themselves, the others in order for the code
      points from 256 on. */
  lemma CodesAreTheAlphabet(b: Byte)
    ensures 33 <= b <= 126 ==> Code(b) == [b]
    ensures 161 <= b <= 172 || 174 <= b ==> Code(b) == [192 + b / 64, 128 + b % 64]
    ensures b <= 32 ==> Code(b) == [196, 128 + b]
    ensures 127 <= b <= 157 ==> Code(b) == [196, 128 + b - 94]
    ensures 158 <= b <= 160 ==> Code(b) == [197, 128 + b - 158]
    ensures b == 173 ==> Code(b) == [197, 131]
  {
    SkippedValue(b);
  }
}
