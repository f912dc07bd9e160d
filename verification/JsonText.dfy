/** The three text-level helpers around json_lite: the escaper, the bracket scanner that cuts an
    array out of a request body, and the flattener that keeps a request on one line. All three are
    measured against the parser. */
module JsonText {
  import opened Texts
  import opened Json

  // ----- json_escape -----

  function HexDigit(n: int): char
    requires 0 <= n < 16
  { "0123456789abcdef"[n] }

  /** What json_escape writes for one byte, as a string unit. */
  function UnitOf(c: char): Unit {
    if c == '"' then Esc('"')
    else if c == '\\' then Esc('\\')
    else if c == '\U{8}' then Esc('b')
    else if c == '\U{c}' then Esc('f')
    else if c == '\n' then Esc('n')
    else if c == '\r' then Esc('r')
    else if c == '\t' then Esc('t')
    else if c < ' ' then Hex("00" + [HexDigit(c as int / 16), HexDigit(c as int % 16)])
    else Raw(c)
  }

  function UnitsOf(s: string): seq<Unit> { if s == "" then [] else [UnitOf(s[0])] + UnitsOf(s[1..]) }

  function Escape(s: string): string { UnitsText(UnitsOf(s)) }

  lemma {:induction false} UnitsTextAppend(a: seq<Unit>, b: seq<Unit>)
    ensures UnitsText(a + b) == UnitsText(a) + UnitsText(b)
    decreases |a|
  {
    if a == [] {
      assert a + b == b;
    } else {
      assert (a + b)[1..] == a[1..] + b;
      UnitsTextAppend(a[1..], b);
    }
  }

  lemma {:induction false} UnitsOfAppend(a: string, b: string)
    ensures UnitsOf(a + b) == UnitsOf(a) + UnitsOf(b)
    decreases |a|
  {
    if a == "" {
      assert a + b == b;
    } else {
      assert (a + b)[1..] == a[1..] + b;
      UnitsOfAppend(a[1..], b);
    }
  }

  lemma EscapeStep(s: string, i: nat)
    requires i < |s|
    ensures Escape(s[..i + 1]) == Escape(s[..i]) + UnitText(UnitOf(s[i]))
  {
    hide UnitOf, UnitText;
    var c := s[i];
    assert s[..i + 1] == s[..i] + [c];
    UnitsOfAppend(s[..i], [c]);
    assert UnitsOf([c]) == [UnitOf(c)] + UnitsOf([c][1..]) == [UnitOf(c)];
    UnitsTextAppend(UnitsOf(s[..i]), [UnitOf(c)]);
    assert UnitsText([UnitOf(c)]) == UnitText(UnitOf(c)) + UnitsText([UnitOf(c)][1..]) == UnitText(UnitOf(c));
  }

  lemma EscapeNothing()
    ensures Escape("") == ""
  {
  }

  method JsonEscape(s: string) returns (out: string)
    ensures out == Escape(s)
  {
    hide Escape;
    out := "";
    EscapeNothing();
    for i := 0 to |s|
      invariant out == Escape(s[..i])
    {
      var c := s[i];
      ghost var before := out;
      if c == '"' { out := out + "\\\""; }
      else if c == '\\' { out := out + "\\\\"; }
      else if c == '\U{8}' { out := out + "\\b"; }
      else if c == '\U{c}' { out := out + "\\f"; }
      else if c == '\n' { out := out + "\\n"; }
      else if c == '\r' { out := out + "\\r"; }
      else if c == '\t' { out := out + "\\t"; }
      else if c < ' ' { out := out + "\\u00" + [HexDigit(c as int / 16), HexDigit(c as int % 16)]; }
      else { out := out + [c]; }
      assert out == before + UnitText(UnitOf(c));
      EscapeStep(s, i);
    }
    assert s[..|s|] == s;
  }

  /** The characters json_lite cannot read back: control characters without a short escape. */
  predicate Lossy(c: char) { c < ' ' && c !in ['\U{8}', '\U{c}', '\n', '\r', '\t'] }

  function Readable(s: string): string {
    if s == "" then "" else [if Lossy(s[0]) then '?' else s[0]] + Readable(s[1..])
  }

  lemma EscapedUnit(c: char)
    ensures GoodUnit(UnitOf(c)) && UnitValue(UnitOf(c)) == (if Lossy(c) then '?' else c)
  {
    if c < ' ' {
      assert GoodUnit(UnitOf(c)) by { EscapedControl(c); }
      assert UnitValue(UnitOf(c)) == (if Lossy(c) then '?' else c);
    } else {
      assert ESCAPABLE[0] == '"' && ESCAPABLE[1] == '\\';
    }
  }

  lemma EscapedControl(c: char)
    requires c < ' '
    ensures GoodUnit(UnitOf(c))
  {
    assert ESCAPABLE[3] == 'b' && ESCAPABLE[4] == 'f' && ESCAPABLE[5] == 'n' && ESCAPABLE[6] == 'r'
      && ESCAPABLE[7] == 't';
    DigitIsHex(c as int / 16);
    DigitIsHex(c as int % 16);
  }

  function HexDigitValue(c: char): int {
    if '0' <= c <= '9' then c as int - '0' as int else if 'a' <= c <= 'f' then c as int - 'a' as int + 10 else 0
  }

  /** The number hexadecimal digits stand for. */
  function HexValue(h: string): int {
    if h == "" then 0 else 16 * HexValue(h[..|h| - 1]) + HexDigitValue(h[|h| - 1])
  }

  lemma HexOneMore(h: string, c: char)
    ensures HexValue(h + [c]) == 16 * HexValue(h) + HexDigitValue(c)
  {
    assert (h + [c])[..|h|] == h;
  }

  /** A character written as \u is written with its own code. */
  lemma HexIsTheCode(c: char)
    requires UnitOf(c).Hex?
    ensures |UnitOf(c).h| == 4 && HexValue(UnitOf(c).h) == c as int
  {
    var x, y := HexDigit(c as int / 16), HexDigit(c as int % 16);
    assert UnitOf(c).h == "00" + [x, y];
    DigitValue(c as int / 16);
    DigitValue(c as int % 16);
    hide UnitOf, HexValue, HexDigit;
    HexOfFour('0', '0', x, y);
  }

  lemma HexOfFour(w: char, v: char, x: char, y: char)
    ensures HexValue([w, v] + [x, y])
         == 4096 * HexDigitValue(w) + 256 * HexDigitValue(v) + 16 * HexDigitValue(x) + HexDigitValue(y)
  {
    NoHexDigits();
    hide HexValue, HexDigitValue;
    assert [w, v] + [x, y] == "" + [w] + [v] + [x] + [y];
    HexOneMore("", w);
    HexOneMore("" + [w], v);
    HexOneMore("" + [w] + [v], x);
    HexOneMore("" + [w] + [v] + [x], y);
  }

  lemma NoHexDigits()
    ensures HexValue("") == 0
  {
  }

  lemma DigitValue(n: int)
    requires 0 <= n < 16
    ensures HexDigit(n) == if n < 10 then ('0' as int + n) as char else ('a' as int + n - 10) as char
  {
  }

  lemma DigitIsHex(n: int)
    requires 0 <= n < 16
    ensures IsHex(HexDigit(n))
  {
  }

  lemma {:induction false} EscapedUnits(s: string)
    ensures GoodUnits(UnitsOf(s)) && UnitsValue(UnitsOf(s)) == Readable(s)
    decreases |s|
  {
    hide UnitOf, GoodUnit, UnitValue, Lossy;
    if s != "" {
      EscapedUnit(s[0]);
      EscapedUnits(s[1..]);
      assert UnitsOf(s)[1..] == UnitsOf(s[1..]);
    }
  }

  lemma {:induction false} ReadableExactly(s: string)
    ensures Readable(s) == s <==> forall i :: 0 <= i < |s| ==> !Lossy(s[i])
    decreases |s|
  {
    if s != "" {
      ReadableExactly(s[1..]);
      assert forall i :: 1 <= i < |s| ==> s[i] == s[1..][i - 1];
      assert s == [s[0]] + s[1..];
      assert Readable(s)[1..] == Readable(s[1..]);
    }
  }

  /** An escaped string always parses, and it parses back to itself exactly when it has no control
      character other than \b, \f, \n, \r and \t; any other comes back as a question mark. */
  lemma EscapeRoundTrip(s: string)
    ensures Parse("\"" + Escape(s) + "\"") == Some(Str(Readable(s)))
    ensures Parse("\"" + Escape(s) + "\"") == Some(Str(s)) <==> forall i :: 0 <= i < |s| ==> !Lossy(s[i])
  {
    hide Parse, Escape, UnitsOf, UnitsText, Readable, UnitsValue, GoodUnits, Lossy;
    EscapedUnits(s);
    EveryTextParses("", DStr(UnitsOf(s)), "");
    EscapeIsText(s);
    assert "" + Text(DStr(UnitsOf(s))) + "" == "\"" + Escape(s) + "\"";
    ReadableExactly(s);
  }

  lemma EscapeIsText(s: string)
    ensures Text(DStr(UnitsOf(s))) == "\"" + Escape(s) + "\""
  {
    hide UnitsOf, UnitsText;
  }

  // ----- inside or outside a string -----

  datatype Lex = Lex(inStr: bool, esc: bool)

  const OUTSIDE := Lex(false, false)

  /** The string and escape flags that the scanner and the flattener both keep. */
  function LexStep(l: Lex, c: char): Lex {
    if l.esc then l.(esc := false)
    else if c == '\\' && l.inStr then l.(esc := true)
    else if c == '"' then l.(inStr := !l.inStr)
    else l
  }

  /** Read from its beginning, a text ends inside a string: quotes open and close strings, save those
      escaped in one. */
  predicate InString(s: string)
    decreases |s|
  {
    s != "" && if s[|s| - 1] == '"' && !EndsEscaping(s[..|s| - 1]) then !InString(s[..|s| - 1])
               else InString(s[..|s| - 1])
  }

  /** The text ends in a backslash that escapes what comes next: one in a string, not escaped itself. */
  predicate EndsEscaping(s: string)
    decreases |s|
  {
    s != "" && s[|s| - 1] == '\\' && InString(s[..|s| - 1]) && !EndsEscaping(s[..|s| - 1])
  }

  function LexOf(s: string): Lex { Lex(InString(s), EndsEscaping(s)) }

  lemma EscapedIsInString(s: string)
    ensures EndsEscaping(s) ==> InString(s)
  {
  }

  // ----- the bracket scanner -----

  /** `Hit`: the scanner has found its closing bracket. */
  datatype Walk = Hit | Open(depth: int, lex: Lex)

  function WalkStep(w: Walk, c: char): Walk {
    if w.Hit? then Hit
    else
      var l := LexStep(w.lex, c);
      if w.lex.esc || w.lex.inStr || c == '"' then Open(w.depth, l)
      else if c == '[' || c == '{' then Open(w.depth + 1, l)
      else if c == ']' || c == '}' then if w.depth == 1 && c == ']' then Hit else Open(w.depth - 1, l)
      else Open(w.depth, l)
  }

  function Walked(w: Walk, s: string): Walk
    decreases |s|
  {
    if s == "" then w else Walked(WalkStep(w, s[0]), s[1..])
  }

  lemma {:induction false} WalkedAppend(w: Walk, a: string, b: string)
    ensures Walked(w, a + b) == Walked(Walked(w, a), b)
    decreases |a|
  {
    if a == "" {
      assert a + b == b;
    } else {
      assert (a + b)[1..] == a[1..] + b;
      WalkedAppend(WalkStep(w, a[0]), a[1..], b);
    }
  }

  /** The index just behind the bracket that ends the scan started at p. */
  function ScanEnd(body: string, p: nat, w: Walk): Option<nat>
    requires p <= |body| && w.Open?
    decreases |body| - p
  {
    if p == |body| then None
    else if WalkStep(w, body[p]).Hit? then Some(p + 1)
    else ScanEnd(body, p + 1, WalkStep(w, body[p]))
  }

  /** `extract_messages_json` and `extract_tools_json`: they differ in the key and in what they
      return when there is no array. */
  function Extracted(body: string, key: string, otherwise: string): string {
    var at := Find(body, key, 0);
    if at < 0 then otherwise
    else
      var p := Find(body, "[", at);
      if p < 0 then otherwise
      else match ScanEnd(body, p, Open(0, OUTSIDE)) case Some(e) => Slice(body, p, e) case None => otherwise
  }

  function Slice(body: string, p: int, e: int): string {
    if 0 <= p <= e <= |body| then body[p..e] else ""
  }

  lemma {:induction false} ScanEndBound(body: string, p: nat, w: Walk)
    requires p <= |body| && w.Open?
    ensures var e := ScanEnd(body, p, w); e.Some? ==> p < e.value <= |body|
    decreases |body| - p
  {
    if p < |body| && WalkStep(w, body[p]).Open? { ScanEndBound(body, p + 1, WalkStep(w, body[p])); }
  }

  method Extract(body: string, key: string, otherwise: string) returns (r: string)
    ensures r == Extracted(body, key, otherwise)
  {
    var at := Find(body, key, 0);
    if at < 0 { return otherwise; }
    var pos := Find(body, "[", at);
    if pos < 0 { return otherwise; }
    var depth, inStr, esc := 0, false, false;
    var i := pos;
    while i < |body|
      invariant pos <= i <= |body|
      invariant ScanEnd(body, pos, Open(0, OUTSIDE)) == ScanEnd(body, i, Open(depth, Lex(inStr, esc)))
      decreases |body| - i
    {
      var c := body[i];
      if esc { esc := false; }
      else if c == '\\' && inStr { esc := true; }
      else if c == '"' { inStr := !inStr; }
      else if inStr { }
      else if c == '[' || c == '{' { depth := depth + 1; }
      else if c == ']' || c == '}' {
        depth := depth - 1;
        if depth == 0 && c == ']' { return body[pos..i + 1]; }
      }
      i := i + 1;
    }
    return otherwise;
  }

  /** Brackets opened less brackets closed outside strings. */
  function Depth(s: string): int {
    if s == "" then 0
    else
      var front, c := s[..|s| - 1], s[|s| - 1];
      Depth(front)
      + if InString(front) then 0 else if c == '[' || c == '{' then 1 else if c == ']' || c == '}' then -1 else 0
  }

  /** A square bracket outside strings with which the brackets opened from p on are all closed. */
  predicate ClosesAt(body: string, p: nat, e: int) {
    p < e <= |body| && body[e - 1] == ']' && !InString(body[p..e - 1]) && Depth(body[p..e]) == 0
  }

  lemma OneMore(body: string, p: nat, i: nat)
    requires p <= i < |body|
    ensures Depth(body[p..i + 1])
         == Depth(body[p..i]) + (if InString(body[p..i]) then 0
                                 else if body[i] in ['[', '{'] then 1 else if body[i] in [']', '}'] then -1 else 0)
    ensures LexOf(body[p..i + 1]) == LexStep(LexOf(body[p..i]), body[i])
  {
    assert body[p..i + 1] == body[p..i] + [body[i]];
    assert body[p..i + 1][..|body[p..i + 1]| - 1] == body[p..i];
  }

  /** The scan ends at the first bracket that closes, and without an end if there is none. */
  lemma {:induction false} ScanEndMeaning(body: string, p: nat, i: nat)
    requires p <= i <= |body| && forall d :: d <= i ==> !ClosesAt(body, p, d)
    ensures match ScanEnd(body, i, Open(Depth(body[p..i]), LexOf(body[p..i])))
            case Some(e) => ClosesAt(body, p, e) && forall d :: d < e ==> !ClosesAt(body, p, d)
            case None => forall d :: !ClosesAt(body, p, d)
    decreases |body| - i
  {
    if i < |body| {
      StepMeaning(body, p, i);
      hide Depth, LexOf, ClosesAt, WalkStep;
      if !ClosesAt(body, p, i + 1) { ScanEndMeaning(body, p, i + 1); }
    } else {
      assert forall d :: d > |body| ==> !ClosesAt(body, p, d);
    }
  }

  lemma StepMeaning(body: string, p: nat, i: nat)
    requires p <= i < |body|
    ensures WalkStep(Open(Depth(body[p..i]), LexOf(body[p..i])), body[i])
         == if ClosesAt(body, p, i + 1) then Hit else Open(Depth(body[p..i + 1]), LexOf(body[p..i + 1]))
  {
    OneMore(body, p, i);
    EscapedIsInString(body[p..i]);
    hide Depth, InString, EndsEscaping;
  }

  lemma NothingClosesBefore(body: string, p: nat)
    requires p < |body| && body[p] == '['
    ensures forall d :: d <= p ==> !ClosesAt(body, p, d)
  {
  }

  /** Nothing is cut out when the key does not occur, when no bracket stands at or behind its first
      occurrence, or when that bracket is never closed; anything else is cut from that bracket to
      the first that closes it. */
  lemma ExtractedMeaning(body: string, key: string, otherwise: string)
    ensures !Contains(body, key) ==> Extracted(body, key, otherwise) == otherwise
    ensures forall at: nat :: OccursAt(body, key, at) && (forall i :: 0 <= i < at ==> !OccursAt(body, key, i)) ==>
              BracketBehind(body, at, otherwise, Extracted(body, key, otherwise))
  {
    hide ScanEnd, ClosesAt;
    forall at: nat | OccursAt(body, key, at) && (forall i :: 0 <= i < at ==> !OccursAt(body, key, i))
      ensures BracketBehind(body, at, otherwise, Extracted(body, key, otherwise))
    {
      FindIs(body, key, 0, at);
      BracketDecides(body, at, otherwise);
    }
  }

  /** What is made of a body whose key first occurs at `at`. */
  ghost predicate BracketBehind(body: string, at: nat, otherwise: string, r: string) {
    && ((forall p :: at <= p < |body| ==> body[p] != '[') ==> r == otherwise)
    && forall p :: at <= p < |body| && body[p] == '[' && '[' !in body[at..p] ==>
         && ((forall e :: !ClosesAt(body, p, e)) ==> r == otherwise)
         && forall e :: ClosesAt(body, p, e) && (forall d :: d < e ==> !ClosesAt(body, p, d)) ==> r == body[p..e]
  }

  lemma FirstBracketFound(body: string, at: nat)
    ensures var p := Find(body, "[", at);
            && (p < 0 ==> forall q :: at <= q < |body| ==> body[q] != '[')
            && (p >= 0 ==> at <= p < |body| && body[p] == '[' && forall q :: at <= q < p ==> body[q] != '[')
  {
    forall q | at <= q < |body| ensures body[q] == '[' <==> OccursAt(body, "[", q) {
      assert body[q..q + 1] == [body[q]];
    }
  }

  lemma ScanFromBracket(body: string, p: nat)
    requires p < |body| && body[p] == '['
    ensures match ScanEnd(body, p, Open(0, OUTSIDE))
            case Some(e) => p < e <= |body| && ClosesAt(body, p, e) && forall d :: d < e ==> !ClosesAt(body, p, d)
            case None => forall d :: !ClosesAt(body, p, d)
  {
    NothingClosesBefore(body, p);
    assert body[p..p] == "" && LexOf("") == OUTSIDE && Depth("") == 0;
    ScanEndMeaning(body, p, p);
  }

  lemma BracketDecides(body: string, at: nat, otherwise: string)
    ensures var p := Find(body, "[", at);
            BracketBehind(body, at, otherwise,
              if p < 0 then otherwise
              else match ScanEnd(body, p, Open(0, OUTSIDE)) case Some(e) => Slice(body, p, e) case None => otherwise)
  {
    hide ScanEnd, ClosesAt, Find, OccursAt;
    var found := Find(body, "[", at);
    FirstBracketFound(body, at);
    if found >= 0 {
      ScanFromBracket(body, found);
      forall p | found < p < |body| ensures '[' in body[at..p] { assert body[at..p][found - at] == '['; }
    }
  }

  /** Characters that leave scanner and flattener as they are, outside strings. */
  predicate Plain(s: string) {
    forall i :: 0 <= i < |s| ==> s[i] !in ['"', '[', ']', '{', '}', '\n', '\r', '\t']
  }

  lemma {:induction false} WalksCalm(w: Walk, s: string)
    requires w.Open? && w.lex == OUTSIDE
    requires forall i :: 0 <= i < |s| ==> s[i] !in ['"', '[', ']', '{', '}']
    ensures Walked(w, s) == w
    decreases |s|
  {
    if s != "" { WalksCalm(w, s[1..]); }
  }

  lemma {:induction false} WalksUnits(w: Walk, us: seq<Unit>)
    requires w.Open? && w.lex == Lex(true, false) && GoodUnits(us)
    ensures Walked(w, UnitsText(us)) == w
    decreases |us|
  {
    if us != [] {
      WalkedAppend(w, UnitText(us[0]), UnitsText(us[1..]));
      WalksUnit(w, us[0]);
      WalksUnits(w, us[1..]);
    }
  }

  lemma WalksUnit(w: Walk, u: Unit)
    requires w.Open? && w.lex == Lex(true, false) && GoodUnit(u)
    ensures Walked(w, UnitText(u)) == w
  {
    match u {
      case Raw(c) => assert UnitText(u)[1..] == "";
      case Esc(e) => assert UnitText(u)[1..] == [e] && [e][1..] == "";
      case Hex(h) =>
        WalkedAppend(w, "\\u", h);
        assert "\\u"[1..] == "u" && "u"[1..] == "";
        assert h == [h[0], h[1], h[2], h[3]];
        HexWalk(w, h);
    }
  }

  lemma {:induction false} HexWalk(w: Walk, h: string)
    requires w.Open? && w.lex == Lex(true, false) && forall i :: 0 <= i < |h| ==> IsHex(h[i])
    ensures Walked(w, h) == w
    decreases |h|
  {
    if h != "" { HexWalk(w, h[1..]); }
  }

  lemma WalksQuoted(w: Walk, us: seq<Unit>)
    requires w.Open? && w.lex == OUTSIDE && GoodUnits(us)
    ensures Walked(w, Quoted(us)) == w
  {
    var inside := w.(lex := Lex(true, false));
    WalkedAppend(w, "\"" + UnitsText(us), "\"");
    WalkedAppend(w, "\"", UnitsText(us));
    assert "\""[1..] == "";
    assert Walked(w, "\"") == inside;
    WalksUnits(inside, us);
  }

  lemma NumberIsPlain(n: Number)
    requires GoodNumber(n)
    ensures Plain(NumberText(n))
  {
    var sign, mark := if n.neg then "-" else "", [n.expMark] + n.expSign;
    assert Plain(sign) && Plain(".") && Plain(mark) && Plain("");
    DigitsArePlain(n.whole);
    DigitsArePlain(n.frac);
    DigitsArePlain(n.exp);
    hide Plain, Digits;
    PlainAppend(".", n.frac);
    PlainAppend(mark, n.exp);
    var frac, exp := if n.frac == "" then "" else "." + n.frac, if n.exp == "" then "" else mark + n.exp;
    PlainAppend(sign, n.whole);
    PlainAppend(sign + n.whole, frac);
    PlainAppend(sign + n.whole + frac, exp);
  }

  lemma PlainAppend(a: string, b: string)
    requires Plain(a) && Plain(b)
    ensures Plain(a + b)
  {
  }

  lemma DigitsArePlain(s: string)
    requires Digits(s)
    ensures Plain(s)
  {
  }

  /** Scanning a whole value at any positive depth comes back to that depth without a hit. */
  lemma {:induction false} WalksValue(w: Walk, d: Doc)
    requires w.Open? && w.lex == OUTSIDE && w.depth >= 1 && Good(d)
    ensures Walked(w, Text(d)) == w
    decreases d, 1
  {
    hide Walked, MembersText, ElemsText;
    match d {
      case DNum(n) =>
        NumberIsPlain(n);
        WalksCalm(w, NumberText(n));
      case DStr(us) => WalksQuoted(w, us);
      case DArr(pad, es) =>
        var body := if es.NoElems? then pad else ElemsText(es);
        WalksArrayBody(w, d);
        WalksClose(w, body);
      case DObj(pad, ms) => WalksObject(w, d);
      case _ => WalksCalm(w, Text(d));
    }
  }

  lemma WalksClose(w: Walk, body: string)
    requires w.Open? && w.lex == OUTSIDE && w.depth >= 1 && Walked(w, "[" + body) == w.(depth := w.depth + 1)
    ensures Walked(w, "[" + body + "]") == w
  {
    var deeper := w.(depth := w.depth + 1);
    WalkedAppend(w, "[" + body, "]");
    assert "]"[1..] == "" && WalkStep(deeper, ']') == w;
    assert Walked(deeper, "]") == Walked(w, "");
  }

  lemma {:induction false} WalksObject(w: Walk, d: Doc)
    requires w.Open? && w.lex == OUTSIDE && w.depth >= 1 && d.DObj? && Good(d)
    ensures Walked(w, Text(d)) == w
    decreases d, 0
  {
    hide MembersText, ElemsText;
    var ms := d.members;
    var body := if ms.NoMembers? then d.pad else MembersText(ms);
    var deeper := w.(depth := w.depth + 1);
    assert deeper.Open? && deeper.lex == OUTSIDE && deeper.depth >= 1;
    assert Blank(d.pad) && GoodMembers(ms);
    WalkedAppend(w, "{" + body, "}");
    WalkedAppend(w, "{", body);
    WalksBraces(w);
    hide Walked, Good, GoodMembers, Blank;
    if ms.NoMembers? { WalksPad(deeper, d.pad); } else { WalksMembers(deeper, ms); }
  }

  lemma WalksOpening(w: Walk)
    requires w.Open? && w.lex == OUTSIDE && w.depth >= 0
    ensures Walked(w, "[") == w.(depth := w.depth + 1)
  {
    assert "["[1..] == "";
  }

  lemma WalksPad(w: Walk, pad: string)
    requires w.Open? && w.lex == OUTSIDE && Blank(pad)
    ensures Walked(w, pad) == w
  {
    WalksCalm(w, pad);
  }

  lemma WalksBraces(w: Walk)
    requires w.Open? && w.lex == OUTSIDE && w.depth >= 1
    ensures Walked(w, "{") == w.(depth := w.depth + 1) && Walked(w.(depth := w.depth + 1), "}") == w
  {
    assert "{"[1..] == "" && "}"[1..] == "";
  }

  /** An opening bracket and the array's body, from any depth. */
  lemma {:induction false} WalksArrayBody(w: Walk, d: Doc)
    requires w.Open? && w.lex == OUTSIDE && w.depth >= 0 && d.DArr? && Good(d)
    ensures Walked(w, "[" + (if d.elems.NoElems? then d.pad else ElemsText(d.elems))) == w.(depth := w.depth + 1)
    decreases d, 0
  {
    var body := if d.elems.NoElems? then d.pad else ElemsText(d.elems);
    var deeper := w.(depth := w.depth + 1);
    assert deeper.Open? && deeper.lex == OUTSIDE && deeper.depth >= 1;
    assert Blank(d.pad) && GoodElems(d.elems);
    WalkedAppend(w, "[", body);
    WalksOpening(w);
    hide Walked, Good, GoodElems, Blank;
    if d.elems.NoElems? { WalksPad(deeper, d.pad); } else { WalksElems(deeper, d.elems); }
  }

  lemma {:induction false} WalksElems(w: Walk, es: Elems)
    requires w.Open? && w.lex == OUTSIDE && w.depth >= 1 && es.Elem? && GoodElems(es)
    ensures Walked(w, ElemsText(es)) == w
    decreases es, 2
  {
    hide Walked, Text;
    var tail := if es.rest.NoElems? then "" else "," + ElemsText(es.rest);
    WalkedAppend(w, es.pre + Text(es.value) + es.post, tail);
    WalkedAppend(w, es.pre + Text(es.value), es.post);
    WalkedAppend(w, es.pre, Text(es.value));
    WalksCalm(w, es.pre);
    WalksValue(w, es.value);
    WalksCalm(w, es.post);
    WalksCalm(w, "");
    if es.rest.Elem? {
      WalkedAppend(w, ",", ElemsText(es.rest));
      WalksCalm(w, ",");
      WalksElems(w, es.rest);
    }
  }

  /** A member up to its value. */
  lemma WalksKey(w: Walk, ms: Members)
    requires w.Open? && w.lex == OUTSIDE && w.depth >= 1 && ms.Member? && GoodMembers(ms)
    ensures Walked(w, ms.pre + Quoted(ms.key) + ms.mid + ":" + ms.mid2) == w
  {
    assert Blank(ms.pre) && GoodUnits(ms.key) && Blank(ms.mid) && Blank(ms.mid2);
    hide *;
    var k := Quoted(ms.key);
    WalkedAppend(w, ms.pre + k + ms.mid + ":", ms.mid2);
    WalkedAppend(w, ms.pre + k + ms.mid, ":");
    WalkedAppend(w, ms.pre + k, ms.mid);
    WalkedAppend(w, ms.pre, k);
    WalksPad(w, ms.pre);
    WalksQuoted(w, ms.key);
    WalksPad(w, ms.mid);
    WalksCalm(w, ":");
    WalksPad(w, ms.mid2);
  }

  lemma MembersSpread(ms: Members)
    requires ms.Member?
    ensures MembersText(ms) == (ms.pre + Quoted(ms.key) + ms.mid + ":" + ms.mid2) + Text(ms.value) + ms.post
                               + if ms.rest.NoMembers? then "" else "," + MembersText(ms.rest)
  {
    hide Quoted, Text;
  }

  lemma {:induction false} WalksMembers(w: Walk, ms: Members)
    requires w.Open? && w.lex == OUTSIDE && w.depth >= 1 && ms.Member? && GoodMembers(ms)
    ensures Walked(w, MembersText(ms)) == w
    decreases ms, 2
  {
    assert Good(ms.value) && Blank(ms.post) && GoodMembers(ms.rest);
    MembersSpread(ms);
    hide *;
    var tail := if ms.rest.NoMembers? then "" else "," + MembersText(ms.rest);
    var key, v := ms.pre + Quoted(ms.key) + ms.mid + ":" + ms.mid2, Text(ms.value);
    WalkedAppend(w, key + v + ms.post, tail);
    WalkedAppend(w, key + v, ms.post);
    WalkedAppend(w, key, v);
    WalksKey(w, ms);
    WalksValue(w, ms.value);
    WalksPad(w, ms.post);
    WalksCalm(w, "");
    if ms.rest.Member? {
      WalkedAppend(w, ",", MembersText(ms.rest));
      WalksCalm(w, ",");
      WalksMembers(w, ms.rest);
    }
  }

  lemma {:induction false} ScanFollowsWalk(body: string, p: nat, w: Walk, s: string)
    requires At(body, s, p) && w.Open? && Walked(w, s).Open?
    ensures p + |s| <= |body| && ScanEnd(body, p, w) == ScanEnd(body, p + |s|, Walked(w, s))
    decreases |s|
  {
    if s != "" {
      if WalkStep(w, s[0]).Hit? { StaysHit(s[1..]); }
      ScanFollowsWalk(body, p + 1, WalkStep(w, s[0]), s[1..]);
    }
  }

  lemma {:induction false} StaysHit(s: string)
    ensures Walked(Hit, s) == Hit
    decreases |s|
  {
    if s != "" { StaysHit(s[1..]); }
  }

  lemma ScanCloses(body: string, q: nat)
    requires At(body, "]", q)
    ensures q < |body| && ScanEnd(body, q, Open(1, OUTSIDE)) == Some(q + 1)
  {
  }

  /** Started at an array's opening bracket, the scanner stops exactly where the parser does. */
  lemma ScanEndsWithTheArray(body: string, p: nat, d: Doc)
    requires Good(d) && d.DArr? && At(body, Text(d), p)
    ensures ScanEnd(body, p, Open(0, OUTSIDE)) == Some(p + |Text(d)|)
    ensures ParseValue(body, p) == Ok(Denote(d), p + |Text(d)|)
  {
    var inner := if d.elems.NoElems? then d.pad else ElemsText(d.elems);
    assert Text(d) == "[" + inner + "]";
    WalksArrayBody(Open(0, OUTSIDE), d);
    ParsesWholeArray(body, p, d);
    hide Walked, ElemsText, ParseValue, ScanEnd, Denote, Good, At, Text;
    AtSplit(body, p, "[" + inner, "]");
    ScanFollowsWalk(body, p, Open(0, OUTSIDE), "[" + inner);
    ScanCloses(body, p + |"[" + inner|);
  }

  lemma ParsesWholeArray(body: string, p: nat, d: Doc)
    requires Good(d) && d.DArr? && At(body, Text(d), p)
    ensures p <= |body| && ParseValue(body, p) == Ok(Denote(d), p + |Text(d)|)
  {
    hide ElemsText, ParseValue, Denote;
    GoodIsLenient(d);
    FirstOfText(d);
    ParsesArray(body, p, d);
  }

  lemma FirstBracket(before: string, key: string, gap: string, found: string, after: string)
    requires found != "" && found[0] == '[' && '[' !in key && '[' !in gap
    ensures Find(before + key + gap + found + after, "[", |before|) == |before| + |key| + |gap|
  {
    var body := before + key + gap + found + after;
    var k, p := |before|, |before| + |key| + |gap|;
    assert body[p] == found[0] && body[p..p + 1] == "[";
    forall i | k <= i < p ensures !OccursAt(body, "[", i) {
      assert body[i] == (key + gap)[i - k];
      assert body[i..i + 1][0] != '[';
    }
    FindIs(body, "[", k, p);
  }

  /** Where the key and the array behind it stand. */
  lemma ArrayStands(before: string, key: string, gap: string, d: Doc, after: string)
    requires Good(d) && d.DArr? && '[' !in key && '[' !in gap
    requires forall i :: i < |before| ==> !OccursAt(before + key + gap + Text(d) + after, key, i)
    ensures var body, p := before + key + gap + Text(d) + after, |before| + |key| + |gap|;
            && Find(body, key, 0) == |before| && Find(body, "[", |before|) == p
            && p + |Text(d)| <= |body| && body[p..p + |Text(d)|] == Text(d) && At(body, Text(d), p)
  {
    hide Good, Text, Find, At;
    var body, p := before + key + gap + Text(d) + after, |before| + |key| + |gap|;
    FindIs(body, key, 0, |before|);
    GoodIsLenient(d);
    FirstOfText(d);
    FirstBracket(before, key, gap, Text(d), after);
    assert body == (before + key + gap) + Text(d) + after;
    AtIsSlice(body, Text(d), p);
  }

  /** What is cut out of a request body is the text of the first array after the first occurrence
      of the quoted key, and the parser reads that text as the array it is. Nothing makes that
      occurrence the key of the top-level member: `gap` may be anything without a bracket. */
  lemma ExtractsFirstArray(before: string, key: string, gap: string, d: Doc, after: string, otherwise: string)
    requires Good(d) && d.DArr?
    requires '[' !in key && '[' !in gap
    requires forall i :: i < |before| ==> !OccursAt(before + key + gap + Text(d) + after, key, i)
    ensures var body := before + key + gap + Text(d) + after;
            Extracted(body, key, otherwise) == Text(d) && Parse(Extracted(body, key, otherwise)) == Some(Denote(d))
  {
    hide Good, Text, Denote, Parse, ParseValue, Find, ScanEnd, At, OccursAt;
    var body := before + key + gap + Text(d) + after;
    ArrayStands(before, key, gap, d, after);
    ScanEndsWithTheArray(body, |before| + |key| + |gap|, d);
    BareTextParses(d);
  }

  lemma BareTextParses(d: Doc)
    requires Good(d)
    ensures Parse(Text(d)) == Some(Denote(d))
  {
    EveryTextParses("", d, "");
    assert "" + Text(d) + "" == Text(d);
  }

  // ----- flatten -----

  function FlatChar(l: Lex, c: char): char {
    if !l.esc && !l.inStr && (c == '\n' || c == '\r' || c == '\t') then ' ' else c
  }

  function Flat(l: Lex, s: string): string
    decreases |s|
  {
    if s == "" then "" else [FlatChar(l, s[0])] + Flat(LexStep(l, s[0]), s[1..])
  }

  function LexAfter(l: Lex, s: string): Lex
    decreases |s|
  {
    if s == "" then l else LexAfter(LexStep(l, s[0]), s[1..])
  }

  lemma {:induction false} FlatAppend(l: Lex, a: string, b: string)
    ensures Flat(l, a + b) == Flat(l, a) + Flat(LexAfter(l, a), b)
    ensures LexAfter(l, a + b) == LexAfter(LexAfter(l, a), b)
    decreases |a|
  {
    if a == "" {
      assert a + b == b;
    } else {
      assert (a + b)[1..] == a[1..] + b;
      FlatAppend(LexStep(l, a[0]), a[1..], b);
    }
  }

  lemma {:induction false} LexAfterIsLexOf(s: string)
    ensures LexAfter(OUTSIDE, s) == LexOf(s)
    decreases |s|
  {
    if s != "" {
      var front := s[..|s| - 1];
      LexAfterIsLexOf(front);
      assert s == front + [s[|s| - 1]];
      FlatAppend(OUTSIDE, front, [s[|s| - 1]]);
      OneMore(s, 0, |s| - 1);
      assert s[0..|s| - 1] == front && s[0..|s|] == s;
      OneChar(LexOf(front), s[|s| - 1]);
    }
  }

  lemma OneChar(l: Lex, c: char)
    ensures LexAfter(l, [c]) == LexStep(l, c) && Flat(l, [c]) == [FlatChar(l, c)]
  {
    assert [c][1..] == "";
  }

  /** Flattening keeps every character but line breaks and tabs outside strings, which it turns into
      spaces. */
  lemma {:induction false} FlatMeaning(s: string, i: nat)
    requires i < |s|
    ensures |Flat(OUTSIDE, s)| == |s|
    ensures Flat(OUTSIDE, s)[i] == if s[i] in ['\n', '\r', '\t'] && !InString(s[..i]) then ' ' else s[i]
    decreases |s|
  {
    var n := |s| - 1;
    var front, c := s[..n], s[n];
    assert s == front + [c];
    FlatAppend(OUTSIDE, front, [c]);
    LexAfterIsLexOf(front);
    OneChar(LexOf(front), c);
    EscapedIsInString(front);
    if n > 0 { FlatMeaning(front, if i < n then i else 0); }
    if i < n { assert front[..i] == s[..i]; }
  }

  lemma FlatStep(out: string, l: Lex, s: string, i: nat)
    requires i < |s|
    ensures out + Flat(l, s[i..]) == (out + [FlatChar(l, s[i])]) + Flat(LexStep(l, s[i]), s[i + 1..])
  {
    hide FlatChar, LexStep;
    assert s[i..][1..] == s[i + 1..];
  }

  method Flatten(s: string) returns (out: string)
    ensures out == Flat(OUTSIDE, s)
  {
    out := "";
    var inStr, esc := false, false;
    for i := 0 to |s|
      invariant Flat(OUTSIDE, s) == out + Flat(Lex(inStr, esc), s[i..])
    {
      var c := s[i];
      FlatStep(out, Lex(inStr, esc), s, i);
      hide Flat;
      if esc { out := out + [c]; esc := false; }
      else if c == '\\' && inStr { out := out + [c]; esc := true; }
      else if c == '"' { inStr := !inStr; out := out + [c]; }
      else if !inStr && (c == '\n' || c == '\r' || c == '\t') { out := out + " "; }
      else { out := out + [c]; }
    }
  }

  function Spaces(w: string): string { if w == "" then "" else [if w[0] == ' ' then w[0] else ' '] + Spaces(w[1..]) }

  function FlatDoc(d: Doc): Doc {
    match d
    case DArr(pad, es) => DArr(Spaces(pad), FlatElems(es))
    case DObj(pad, ms) => DObj(Spaces(pad), FlatMembers(ms))
    case _ => d
  }

  function FlatElems(es: Elems): Elems {
    if es.NoElems? then es else Elem(Spaces(es.pre), FlatDoc(es.value), Spaces(es.post), FlatElems(es.rest))
  }

  function FlatMembers(ms: Members): Members {
    if ms.NoMembers? then ms
    else Member(Spaces(ms.pre), ms.key, Spaces(ms.mid), Spaces(ms.mid2), FlatDoc(ms.value), Spaces(ms.post),
      FlatMembers(ms.rest))
  }

  lemma {:induction false} SpacesBlank(w: string)
    ensures Blank(Spaces(w)) && |Spaces(w)| == |w|
    decreases |w|
  {
    if w != "" { SpacesBlank(w[1..]); }
  }

  /** Flattening changes blanks only, so neither form nor meaning changes. */
  lemma {:induction false} FlatDocSame(d: Doc)
    requires Good(d)
    ensures Good(FlatDoc(d)) && Denote(FlatDoc(d)) == Denote(d)
    decreases d, 0
  {
    match d {
      case DArr(pad, es) => SpacesBlank(pad); FlatElemsSame(es);
      case DObj(pad, ms) => SpacesBlank(pad); FlatMembersSame(ms, map[]);
      case _ =>
    }
  }

  lemma {:induction false} FlatElemsSame(es: Elems)
    requires GoodElems(es)
    ensures GoodElems(FlatElems(es)) && DenoteElems(FlatElems(es)) == DenoteElems(es)
    decreases es, 1
  {
    if es.Elem? {
      SpacesBlank(es.pre);
      SpacesBlank(es.post);
      FlatDocSame(es.value);
      FlatElemsSame(es.rest);
    }
  }

  lemma {:induction false} FlatMembersSame(ms: Members, soFar: map<string, Value>)
    requires GoodMembers(ms)
    ensures GoodMembers(FlatMembers(ms)) && DenoteMembers(FlatMembers(ms), soFar) == DenoteMembers(ms, soFar)
    decreases ms, 1
  {
    if ms.Member? {
      SpacesBlank(ms.pre);
      SpacesBlank(ms.mid);
      SpacesBlank(ms.mid2);
      SpacesBlank(ms.post);
      FlatDocSame(ms.value);
      FlatMembersSame(ms.rest, Emplace(soFar, UnitsValue(ms.key), Denote(ms.value)));
    }
  }

  /** s flattens to f, from outside a string to outside a string. */
  predicate Flattens(s: string, f: string) { Flat(OUTSIDE, s) == f && LexAfter(OUTSIDE, s) == OUTSIDE }

  lemma FlattensAppend(a: string, fa: string, b: string, fb: string)
    requires Flattens(a, fa) && Flattens(b, fb)
    ensures Flattens(a + b, fa + fb)
  {
    FlatAppend(OUTSIDE, a, b);
  }

  lemma {:induction false} FlattensBlank(w: string)
    requires Blank(w)
    ensures Flattens(w, Spaces(w))
    decreases |w|
  {
    if w != "" { FlattensBlank(w[1..]); }
  }

  lemma {:induction false} FlattensPlain(s: string)
    requires forall i :: 0 <= i < |s| ==> s[i] !in ['"', '\n', '\r', '\t']
    ensures Flattens(s, s)
    decreases |s|
  {
    if s != "" {
      FlattensPlain(s[1..]);
      assert s == [s[0]] + s[1..];
    }
  }

  lemma FlatUnit(u: Unit)
    requires GoodUnit(u)
    ensures Flat(Lex(true, false), UnitText(u)) == UnitText(u)
            && LexAfter(Lex(true, false), UnitText(u)) == Lex(true, false)
  {
    var l := Lex(true, false);
    match u {
      case Raw(c) => assert UnitText(u)[1..] == "";
      case Esc(e) => assert UnitText(u)[1..] == [e] && [e][1..] == "";
      case Hex(h) =>
        FlatAppend(l, "\\u", h);
        assert "\\u"[1..] == "u" && "u"[1..] == "";
        FlatHex(h);
    }
  }

  lemma {:induction false} FlatHex(h: string)
    requires forall i :: 0 <= i < |h| ==> IsHex(h[i])
    ensures Flat(Lex(true, false), h) == h && LexAfter(Lex(true, false), h) == Lex(true, false)
    decreases |h|
  {
    if h != "" {
      FlatHex(h[1..]);
      assert h == [h[0]] + h[1..];
    }
  }

  lemma {:induction false} FlatUnits(us: seq<Unit>)
    requires GoodUnits(us)
    ensures Flat(Lex(true, false), UnitsText(us)) == UnitsText(us)
            && LexAfter(Lex(true, false), UnitsText(us)) == Lex(true, false)
    decreases |us|
  {
    if us != [] {
      FlatAppend(Lex(true, false), UnitText(us[0]), UnitsText(us[1..]));
      FlatUnit(us[0]);
      FlatUnits(us[1..]);
    }
  }

  lemma FlattensQuoted(us: seq<Unit>)
    requires GoodUnits(us)
    ensures Flattens(Quoted(us), Quoted(us))
  {
    FlatAppend(OUTSIDE, "\"" + UnitsText(us), "\"");
    FlatAppend(OUTSIDE, "\"", UnitsText(us));
    assert "\""[1..] == "";
    FlatUnits(us);
  }

  /** Flattening the text of a value gives the text of the flattened value. */
  lemma {:induction false} FlattensValue(d: Doc)
    requires Good(d)
    ensures Flattens(Text(d), Text(FlatDoc(d)))
    decreases d, 0
  {
    hide Flattens;
    match d {
      case DNum(n) =>
        NumberIsPlain(n);
        FlattensPlain(NumberText(n));
      case DStr(us) => FlattensQuoted(us);
      case DArr(pad, es) =>
        var body := if es.NoElems? then pad else ElemsText(es);
        var flat := if es.NoElems? then Spaces(pad) else ElemsText(FlatElems(es));
        if es.NoElems? { FlattensBlank(pad); } else { FlattensElems(es); }
        FlattensPlain("[");
        FlattensPlain("]");
        FlattensAppend("[", "[", body, flat);
        FlattensAppend("[" + body, "[" + flat, "]", "]");
      case DObj(pad, ms) =>
        var body := if ms.NoMembers? then pad else MembersText(ms);
        var flat := if ms.NoMembers? then Spaces(pad) else MembersText(FlatMembers(ms));
        if ms.NoMembers? { FlattensBlank(pad); } else { FlattensMembers(ms); }
        FlattensPlain("{");
        FlattensPlain("}");
        FlattensAppend("{", "{", body, flat);
        FlattensAppend("{" + body, "{" + flat, "}", "}");
      case _ => FlattensPlain(Text(d));
    }
  }

  lemma {:induction false} FlattensElems(es: Elems)
    requires es.Elem? && GoodElems(es)
    ensures Flattens(ElemsText(es), ElemsText(FlatElems(es)))
    decreases es, 1
  {
    hide Flattens, Text;
    var v, fv := Text(es.value), Text(FlatDoc(es.value));
    var pre, post := Spaces(es.pre), Spaces(es.post);
    FlattensBlank(es.pre);
    FlattensValue(es.value);
    FlattensBlank(es.post);
    FlattensAppend(es.pre, pre, v, fv);
    FlattensAppend(es.pre + v, pre + fv, es.post, post);
    if es.rest.Elem? {
      FlattensPlain(",");
      FlattensElems(es.rest);
      FlattensAppend(",", ",", ElemsText(es.rest), ElemsText(FlatElems(es.rest)));
      FlattensAppend(es.pre + v + es.post, pre + fv + post, "," + ElemsText(es.rest),
        "," + ElemsText(FlatElems(es.rest)));
    } else {
      FlattensPlain("");
      FlattensAppend(es.pre + v + es.post, pre + fv + post, "", "");
    }
  }

  lemma {:induction false} FlattensMembers(ms: Members)
    requires ms.Member? && GoodMembers(ms)
    ensures Flattens(MembersText(ms), MembersText(FlatMembers(ms)))
    decreases ms, 1
  {
    hide Flattens, Text, Quoted;
    var k, v, fv := Quoted(ms.key), Text(ms.value), Text(FlatDoc(ms.value));
    var pre, mid, mid2, post := Spaces(ms.pre), Spaces(ms.mid), Spaces(ms.mid2), Spaces(ms.post);
    FlattensBlank(ms.pre);
    FlattensBlank(ms.mid);
    FlattensBlank(ms.mid2);
    FlattensBlank(ms.post);
    FlattensQuoted(ms.key);
    FlattensValue(ms.value);
    FlattensPlain(":");
    FlattensAppend(ms.pre, pre, k, k);
    FlattensAppend(ms.pre + k, pre + k, ms.mid, mid);
    FlattensAppend(ms.pre + k + ms.mid, pre + k + mid, ":", ":");
    FlattensAppend(ms.pre + k + ms.mid + ":", pre + k + mid + ":", ms.mid2, mid2);
    FlattensAppend(ms.pre + k + ms.mid + ":" + ms.mid2, pre + k + mid + ":" + mid2, v, fv);
    FlattensAppend(ms.pre + k + ms.mid + ":" + ms.mid2 + v, pre + k + mid + ":" + mid2 + fv, ms.post, post);
    var all, flat := ms.pre + k + ms.mid + ":" + ms.mid2 + v + ms.post, pre + k + mid + ":" + mid2 + fv + post;
    if ms.rest.Member? {
      FlattensPlain(",");
      FlattensMembers(ms.rest);
      FlattensAppend(",", ",", MembersText(ms.rest), MembersText(FlatMembers(ms.rest)));
      FlattensAppend(all, flat, "," + MembersText(ms.rest), "," + MembersText(FlatMembers(ms.rest)));
    } else {
      FlattensPlain("");
      FlattensAppend(all, flat, "", "");
    }
  }

  predicate OneLine(s: string) { forall i :: 0 <= i < |s| ==> s[i] !in ['\n', '\r', '\t'] }

  lemma {:induction false} FlatLength(l: Lex, s: string)
    ensures |Flat(l, s)| == |s|
    decreases |s|
  {
    if s != "" { FlatLength(LexStep(l, s[0]), s[1..]); }
  }

  lemma {:induction false} SpacesOneLine(w: string)
    ensures OneLine(Spaces(w))
    decreases |w|
  {
    if w != "" { SpacesOneLine(w[1..]); }
  }

  lemma OneLineAppend(a: string, b: string)
    requires OneLine(a) && OneLine(b)
    ensures OneLine(a + b)
  {
  }

  lemma UnitOneLine(u: Unit)
    requires GoodUnit(u)
    ensures OneLine(UnitText(u))
  {
  }

  lemma {:induction false} QuotedOneLine(us: seq<Unit>)
    requires GoodUnits(us)
    ensures OneLine(UnitsText(us)) && OneLine(Quoted(us))
    decreases |us|
  {
    hide UnitText;
    if us != [] {
      UnitOneLine(us[0]);
      QuotedOneLine(us[1..]);
    }
  }

  /** The text of a flattened value has no line break and no tab. */
  lemma {:induction false} FlatOneLine(d: Doc)
    requires Good(d)
    ensures OneLine(Text(FlatDoc(d)))
    decreases d, 0
  {
    hide Spaces, ElemsText, MembersText, Quoted, NumberText;
    match d {
      case DNum(n) => NumberIsPlain(n);
      case DStr(us) => QuotedOneLine(us);
      case DArr(pad, es) =>
        SpacesOneLine(pad);
        if es.Elem? { FlatElemsOneLine(es); }
        BracketsOneLine("[", if es.NoElems? then Spaces(pad) else ElemsText(FlatElems(es)), "]");
      case DObj(pad, ms) =>
        SpacesOneLine(pad);
        if ms.Member? { FlatMembersOneLine(ms); }
        BracketsOneLine("{", if ms.NoMembers? then Spaces(pad) else MembersText(FlatMembers(ms)), "}");
      case _ =>
    }
  }

  lemma BracketsOneLine(open: string, s: string, close: string)
    requires open in {"[", "{"} && close in {"]", "}"} && OneLine(s)
    ensures OneLine(open + s + close)
  {
  }

  lemma {:induction false} FlatElemsOneLine(es: Elems)
    requires es.Elem? && GoodElems(es)
    ensures OneLine(ElemsText(FlatElems(es)))
    decreases es, 1
  {
    hide Spaces, Text, OneLine;
    var pre, v, post := Spaces(es.pre), Text(FlatDoc(es.value)), Spaces(es.post);
    SpacesOneLine(es.pre);
    SpacesOneLine(es.post);
    FlatOneLine(es.value);
    OneLineAppend(pre, v);
    OneLineAppend(pre + v, post);
    NoneOneLine();
    var tail := if es.rest.NoElems? then "" else "," + ElemsText(FlatElems(es.rest));
    if es.rest.Elem? {
      FlatElemsOneLine(es.rest);
      OneLineAppend(",", ElemsText(FlatElems(es.rest)));
    }
    OneLineAppend(pre + v + post, tail);
  }

  lemma NoneOneLine()
    ensures OneLine("") && OneLine(",") && OneLine(":")
  {
  }

  lemma {:induction false} FlatMembersOneLine(ms: Members)
    requires ms.Member? && GoodMembers(ms)
    ensures OneLine(MembersText(FlatMembers(ms)))
    decreases ms, 1
  {
    hide Spaces, Text, OneLine, Quoted;
    var pre, k, mid, mid2, v, post :=
      Spaces(ms.pre), Quoted(ms.key), Spaces(ms.mid), Spaces(ms.mid2), Text(FlatDoc(ms.value)), Spaces(ms.post);
    SpacesOneLine(ms.pre);
    SpacesOneLine(ms.mid);
    SpacesOneLine(ms.mid2);
    SpacesOneLine(ms.post);
    QuotedOneLine(ms.key);
    FlatOneLine(ms.value);
    NoneOneLine();
    OneLineAppend(pre, k);
    OneLineAppend(pre + k, mid);
    OneLineAppend(pre + k + mid, ":");
    OneLineAppend(pre + k + mid + ":", mid2);
    OneLineAppend(pre + k + mid + ":" + mid2, v);
    OneLineAppend(pre + k + mid + ":" + mid2 + v, post);
    var tail := if ms.rest.NoMembers? then "" else "," + MembersText(FlatMembers(ms.rest));
    if ms.rest.Member? {
      FlatMembersOneLine(ms.rest);
      OneLineAppend(",", MembersText(FlatMembers(ms.rest)));
    }
    OneLineAppend(pre + k + mid + ":" + mid2 + v + post, tail);
  }

  /** A JSON text as a client may send it: a value with blanks around it. */
  datatype Sent = Sent(before: string, doc: Doc, after: string) {
    predicate Good() { Blank(before) && Json.Good(doc) && Blank(after) }

    function Text(): string { before + Json.Text(doc) + after }
  }

  /** Flattening an RFC 8259 text keeps its length and its value and puts it on one line. */
  lemma FlattenKeepsMeaning(s: Sent)
    requires s.Good()
    ensures var flat := Flat(OUTSIDE, s.Text());
            && |flat| == |s.Text()| && OneLine(flat)
            && flat == Spaces(s.before) + Text(FlatDoc(s.doc)) + Spaces(s.after)
            && Parse(flat) == Parse(s.Text()) == Some(Denote(s.doc))
  {
    hide Parse, Flat, Text, FlatDoc, Denote, Good, OneLine;
    assert Json.Good(s.doc);
    FlatLength(OUTSIDE, s.Text());
    FlattensBlank(s.before);
    FlattensBlank(s.after);
    FlattensValue(s.doc);
    var v, f := Text(s.doc), Text(FlatDoc(s.doc));
    FlattensAppend(s.before, Spaces(s.before), v, f);
    FlattensAppend(s.before + v, Spaces(s.before) + f, s.after, Spaces(s.after));
    SpacesOneLine(s.before);
    SpacesOneLine(s.after);
    FlatOneLine(s.doc);
    OneLineAppend(Spaces(s.before), f);
    OneLineAppend(Spaces(s.before) + f, Spaces(s.after));
    EveryTextParses(s.before, s.doc, s.after);
    FlatDocSame(s.doc);
    SpacesBlank(s.before);
    SpacesBlank(s.after);
    EveryTextParses(Spaces(s.before), FlatDoc(s.doc), Spaces(s.after));
  }
}
