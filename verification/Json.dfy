/** JSON texts as RFC 8259 (sections 2 to 7) writes them, what they denote, and the grammar that
    json_lite's recursive-descent parser implements. Bytes are characters below 256. */
module Json {
  import opened Texts

  /** A number keeps its token: the conversion to a double is not part of this model. */
  datatype Value =
    | Null
    | Bool(b: bool)
    | Num(token: string)
    | Str(s: string)
    | Arr(items: seq<Value>)
    | Obj(fields: map<string, Value>)

  // ----- texts with all their spelling choices -----

  /** One character of a string: itself, a two-character escape, or \uXXXX. */
  datatype Unit = Raw(c: char) | Esc(e: char) | Hex(h: string)

  /** A number token, cut at the sign, the point and the exponent. */
  datatype Number =
    Number(neg: bool, whole: string, dot: bool, frac: string, exp: string, expMark: char, expSign: string)

  datatype Doc =
    | DNull | DTrue | DFalse
    | DNum(n: Number)
    | DStr(units: seq<Unit>)
    | DArr(pad: string, elems: Elems)
    | DObj(pad: string, members: Members)

  datatype Elems = NoElems | Elem(pre: string, value: Doc, post: string, rest: Elems)

  datatype Members =
    NoMembers | Member(pre: string, key: seq<Unit>, mid: string, mid2: string, value: Doc, post: string, rest: Members)

  predicate IsBlank(c: char) { c == ' ' || c == '\t' || c == '\n' || c == '\r' }

  predicate IsDigit(c: char) { '0' <= c <= '9' }

  predicate IsHex(c: char) { IsDigit(c) || 'a' <= c <= 'f' || 'A' <= c <= 'F' }

  const ESCAPABLE := ['"', '\\', '/', 'b', 'f', 'n', 'r', 't']

  predicate Blank(s: string) { forall i :: 0 <= i < |s| ==> IsBlank(s[i]) }

  predicate Digits(s: string) { forall i :: 0 <= i < |s| ==> IsDigit(s[i]) }

  predicate GoodUnit(u: Unit) {
    match u
    case Raw(c) => c >= ' ' && c != '"' && c != '\\'
    case Esc(e) => e in ESCAPABLE
    case Hex(h) => |h| == 4 && forall i :: 0 <= i < 4 ==> IsHex(h[i])
  }

  predicate GoodUnits(us: seq<Unit>) { forall i :: 0 <= i < |us| ==> GoodUnit(us[i]) }

  predicate GoodNumber(n: Number) {
    && n.whole != "" && Digits(n.whole) && Digits(n.frac) && Digits(n.exp)
    && (n.whole[0] == '0' ==> |n.whole| == 1) && (n.dot <==> n.frac != "")
    && (n.expMark == 'e' || n.expMark == 'E') && n.expSign in {"", "+", "-"}
  }

  predicate Good(d: Doc) {
    match d
    case DNum(n) => GoodNumber(n)
    case DStr(us) => GoodUnits(us)
    case DArr(pad, es) => Blank(pad) && GoodElems(es)
    case DObj(pad, ms) => Blank(pad) && GoodMembers(ms)
    case _ => true
  }

  predicate GoodElems(es: Elems) {
    es.Elem? ==> Blank(es.pre) && Good(es.value) && Blank(es.post) && GoodElems(es.rest)
  }

  predicate GoodMembers(ms: Members) {
    ms.Member? ==>
      && Blank(ms.pre) && GoodUnits(ms.key) && Blank(ms.mid) && Blank(ms.mid2)
      && Good(ms.value) && Blank(ms.post) && GoodMembers(ms.rest)
  }

  // ----- what the parser takes beyond RFC 8259 -----

  /** C's isspace, which the parser skips: RFC 8259 blanks, vertical tab and form feed. */
  predicate IsSpace(c: char) { IsBlank(c) || c == '\U{b}' || c == '\U{c}' }

  predicate Spacing(s: string) { forall i :: 0 <= i < |s| ==> IsSpace(s[i]) }

  /** Control characters may stand for themselves, and any four characters may follow \u. */
  predicate LenientUnit(u: Unit) {
    match u
    case Raw(c) => c != '"' && c != '\\'
    case Esc(e) => e in ESCAPABLE
    case Hex(h) => |h| == 4
  }

  predicate LenientUnits(us: seq<Unit>) { forall i :: 0 <= i < |us| ==> LenientUnit(us[i]) }

  /** Digits may be missing on one side of the point (in front of it only behind a minus sign), and
      zeros may lead. */
  predicate LenientNumber(n: Number) {
    && Digits(n.whole) && Digits(n.frac) && Digits(n.exp)
    && (n.whole != "" || n.frac != "") && (n.whole == "" ==> n.neg) && (n.frac != "" ==> n.dot)
    && (n.expMark == 'e' || n.expMark == 'E') && n.expSign in {"", "+", "-"}
  }

  predicate Lenient(d: Doc) {
    match d
    case DNum(n) => LenientNumber(n)
    case DStr(us) => LenientUnits(us)
    case DArr(pad, es) => Spacing(pad) && LenientElems(es)
    case DObj(pad, ms) => Spacing(pad) && LenientMembers(ms)
    case _ => true
  }

  predicate LenientElems(es: Elems) {
    es.Elem? ==> Spacing(es.pre) && Lenient(es.value) && Spacing(es.post) && LenientElems(es.rest)
  }

  predicate LenientMembers(ms: Members) {
    ms.Member? ==>
      && Spacing(ms.pre) && LenientUnits(ms.key) && Spacing(ms.mid) && Spacing(ms.mid2)
      && Lenient(ms.value) && Spacing(ms.post) && LenientMembers(ms.rest)
  }

  lemma {:induction false} GoodIsLenient(d: Doc)
    requires Good(d)
    ensures Lenient(d)
  {
    match d
    case DArr(_, es) => GoodElemsAreLenient(es);
    case DObj(_, ms) => GoodMembersAreLenient(ms);
    case _ =>
  }

  lemma {:induction false} GoodElemsAreLenient(es: Elems)
    requires GoodElems(es)
    ensures LenientElems(es)
  {
    if es.Elem? {
      GoodIsLenient(es.value);
      GoodElemsAreLenient(es.rest);
    }
  }

  lemma {:induction false} GoodMembersAreLenient(ms: Members)
    requires GoodMembers(ms)
    ensures LenientMembers(ms)
  {
    if ms.Member? {
      GoodIsLenient(ms.value);
      GoodMembersAreLenient(ms.rest);
    }
  }

  // ----- how a text is spelled -----

  function UnitText(u: Unit): string {
    match u
    case Raw(c) => [c]
    case Esc(e) => ['\\', e]
    case Hex(h) => "\\u" + h
  }

  function UnitsText(us: seq<Unit>): string {
    if us == [] then "" else UnitText(us[0]) + UnitsText(us[1..])
  }

  function Quoted(us: seq<Unit>): string { "\"" + UnitsText(us) + "\"" }

  function NumberText(n: Number): string {
    (if n.neg then "-" else "") + n.whole
    + (if n.dot then "." + n.frac else "")
    + (if n.exp == "" then "" else [n.expMark] + n.expSign + n.exp)
  }

  function Text(d: Doc): string {
    match d
    case DNull => "null"
    case DTrue => "true"
    case DFalse => "false"
    case DNum(n) => NumberText(n)
    case DStr(us) => Quoted(us)
    case DArr(pad, es) => "[" + (if es.NoElems? then pad else ElemsText(es)) + "]"
    case DObj(pad, ms) => "{" + (if ms.NoMembers? then pad else MembersText(ms)) + "}"
  }

  function ElemsText(es: Elems): string
    requires es.Elem?
  {
    es.pre + Text(es.value) + es.post + (if es.rest.NoElems? then "" else "," + ElemsText(es.rest))
  }

  function MembersText(ms: Members): string
    requires ms.Member?
  {
    ms.pre + Quoted(ms.key) + ms.mid + ":" + ms.mid2 + Text(ms.value) + ms.post
    + (if ms.rest.NoMembers? then "" else "," + MembersText(ms.rest))
  }

  // ----- what a text denotes -----

  function Unescaped(e: char): char {
    match e
    case 'b' => '\U{8}'
    case 'f' => '\U{c}'
    case 'n' => '\n'
    case 'r' => '\r'
    case 't' => '\t'
    case _ => e
  }

  /** json_lite does not decode \uXXXX: it stands for a question mark. */
  function UnitValue(u: Unit): char {
    match u
    case Raw(c) => c
    case Esc(e) => Unescaped(e)
    case Hex(_) => '?'
  }

  function UnitsValue(us: seq<Unit>): string {
    if us == [] then "" else [UnitValue(us[0])] + UnitsValue(us[1..])
  }

  function Denote(d: Doc): Value {
    match d
    case DNull => Null
    case DTrue => Bool(true)
    case DFalse => Bool(false)
    case DNum(n) => Num(NumberText(n))
    case DStr(us) => Str(UnitsValue(us))
    case DArr(_, es) => Arr(DenoteElems(es))
    case DObj(_, ms) => Obj(DenoteMembers(ms, map[]))
  }

  function DenoteElems(es: Elems): seq<Value> {
    if es.NoElems? then [] else [Denote(es.value)] + DenoteElems(es.rest)
  }

  /** A key that comes again does not replace the earlier one. */
  function Emplace(m: map<string, Value>, k: string, v: Value): map<string, Value> {
    if k in m then m else m[k := v]
  }

  function DenoteMembers(ms: Members, soFar: map<string, Value>): map<string, Value> {
    if ms.NoMembers? then soFar
    else DenoteMembers(ms.rest, Emplace(soFar, UnitsValue(ms.key), Denote(ms.value)))
  }

  // ----- the parser's grammar -----

  /** The characters of s stand in t from position p on. */
  predicate At(t: string, s: string, p: nat)
    decreases |s|
  {
    if s == "" then p <= |t| else p < |t| && t[p] == s[0] && At(t, s[1..], p + 1)
  }

  datatype Parsed<+T> = Fail | Ok(value: T, pos: nat)

  function SkipSpace(t: string, p: nat): (q: nat)
    requires p <= |t|
    ensures p <= q <= |t|
    decreases |t| - p
  {
    if p < |t| && IsSpace(t[p]) then SkipSpace(t, p + 1) else p
  }

  function SkipDigits(t: string, p: nat): (q: nat)
    requires p <= |t|
    ensures p <= q <= |t|
    decreases |t| - p
  {
    if p < |t| && IsDigit(t[p]) then SkipDigits(t, p + 1) else p
  }

  predicate Sees(t: string, p: nat, c: char) { p < |t| && t[p] == c }

  /** How far strtod reads a decimal number: sign, digits, fraction (with a digit on at least one
      side of the point), and an exponent if it has digits. */
  function ScanNumber(t: string, p: nat): (q: nat)
    requires p <= |t|
    ensures p <= q <= |t|
  {
    var a := if Sees(t, p, '-') || Sees(t, p, '+') then p + 1 else p;
    var b := SkipDigits(t, a);
    var c := if Sees(t, b, '.') then SkipDigits(t, b + 1) else b;
    if b == a && c <= b + 1 then p
    else
      ScanExponent(t, c)
  }

  function ScanExponent(t: string, f: nat): (q: nat)
    requires f <= |t|
    ensures f <= q <= |t|
  {
    if Sees(t, f, 'e') || Sees(t, f, 'E') then
      var g := if Sees(t, f + 1, '-') || Sees(t, f + 1, '+') then f + 2 else f + 1;
      var h := SkipDigits(t, g);
      if h > g then h else f
    else f
  }

  function ParseNumber(t: string, p: nat): Parsed<string>
    requires p <= |t|
  {
    var q := ScanNumber(t, p);
    if q == p then Fail else Ok(t[p..q], q)
  }

  function ParseLiteral(t: string, p: nat, word: string, v: Value): Parsed<Value> {
    if At(t, word, p) then Ok(v, p + |word|) else Fail
  }

  function Prepend(s: string, r: Parsed<string>): Parsed<string> {
    if r.Ok? then Ok(s + r.value, r.pos) else Fail
  }

  /** The inside of a string, from p up to and over the closing quote. */
  function ParseChars(t: string, p: nat): (r: Parsed<string>)
    requires p <= |t|
    ensures r.Ok? ==> p < r.pos <= |t|
    decreases |t| - p
  {
    if p == |t| then Fail
    else if t[p] == '"' then Ok("", p + 1)
    else if t[p] == '\\' then
      if p + 1 == |t| then Fail
      else if t[p + 1] == 'u' then
        if p + 6 > |t| then Fail else Prepend("?", ParseChars(t, p + 6))
      else if t[p + 1] in ESCAPABLE then Prepend([Unescaped(t[p + 1])], ParseChars(t, p + 2))
      else Fail
    else Prepend([t[p]], ParseChars(t, p + 1))
  }

  function ParseString(t: string, p: nat): (r: Parsed<string>)
    requires p <= |t|
    ensures r.Ok? ==> p < r.pos <= |t|
  {
    if Sees(t, p, '"') then ParseChars(t, p + 1) else Fail
  }

  function ParseValue(t: string, p: nat): (r: Parsed<Value>)
    requires p <= |t|
    ensures r.Ok? ==> p < r.pos <= |t|
    decreases |t| - p, 2
  {
    var q := SkipSpace(t, p);
    if q == |t| then Fail
    else if t[q] == '{' then
      var a := SkipSpace(t, q + 1);
      if Sees(t, a, '}') then Ok(Obj(map[]), a + 1)
      else
        var r := ParseMembers(t, q + 1, map[]);
        if r.Ok? then Ok(Obj(r.value), r.pos) else Fail
    else if t[q] == '[' then
      var a := SkipSpace(t, q + 1);
      if Sees(t, a, ']') then Ok(Arr([]), a + 1)
      else
        var r := ParseElems(t, q + 1, []);
        if r.Ok? then Ok(Arr(r.value), r.pos) else Fail
    else if t[q] == '"' then
      var r := ParseString(t, q);
      if r.Ok? then Ok(Str(r.value), r.pos) else Fail
    else if t[q] == 't' then ParseLiteral(t, q, "true", Bool(true))
    else if t[q] == 'f' then ParseLiteral(t, q, "false", Bool(false))
    else if t[q] == 'n' then ParseLiteral(t, q, "null", Null)
    else if t[q] == '-' || IsDigit(t[q]) then
      var r := ParseNumber(t, q);
      if r.Ok? then Ok(Num(r.value), r.pos) else Fail
    else Fail
  }

  /** The loop over array elements, up to and over the closing bracket. */
  function ParseElems(t: string, p: nat, soFar: seq<Value>): (r: Parsed<seq<Value>>)
    requires p <= |t|
    ensures r.Ok? ==> p < r.pos <= |t|
    decreases |t| - p, 3
  {
    var v := ParseValue(t, p);
    if v.Fail? then Fail
    else
      var q := SkipSpace(t, v.pos);
      if Sees(t, q, ']') then Ok(soFar + [v.value], q + 1)
      else if Sees(t, q, ',') then ParseElems(t, q + 1, soFar + [v.value])
      else Fail
  }

  /** The loop over object members, up to and over the closing brace. */
  function ParseMembers(t: string, p: nat, soFar: map<string, Value>): (r: Parsed<map<string, Value>>)
    requires p <= |t|
    ensures r.Ok? ==> p < r.pos <= |t|
    decreases |t| - p, 3
  {
    var k := ParseString(t, SkipSpace(t, p));
    if k.Fail? then Fail
    else
      var c := SkipSpace(t, k.pos);
      if !Sees(t, c, ':') then Fail
      else
        var v := ParseValue(t, c + 1);
        if v.Fail? then Fail
        else
          var q := SkipSpace(t, v.pos);
          var next := Emplace(soFar, k.value, v.value);
          if Sees(t, q, '}') then Ok(next, q + 1)
          else if Sees(t, q, ',') then ParseMembers(t, q + 1, next)
          else Fail
  }

  /** `parse_json`: one value, nothing but space around it. */
  function Parse(t: string): Option<Value> {
    var r := ParseValue(t, SkipSpace(t, 0));
    if r.Ok? && SkipSpace(t, r.pos) == |t| then Some(r.value) else None
  }

  // ----- every text in the parser's own, more lenient grammar parses to what it denotes -----

  lemma {:induction false} AtSplit(t: string, p: nat, a: string, b: string)
    ensures At(t, a + b, p) <==> At(t, a, p) && At(t, b, p + |a|)
    decreases |a|
  {
    if a == "" {
      assert a + b == b;
      if At(t, b, p) { AtBound(t, b, p); }
    } else {
      assert (a + b)[0] == a[0] && (a + b)[1..] == a[1..] + b;
      AtSplit(t, p + 1, a[1..], b);
    }
  }

  lemma {:induction false} AtBound(t: string, s: string, p: nat)
    requires At(t, s, p)
    ensures p + |s| <= |t|
    decreases |s|
  {
    if s != "" { AtBound(t, s[1..], p + 1); }
  }

  lemma {:induction false} AtIsSlice(t: string, s: string, p: nat)
    ensures At(t, s, p) <==> p + |s| <= |t| && t[p..p + |s|] == s
    decreases |s|
  {
    if s != "" && p < |t| {
      AtIsSlice(t, s[1..], p + 1);
      if p + |s| <= |t| { SliceFromHead(t, s, p); }
    }
  }

  lemma SliceFromHead(t: string, s: string, p: nat)
    requires s != "" && p + |s| <= |t|
    ensures t[p..p + |s|] == s <==> t[p] == s[0] && t[p + 1..p + 1 + |s[1..]|] == s[1..]
  {
    var a := t[p..p + |s|];
    assert a[0] == t[p] && a[1..] == t[p + 1..p + |s|];
    assert a == [a[0]] + a[1..] && s == [s[0]] + s[1..];
  }

  lemma {:induction false} SkipSpacing(t: string, p: nat, w: string)
    requires At(t, w, p) && Spacing(w)
    ensures p + |w| <= |t| && SkipSpace(t, p) == SkipSpace(t, p + |w|)
    decreases |w|
  {
    if w != "" {
      SkipSpacing(t, p + 1, w[1..]);
    }
  }

  lemma {:induction false} SkipAllDigits(t: string, p: nat, w: string)
    requires At(t, w, p) && Digits(w)
    requires p + |w| < |t| ==> !IsDigit(t[p + |w|])
    ensures SkipDigits(t, p) == p + |w|
    decreases |w|
  {
    if w != "" {
      SkipAllDigits(t, p + 1, w[1..]);
    }
  }

  /** What may follow a value: the end, space, or a separator. */
  predicate Follows(t: string, p: nat) { p == |t| || (p < |t| && (IsSpace(t[p]) || t[p] in [',', ']', '}'])) }

  function SignText(n: Number): string { if n.neg then "-" else "" }

  function FracText(n: Number): string { if n.dot then "." + n.frac else "" }

  function ExpText(n: Number): string { if n.exp == "" then "" else [n.expMark] + n.expSign + n.exp }

  /** The four parts of a number token stand one behind the other. */
  lemma NumberStands(t: string, p: nat, n: Number)
    ensures |NumberText(n)| == |SignText(n)| + |n.whole| + |FracText(n)| + |ExpText(n)|
    ensures var a := p + |SignText(n)|;
            At(t, NumberText(n), p) <==>
              && At(t, SignText(n), p) && At(t, n.whole, a) && At(t, FracText(n), a + |n.whole|)
              && At(t, ExpText(n), a + |n.whole| + |FracText(n)|)
  {
    assert NumberText(n) == SignText(n) + n.whole + FracText(n) + ExpText(n);
    hide NumberText, SignText, FracText, ExpText, At;
    AtSplit(t, p, SignText(n) + n.whole + FracText(n), ExpText(n));
    AtSplit(t, p, SignText(n) + n.whole, FracText(n));
    AtSplit(t, p, SignText(n), n.whole);
  }

  lemma NumberHasDigit(n: Number)
    requires LenientNumber(n)
    ensures Digits(n.whole) && (n.whole != "" || |FracText(n)| > 1)
  {
  }

  lemma ScansNumber(t: string, p: nat, n: Number)
    requires LenientNumber(n) && At(t, NumberText(n), p) && Follows(t, p + |NumberText(n)|)
    ensures ScanNumber(t, p) == p + |NumberText(n)| && |NumberText(n)| > 0
  {
    hide *;
    NumberHasDigit(n);
    NumberStands(t, p, n);
    SignSeen(t, p, n);
    var a := p + |SignText(n)|;
    var b := a + |n.whole|;
    var c := b + |FracText(n)|;
    ScansTail(t, c, n);
    ScansFrac(t, b, n);
    AtBound(t, n.whole, a);
    SkipAllDigits(t, a, n.whole);
    ScanFrom(t, p, a, b, c, c + |ExpText(n)|);
  }

  /** The optional minus sign is there, and no other. */
  lemma SignSeen(t: string, p: nat, n: Number)
    requires LenientNumber(n)
    requires At(t, SignText(n), p) && At(t, n.whole, p + |SignText(n)|)
    ensures p <= |t| && p + |SignText(n)| == if Sees(t, p, '-') || Sees(t, p, '+') then p + 1 else p
  {
    if n.whole != "" { assert t[p + |SignText(n)|] == n.whole[0]; }
  }

  /** The four stops of a scan put together. */
  lemma ScanFrom(t: string, p: nat, a: nat, b: nat, c: nat, q: nat)
    requires p <= |t| && a == (if Sees(t, p, '-') || Sees(t, p, '+') then p + 1 else p)
    requires b == SkipDigits(t, a)
    requires c == if Sees(t, b, '.') then SkipDigits(t, b + 1) else b
    requires b > a || c > b + 1
    requires q == ScanExponent(t, c)
    ensures ScanNumber(t, p) == q
  {
  }

  lemma ScansFrac(t: string, b: nat, n: Number)
    requires LenientNumber(n) && At(t, FracText(n), b)
    requires var c := b + |FracText(n)|; c < |t| ==> !IsDigit(t[c]) && t[c] != '.'
    ensures b < |t| ==> !IsDigit(t[b])
    ensures (if Sees(t, b, '.') then SkipDigits(t, b + 1) else b) == b + |FracText(n)|
  {
    if n.frac != "" {
      AtSplit(t, b, ".", n.frac);
      SkipAllDigits(t, b + 1, n.frac);
    }
  }

  lemma ScansTail(t: string, f: nat, n: Number)
    requires LenientNumber(n) && At(t, ExpText(n), f) && Follows(t, f + |ExpText(n)|)
    ensures f <= |t| && (f < |t| ==> !IsDigit(t[f]) && t[f] != '.')
    ensures ScanExponent(t, f) == f + |ExpText(n)|
  {
    if n.exp != "" {
      var g := f + 1 + |n.expSign|;
      AtSplit(t, f, [n.expMark] + n.expSign, n.exp);
      AtSplit(t, f, [n.expMark], n.expSign);
      SkipAllDigits(t, g, n.exp);
      SignStands(t, f + 1, n.expSign);
      assert t[g] == n.exp[0];
      hide At, SkipDigits, Digits, Follows;
      assert ScanExponent(t, f) == g + |n.exp|;
    }
  }

  lemma SignStands(t: string, p: nat, sign: string)
    requires At(t, sign, p) && sign in {"", "+", "-"}
    ensures sign != "" ==> Sees(t, p, '-') || Sees(t, p, '+')
  {
  }

  lemma CharsUnfold(t: string, p: nat, u: Unit)
    requires LenientUnit(u) && At(t, UnitText(u), p)
    ensures p + |UnitText(u)| <= |t|
    ensures ParseChars(t, p) == Prepend([UnitValue(u)], ParseChars(t, p + |UnitText(u)|))
  {
    AtBound(t, UnitText(u), p);
    if u.Hex? {
      AtSplit(t, p, "\\u", u.h);
      assert "?" == [UnitValue(u)];
    }
  }

  lemma {:induction false} ParsesChars(t: string, p: nat, us: seq<Unit>)
    requires LenientUnits(us) && At(t, UnitsText(us) + "\"", p)
    ensures ParseChars(t, p) == Ok(UnitsValue(us), p + |UnitsText(us)| + 1)
    decreases |us|
  {
    AtSplit(t, p, UnitsText(us), "\"");
    if us != [] {
      hide ParseChars, UnitText, UnitValue;
      var u := us[0];
      AtSplit(t, p, UnitText(u), UnitsText(us[1..]));
      AtSplit(t, p + |UnitText(u)|, UnitsText(us[1..]), "\"");
      CharsUnfold(t, p, u);
      ParsesChars(t, p + |UnitText(u)|, us[1..]);
    }
  }

  lemma ParsesString(t: string, p: nat, us: seq<Unit>)
    requires LenientUnits(us) && At(t, Quoted(us), p)
    ensures ParseString(t, p) == Ok(UnitsValue(us), p + |Quoted(us)|)
  {
    AtSplit(t, p, "\"", UnitsText(us) + "\"");
    assert Quoted(us) == "\"" + (UnitsText(us) + "\"");
    assert t[p] == '"';
    ParsesChars(t, p + 1, us);
  }

  lemma FirstOfText(d: Doc)
    requires Lenient(d)
    ensures Text(d) != "" && !IsSpace(Text(d)[0])
    ensures d.DNum? ==> Text(d)[0] == '-' || IsDigit(Text(d)[0])
    ensures d.DStr? ==> Text(d)[0] == '"'
    ensures d.DArr? ==> Text(d)[0] == '['
    ensures d.DObj? ==> Text(d)[0] == '{'
  {
    if d.DNum? {
      var n := d.n;
      assert NumberText(n)[0] == if n.neg then '-' else n.whole[0];
    }
  }

  lemma ParsesNumber(t: string, p: nat, n: Number)
    requires LenientNumber(n) && At(t, NumberText(n), p) && Follows(t, p + |NumberText(n)|)
    ensures ParseValue(t, p) == Ok(Num(NumberText(n)), p + |NumberText(n)|)
  {
    NumberBegins(n);
    hide NumberText, LenientNumber, Follows, ScanNumber, ParseElems, ParseMembers, ParseString, ParseLiteral;
    ScansNumber(t, p, n);
    AtIsSlice(t, NumberText(n), p);
    assert t[p] == NumberText(n)[0];
  }

  lemma NumberBegins(n: Number)
    requires LenientNumber(n)
    ensures NumberText(n) != "" && (NumberText(n)[0] == '-' || IsDigit(NumberText(n)[0]))
  {
  }

  lemma ParsesWord(t: string, p: nat, d: Doc)
    requires (d.DNull? || d.DTrue? || d.DFalse?) && At(t, Text(d), p)
    ensures ParseValue(t, p) == Ok(Denote(d), p + |Text(d)|)
  {
  }

  lemma ParsesQuoted(t: string, p: nat, us: seq<Unit>)
    requires LenientUnits(us) && At(t, Quoted(us), p)
    ensures ParseValue(t, p) == Ok(Str(UnitsValue(us)), p + |Quoted(us)|)
  {
    assert Quoted(us)[0] == '"';
    ParsesString(t, p, us);
  }

  lemma {:induction false} ParsesValue(t: string, p: nat, d: Doc)
    requires Lenient(d) && At(t, Text(d), p) && Follows(t, p + |Text(d)|)
    ensures ParseValue(t, p) == Ok(Denote(d), p + |Text(d)|)
    decreases d, 0
  {
    FirstOfText(d);
    match d {
      case DNum(n) => ParsesNumber(t, p, n);
      case DStr(us) => ParsesQuoted(t, p, us);
      case DArr(pad, es) => ParsesArray(t, p, d);
      case DObj(pad, ms) => ParsesObject(t, p, d);
      case _ => ParsesWord(t, p, d);
    }
  }

  lemma {:induction false} ParsesArray(t: string, p: nat, d: Doc)
    requires d.DArr? && Lenient(d) && At(t, Text(d), p) && Sees(t, p, '[')
    ensures ParseValue(t, p) == Ok(Denote(d), p + |Text(d)|)
    decreases d.elems, 2
  {
    hide ParseValue, ParseElems, ElemsText;
    var body := if d.elems.NoElems? then d.pad else ElemsText(d.elems);
    AtSplit(t, p, "[" + body, "]");
    AtSplit(t, p, "[", body);
    if d.elems.NoElems? {
      SkipSpacing(t, p + 1, d.pad);
      ArrayUnfold(t, p, p + 1 + |d.pad|);
    } else {
      AtSplit(t, p + 1, body, "]");
      ElemsBegin(t, p + 1, d.elems);
      ParsesElems(t, p + 1, d.elems, []);
      assert [] + DenoteElems(d.elems) == DenoteElems(d.elems);
      ArrayUnfold(t, p, SkipSpace(t, p + 1));
    }
  }

  lemma ArrayUnfold(t: string, p: nat, a: nat)
    requires Sees(t, p, '[') && SkipSpace(t, p + 1) == a
    ensures Sees(t, a, ']') ==> ParseValue(t, p) == Ok(Arr([]), a + 1)
    ensures !Sees(t, a, ']') && ParseElems(t, p + 1, []).Ok? ==>
              ParseValue(t, p) == Ok(Arr(ParseElems(t, p + 1, []).value), ParseElems(t, p + 1, []).pos)
  {
    hide ParseElems, ParseMembers;
  }

  /** An element list does not begin like the empty array. */
  lemma ElemsBegin(t: string, p: nat, es: Elems)
    requires es.Elem? && LenientElems(es) && At(t, ElemsText(es), p)
    ensures !Sees(t, SkipSpace(t, p), ']')
  {
    hide ElemsText, Text;
    ElemsParts(t, p, es);
    SkipSpacing(t, p, es.pre);
    FirstOfText(es.value);
    assert t[p + |es.pre|] == Text(es.value)[0];
    NotCloser(es.value);
  }

  lemma NotCloser(d: Doc)
    requires Lenient(d)
    ensures Text(d) != "" && Text(d)[0] != ']' && Text(d)[0] != '}'
  {
    FirstOfText(d);
  }

  lemma ElemsParts(t: string, p: nat, es: Elems)
    requires es.Elem? && At(t, ElemsText(es), p)
    ensures At(t, es.pre, p) && At(t, Text(es.value), p + |es.pre|)
    ensures var q := p + |es.pre| + |Text(es.value)|;
            && At(t, es.post, q)
            && (es.rest.Elem? ==> At(t, ",", q + |es.post|) && At(t, ElemsText(es.rest), q + |es.post| + 1))
  {
    hide At, Text;
    var tail := if es.rest.NoElems? then "" else "," + ElemsText(es.rest);
    var v := Text(es.value);
    AtSplit(t, p, es.pre + v + es.post, tail);
    AtSplit(t, p, es.pre + v, es.post);
    AtSplit(t, p, es.pre, v);
    if es.rest.Elem? { AtSplit(t, p + |es.pre + v + es.post|, ",", ElemsText(es.rest)); }
  }

  lemma ElemsUnfold(t: string, p: nat, soFar: seq<Value>, v: Value, b: nat, c: nat)
    requires p <= |t| && ParseValue(t, p) == Ok(v, b) && SkipSpace(t, b) == c
    ensures Sees(t, c, ']') ==> ParseElems(t, p, soFar) == Ok(soFar + [v], c + 1)
    ensures Sees(t, c, ',') ==> ParseElems(t, p, soFar) == ParseElems(t, c + 1, soFar + [v])
  {
    hide ParseValue, SkipSpace;
  }

  /** Where the parts of the first element and the separator after it stand. */
  lemma ElemLayout(t: string, p: nat, es: Elems)
    requires es.Elem? && LenientElems(es) && At(t, ElemsText(es) + "]", p)
    ensures var a := p + |es.pre|;
            var b := a + |Text(es.value)|;
            var c := b + |es.post|;
            && a <= b <= c < |t| && SkipSpace(t, p) == SkipSpace(t, a)
            && At(t, Text(es.value), a) && Follows(t, b) && SkipSpace(t, b) == c
            && (es.rest.NoElems? ==> Sees(t, c, ']') && c == p + |ElemsText(es)|)
            && (es.rest.Elem? ==>
                  Sees(t, c, ',') && At(t, ElemsText(es.rest) + "]", c + 1)
                  && |ElemsText(es)| == c - p + 1 + |ElemsText(es.rest)|)
  {
    hide ParseValue, SkipSpace, Text;
    AtSplit(t, p, ElemsText(es), "]");
    ElemsParts(t, p, es);
    var b := p + |es.pre| + |Text(es.value)|;
    SkipSpacing(t, p, es.pre);
    FollowsSpacing(t, b, es.post, if es.rest.NoElems? then ']' else ',');
    if es.rest.Elem? { AtSplit(t, b + |es.post| + 1, ElemsText(es.rest), "]"); }
  }

  lemma {:induction false} ParsesElems(t: string, p: nat, es: Elems, soFar: seq<Value>)
    requires es.Elem? && LenientElems(es) && At(t, ElemsText(es) + "]", p)
    ensures ParseElems(t, p, soFar) == Ok(soFar + DenoteElems(es), p + |ElemsText(es)| + 1)
    decreases es, 1
  {
    hide ParseValue, ParseElems, ParseMembers, Text, ElemsText, MembersText;
    var v := Denote(es.value);
    var a := p + |es.pre|;
    var b := a + |Text(es.value)|;
    var c := b + |es.post|;
    ElemLayout(t, p, es);
    ParsesValue(t, a, es.value);
    SameFromSpace(t, p, a);
    ElemsUnfold(t, p, soFar, v, b, c);
    if es.rest.Elem? {
      ParsesElems(t, c + 1, es.rest, soFar + [v]);
      assert soFar + [v] + DenoteElems(es.rest) == soFar + ([v] + DenoteElems(es.rest));
    } else {
      assert [v] + DenoteElems(es.rest) == [v];
    }
  }

  /** Space and then a separator may follow a value, and the separator is where skipping ends. */
  lemma FollowsSpacing(t: string, b: nat, w: string, c: char)
    requires Spacing(w) && At(t, w, b) && Sees(t, b + |w|, c) && c in [',', ']', '}']
    ensures Follows(t, b) && SkipSpace(t, b) == b + |w|
  {
    SkipSpacing(t, b, w);
  }

  /** Space before a value makes no difference. */
  lemma SameFromSpace(t: string, p: nat, q: nat)
    requires p <= |t| && q <= |t| && SkipSpace(t, p) == SkipSpace(t, q)
    ensures ParseValue(t, p) == ParseValue(t, q)
  {
    hide ParseElems, ParseMembers, SkipSpace, ParseString, ParseNumber, ParseLiteral;
  }

  lemma {:induction false} ParsesObject(t: string, p: nat, d: Doc)
    requires d.DObj? && Lenient(d) && At(t, Text(d), p) && Sees(t, p, '{')
    ensures ParseValue(t, p) == Ok(Denote(d), p + |Text(d)|)
    decreases d.members, 2
  {
    hide ParseValue, ParseMembers, MembersText;
    var body := if d.members.NoMembers? then d.pad else MembersText(d.members);
    AtSplit(t, p, "{" + body, "}");
    AtSplit(t, p, "{", body);
    if d.members.NoMembers? {
      SkipSpacing(t, p + 1, d.pad);
      ObjectUnfold(t, p, p + 1 + |d.pad|);
    } else {
      AtSplit(t, p + 1, body, "}");
      MembersBegin(t, p + 1, d.members);
      ParsesMembers(t, p + 1, d.members, map[]);
      ObjectUnfold(t, p, SkipSpace(t, p + 1));
    }
  }

  lemma ObjectUnfold(t: string, p: nat, a: nat)
    requires Sees(t, p, '{') && SkipSpace(t, p + 1) == a
    ensures Sees(t, a, '}') ==> ParseValue(t, p) == Ok(Obj(map[]), a + 1)
    ensures !Sees(t, a, '}') && ParseMembers(t, p + 1, map[]).Ok? ==>
              ParseValue(t, p) == Ok(Obj(ParseMembers(t, p + 1, map[]).value), ParseMembers(t, p + 1, map[]).pos)
  {
    hide ParseElems, ParseMembers;
  }

  lemma MembersBegin(t: string, p: nat, ms: Members)
    requires ms.Member? && LenientMembers(ms) && At(t, MembersText(ms), p)
    ensures !Sees(t, SkipSpace(t, p), '}')
  {
    hide MembersText, Text;
    MembersParts(t, p, ms);
    SkipSpacing(t, p, ms.pre);
    assert Quoted(ms.key)[0] == '"';
  }

  lemma MembersParts(t: string, p: nat, ms: Members)
    requires ms.Member? && At(t, MembersText(ms), p)
    ensures At(t, ms.pre, p) && At(t, Quoted(ms.key), p + |ms.pre|)
    ensures var q := p + |ms.pre| + |Quoted(ms.key)|;
            && At(t, ms.mid, q) && At(t, ":", q + |ms.mid|) && At(t, ms.mid2, q + |ms.mid| + 1)
    ensures var q := p + |ms.pre| + |Quoted(ms.key)| + |ms.mid| + 1 + |ms.mid2|;
            && At(t, Text(ms.value), q) && At(t, ms.post, q + |Text(ms.value)|)
            && (ms.rest.Member? ==>
                  var r := q + |Text(ms.value)| + |ms.post|;
                  At(t, ",", r) && At(t, MembersText(ms.rest), r + 1))
  {
    hide At, Text, Quoted;
    var tail := if ms.rest.NoMembers? then "" else "," + MembersText(ms.rest);
    var k, v := Quoted(ms.key), Text(ms.value);
    AtSplit(t, p, ms.pre + k + ms.mid + ":" + ms.mid2 + v + ms.post, tail);
    AtSplit(t, p, ms.pre + k + ms.mid + ":" + ms.mid2 + v, ms.post);
    AtSplit(t, p, ms.pre + k + ms.mid + ":" + ms.mid2, v);
    AtSplit(t, p, ms.pre + k + ms.mid + ":", ms.mid2);
    AtSplit(t, p, ms.pre + k + ms.mid, ":");
    AtSplit(t, p, ms.pre + k, ms.mid);
    AtSplit(t, p, ms.pre, k);
    if ms.rest.Member? {
      AtSplit(t, p + |ms.pre + k + ms.mid + ":" + ms.mid2 + v + ms.post|, ",", MembersText(ms.rest));
    }
  }

  lemma MembersUnfold(
      t: string, p: nat, soFar: map<string, Value>, a: nat, k: string, b: nat, c: nat, v: Value, e: nat, f: nat)
    requires p <= |t| && SkipSpace(t, p) == a && ParseString(t, a) == Ok(k, b)
    requires SkipSpace(t, b) == c && Sees(t, c, ':')
    requires ParseValue(t, c + 1) == Ok(v, e) && SkipSpace(t, e) == f
    ensures Sees(t, f, '}') ==> ParseMembers(t, p, soFar) == Ok(Emplace(soFar, k, v), f + 1)
    ensures Sees(t, f, ',') ==> ParseMembers(t, p, soFar) == ParseMembers(t, f + 1, Emplace(soFar, k, v))
  {
    hide ParseValue, ParseString, SkipSpace, Emplace;
  }

  /** Where the parts of the first member and the separator after it stand. */
  lemma MemberLayout(t: string, p: nat, ms: Members)
    requires ms.Member? && LenientMembers(ms) && At(t, MembersText(ms) + "}", p)
    ensures var c := p + |ms.pre| + |Quoted(ms.key)| + |ms.mid|;
            var d := c + 1 + |ms.mid2|;
            var e := d + |Text(ms.value)|;
            var f := e + |ms.post|;
            && At(t, MembersText(ms), p) && c < d <= e <= f < |t| && SkipSpace(t, c + 1) == SkipSpace(t, d)
            && At(t, Text(ms.value), d) && Follows(t, e) && SkipSpace(t, e) == f
            && (ms.rest.NoMembers? ==> Sees(t, f, '}') && f == p + |MembersText(ms)|)
            && (ms.rest.Member? ==>
                  Sees(t, f, ',') && At(t, MembersText(ms.rest) + "}", f + 1)
                  && |MembersText(ms)| == f - p + 1 + |MembersText(ms.rest)|)
  {
    hide ParseValue, ParseString, SkipSpace, Text, At, Follows, IsSpace, Spacing, Quoted;
    assert Spacing(ms.mid2) && Spacing(ms.post);
    MembersLength(ms);
    hide MembersText, LenientMembers, LenientUnits, Lenient;
    AtSplit(t, p, MembersText(ms), "}");
    MembersParts(t, p, ms);
    var c := p + |ms.pre| + |Quoted(ms.key)| + |ms.mid|;
    var d := c + 1 + |ms.mid2|;
    var e := d + |Text(ms.value)|;
    var f := e + |ms.post|;
    SkipSpacing(t, c + 1, ms.mid2);
    AtBound(t, Text(ms.value), d);
    if ms.rest.Member? {
      SeesChar(t, f, ',');
      FollowsSpacing(t, e, ms.post, ',');
      AtSplit(t, f + 1, MembersText(ms.rest), "}");
    } else {
      SeesChar(t, f, '}');
      FollowsSpacing(t, e, ms.post, '}');
    }
  }

  lemma MembersLength(ms: Members)
    requires ms.Member?
    ensures |MembersText(ms)|
         == |ms.pre| + |Quoted(ms.key)| + |ms.mid| + 1 + |ms.mid2| + |Text(ms.value)| + |ms.post|
            + if ms.rest.Member? then 1 + |MembersText(ms.rest)| else 0
  {
    hide Text, Quoted;
  }

  lemma SeesChar(t: string, p: nat, c: char)
    requires At(t, [c], p)
    ensures Sees(t, p, c)
  {
  }

  function ValueAt(p: nat, ms: Members): nat
    requires ms.Member?
  { p + |ms.pre| + |Quoted(ms.key)| + |ms.mid| + 1 + |ms.mid2| }

  function SeparatorAt(p: nat, ms: Members): nat
    requires ms.Member?
  { ValueAt(p, ms) + |Text(ms.value)| + |ms.post| }

  /** One member, once its value has been read. */
  lemma ParsesMember(t: string, p: nat, ms: Members, soFar: map<string, Value>)
    requires ms.Member? && LenientMembers(ms) && At(t, MembersText(ms) + "}", p) && ValueAt(p, ms) <= |t|
    requires ParseValue(t, ValueAt(p, ms)) == Ok(Denote(ms.value), ValueAt(p, ms) + |Text(ms.value)|)
    ensures var f, next := SeparatorAt(p, ms), Emplace(soFar, UnitsValue(ms.key), Denote(ms.value));
            && p <= f < |t|
            && (ms.rest.NoMembers? ==> ParseMembers(t, p, soFar) == Ok(next, f + 1) && f == p + |MembersText(ms)|)
            && (ms.rest.Member? ==>
                  ParseMembers(t, p, soFar) == ParseMembers(t, f + 1, next)
                  && At(t, MembersText(ms.rest) + "}", f + 1)
                  && |MembersText(ms)| == f - p + 1 + |MembersText(ms.rest)|)
  {
    hide ParseValue, ParseElems, ParseMembers, ParseString, Text, ElemsText, MembersText;
    hide At, SkipSpace, Follows, LenientMembers, Quoted, Denote, UnitsValue;
    var k, v := UnitsValue(ms.key), Denote(ms.value);
    var a := p + |ms.pre|;
    var b := a + |Quoted(ms.key)|;
    var c := b + |ms.mid|;
    var d := ValueAt(p, ms);
    MemberLayout(t, p, ms);
    MemberKey(t, p, ms);
    SameFromSpace(t, c + 1, d);
    MembersUnfold(t, p, soFar, a, k, b, c, v, d + |Text(ms.value)|, SeparatorAt(p, ms));
  }

  lemma ValueStands(t: string, p: nat, ms: Members)
    requires ms.Member? && LenientMembers(ms) && At(t, MembersText(ms) + "}", p)
    ensures var d := ValueAt(p, ms);
            Lenient(ms.value) && LenientMembers(ms.rest) && At(t, Text(ms.value), d) && d + |Text(ms.value)| <= |t|
            && Follows(t, d + |Text(ms.value)|)
  {
    hide At, Text, MembersText, Follows, Quoted, Spacing;
    MemberLayout(t, p, ms);
  }

  lemma {:induction false} ParsesMembers(t: string, p: nat, ms: Members, soFar: map<string, Value>)
    requires ms.Member? && LenientMembers(ms) && At(t, MembersText(ms) + "}", p)
    ensures ParseMembers(t, p, soFar) == Ok(DenoteMembers(ms, soFar), p + |MembersText(ms)| + 1)
    decreases ms, 1
  {
    hide ParseValue, ParseMembers, Text, MembersText, At, Follows, Lenient, LenientMembers, ValueAt, SeparatorAt;
    ValueStands(t, p, ms);
    ParsesValue(t, ValueAt(p, ms), ms.value);
    ParsesMember(t, p, ms, soFar);
    if ms.rest.Member? {
      ParsesMembers(t, SeparatorAt(p, ms) + 1, ms.rest, Emplace(soFar, UnitsValue(ms.key), Denote(ms.value)));
    }
  }

  lemma MemberKey(t: string, p: nat, ms: Members)
    requires ms.Member? && LenientMembers(ms) && At(t, MembersText(ms), p)
    ensures var a := p + |ms.pre|;
            var b := a + |Quoted(ms.key)|;
            && a <= b <= |t| && SkipSpace(t, p) == a && ParseString(t, a) == Ok(UnitsValue(ms.key), b)
            && SkipSpace(t, b) == b + |ms.mid| && Sees(t, b + |ms.mid|, ':')
  {
    hide ParseValue, ParseString, SkipSpace, Text, MembersText, At, Quoted;
    MembersParts(t, p, ms);
    var a := p + |ms.pre|;
    var b := a + |Quoted(ms.key)|;
    SkipSpacing(t, p, ms.pre);
    QuoteBegins(t, a, ms.key);
    ParsesString(t, a, ms.key);
    AtBound(t, Quoted(ms.key), a);
    SkipSpacing(t, b, ms.mid);
    SeesChar(t, b + |ms.mid|, ':');
    SkipStops(t, a);
    SkipStops(t, b + |ms.mid|);
  }

  lemma QuoteBegins(t: string, p: nat, us: seq<Unit>)
    requires At(t, Quoted(us), p)
    ensures Sees(t, p, '"')
  {
    assert Quoted(us)[0] == '"';
  }

  lemma SkipStops(t: string, p: nat)
    requires p < |t| && !IsSpace(t[p])
    ensures SkipSpace(t, p) == p
  {
  }

  /** Every lenient text, with any space around it, parses to what it denotes. */
  lemma LenientTextParses(before: string, d: Doc, after: string)
    requires Lenient(d) && Spacing(before) && Spacing(after)
    ensures Parse(before + Text(d) + after) == Some(Denote(d))
  {
    hide ParseValue, SkipSpace, Text, Lenient;
    var t := before + Text(d) + after;
    var p := |before|;
    TextLayout(t, before, d, after);
    ParsesValue(t, p, d);
    SameFromSpace(t, SkipSpace(t, 0), p);
  }

  /** Every RFC 8259 text, in any spelling and with any blanks, parses to what it denotes. */
  lemma EveryTextParses(before: string, d: Doc, after: string)
    requires Good(d) && Blank(before) && Blank(after)
    ensures Parse(before + Text(d) + after) == Some(Denote(d))
  {
    GoodIsLenient(d);
    LenientTextParses(before, d, after);
  }

  lemma {:induction false} SkipTwice(t: string, p: nat)
    requires p <= |t|
    ensures SkipSpace(t, SkipSpace(t, p)) == SkipSpace(t, p)
    decreases |t| - p
  {
    if p < |t| && IsSpace(t[p]) { SkipTwice(t, p + 1); }
  }

  lemma TextLayout(t: string, before: string, d: Doc, after: string)
    requires Lenient(d) && Spacing(before) && Spacing(after) && t == before + Text(d) + after
    ensures var p := |before|;
            && At(t, Text(d), p) && Follows(t, p + |Text(d)|)
            && SkipSpace(t, 0) == SkipSpace(t, p) && SkipSpace(t, SkipSpace(t, 0)) == SkipSpace(t, 0)
            && SkipSpace(t, p + |Text(d)|) == |t|
  {
    hide SkipSpace, Text, Lenient;
    AtIsSlice(t, t, 0);
    AtSplit(t, 0, before + Text(d), after);
    AtSplit(t, 0, before, Text(d));
    SkipSpacing(t, 0, before);
    SkipSpacing(t, |before| + |Text(d)|, after);
    SkipTwice(t, 0);
  }
}
