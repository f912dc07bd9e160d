/** Exactly which texts `parse_json` accepts, and with which value: the lenient texts, spelled with
    any space around them. Json proves that each of them parses; here every accepted text is shown to
    be one of them. */
module JsonAccepted {
  import opened Texts
  import opened Json

  /** d is a lenient spelling of v that stands in t from p to e. */
  ghost predicate Spells(t: string, p: nat, e: nat, d: Doc, v: Value) {
    Lenient(d) && At(t, Text(d), p) && e == p + |Text(d)| && Denote(d) == v
  }

  // ----- space, digits, characters -----

  lemma {:induction false} SpaceRead(t: string, p: nat) returns (w: string)
    requires p <= |t|
    ensures Spacing(w) && At(t, w, p) && SkipSpace(t, p) == p + |w|
    decreases |t| - p
  {
    if p < |t| && IsSpace(t[p]) {
      var rest := SpaceRead(t, p + 1);
      w := [t[p]] + rest;
      assert w[1..] == rest;
    } else {
      w := "";
    }
  }

  lemma {:induction false} SkippedDigits(t: string, p: nat)
    requires p <= |t|
    ensures At(t, t[p..SkipDigits(t, p)], p) && Digits(t[p..SkipDigits(t, p)])
    decreases |t| - p
  {
    var q := SkipDigits(t, p);
    AtIsSlice(t, t[p..q], p);
    if p < q {
      SkippedDigits(t, p + 1);
      assert t[p..q] == [t[p]] + t[p + 1..q];
    }
  }

  lemma Joined(t: string, p: nat, a: string, b: string)
    requires At(t, a, p) && At(t, b, p + |a|)
    ensures At(t, a + b, p)
  {
    AtSplit(t, p, a, b);
  }

  /** The unit that stands at p when the parser takes a character there. */
  function UnitAt(t: string, p: nat): Unit
    requires p < |t| && t[p] == '\\' ==> p + 1 < |t| && (t[p + 1] == 'u' ==> p + 6 <= |t|)
    requires p < |t|
  {
    if t[p] != '\\' then Raw(t[p]) else if t[p + 1] == 'u' then Hex(t[p + 2..p + 6]) else Esc(t[p + 1])
  }

  lemma OneUnit(t: string, p: nat)
    requires p < |t| && t[p] != '"' && ParseChars(t, p).Ok?
    ensures t[p] == '\\' ==> p + 1 < |t| && (t[p + 1] == 'u' ==> p + 6 <= |t|)
    ensures var u := UnitAt(t, p);
            && LenientUnit(u) && At(t, UnitText(u), p) && p < p + |UnitText(u)| <= |t|
            && ParseChars(t, p) == Prepend([UnitValue(u)], ParseChars(t, p + |UnitText(u)|))
  {
    var u := UnitAt(t, p);
    if u.Hex? {
      assert t[p..p + 6] == "\\u" + u.h;
    }
    AtIsSlice(t, UnitText(u), p);
    CharsUnfold(t, p, u);
  }

  lemma UnitsSpread(u: Unit, rest: seq<Unit>)
    ensures UnitText(u) + (UnitsText(rest) + "\"") == UnitsText([u] + rest) + "\""
    ensures UnitsValue([u] + rest) == [UnitValue(u)] + UnitsValue(rest)
  {
    hide UnitText, UnitValue;
    assert ([u] + rest)[1..] == rest;
  }

  lemma {:induction false} CharsAreUnits(t: string, p: nat) returns (us: seq<Unit>)
    requires p <= |t| && ParseChars(t, p).Ok?
    ensures LenientUnits(us) && At(t, UnitsText(us) + "\"", p)
    ensures ParseChars(t, p) == Json.Ok(UnitsValue(us), p + |UnitsText(us)| + 1)
    decreases |t| - p
  {
    if t[p] == '"' {
      us := [];
    } else {
      hide ParseChars, UnitText, UnitValue, UnitsText, UnitsValue, At, LenientUnit;
      OneUnit(t, p);
      var u := UnitAt(t, p);
      var rest := CharsAreUnits(t, p + |UnitText(u)|);
      us := [u] + rest;
      Joined(t, p, UnitText(u), UnitsText(rest) + "\"");
      UnitsSpread(u, rest);
    }
  }

  lemma StringIsQuoted(t: string, p: nat) returns (us: seq<Unit>)
    requires p <= |t| && ParseString(t, p).Ok?
    ensures LenientUnits(us) && At(t, Quoted(us), p)
    ensures ParseString(t, p) == Json.Ok(UnitsValue(us), p + |Quoted(us)|)
  {
    hide ParseChars, At, UnitsText, UnitsValue, LenientUnits;
    us := CharsAreUnits(t, p + 1);
    assert Quoted(us) == "\"" + (UnitsText(us) + "\"");
    assert At(t, "\"", p) by { AtIsSlice(t, "\"", p); }
    Joined(t, p, "\"", UnitsText(us) + "\"");
  }

  // ----- numbers -----

  /** Where the digits begin, and where the whole part, the fraction and the token end. */
  datatype Cuts = Cuts(a: nat, b: nat, c: nat, e: nat)

  function CutsOf(t: string, p: nat): (k: Cuts)
    requires p <= |t|
    ensures p <= k.a <= k.b <= k.c <= k.e <= |t|
  {
    var a := if Sees(t, p, '-') || Sees(t, p, '+') then p + 1 else p;
    var b := SkipDigits(t, a);
    var c := if Sees(t, b, '.') then SkipDigits(t, b + 1) else b;
    Cuts(a, b, c, ScanExponent(t, c))
  }

  /** The exponent that a scan passes over: its mark, its sign and its digits. */
  lemma ExponentRead(t: string, c: nat) returns (mark: char, sign: string, exp: string)
    requires c <= |t|
    ensures (mark == 'e' || mark == 'E') && sign in {"", "+", "-"} && Digits(exp)
    ensures var text := if exp == "" then "" else [mark] + sign + exp;
            At(t, text, c) && ScanExponent(t, c) == c + |text|
  {
    mark, sign, exp := 'e', "", "";
    var q := ScanExponent(t, c);
    if q > c {
      var g := if Sees(t, c + 1, '-') || Sees(t, c + 1, '+') then c + 2 else c + 1;
      mark, sign, exp := t[c], t[c + 1..g], t[g..q];
      SkippedDigits(t, g);
      AtIsSlice(t, [mark] + sign + exp, c);
      assert t[c..q] == [mark] + sign + exp;
      if g == c + 2 { assert sign == [t[c + 1]]; } else { assert sign == ""; }
    }
  }

  /** The point and the digits behind it, if there are any. */
  lemma FractionStands(t: string, b: nat, n: Number)
    requires b <= |t| && n.dot == Sees(t, b, '.')
    requires n.frac == if n.dot then t[b + 1..SkipDigits(t, b + 1)] else ""
    ensures Digits(n.frac) && At(t, FracText(n), b)
    ensures b + |FracText(n)| == if n.dot then SkipDigits(t, b + 1) else b
  {
    if n.dot {
      SkippedDigits(t, b + 1);
      Joined(t, b, ".", n.frac);
    }
  }

  /** The sign and the digits in front of the point. */
  lemma WholeStands(t: string, p: nat, n: Number)
    requires p < |t| && (t[p] == '-' || IsDigit(t[p]))
    requires var k := CutsOf(t, p); n.neg == (t[p] == '-') && n.whole == t[k.a..k.b]
    ensures var k := CutsOf(t, p);
            && Digits(n.whole) && At(t, SignText(n), p) && At(t, n.whole, k.a)
            && k.a == p + |SignText(n)| && k.b == k.a + |n.whole|
  {
    hide SkipDigits, ScanExponent;
    SkippedDigits(t, CutsOf(t, p).a);
  }

  lemma NumberIsToken(t: string, p: nat) returns (n: Number)
    requires p < |t| && (t[p] == '-' || IsDigit(t[p])) && ScanNumber(t, p) > p
    ensures LenientNumber(n) && At(t, NumberText(n), p) && ScanNumber(t, p) == p + |NumberText(n)|
  {
    hide *;
    var k := CutsOf(t, p);
    CutsMean(t, p);
    var mark, sign, exp := ExponentRead(t, k.c);
    var dot := Sees(t, k.b, '.');
    n := Number(t[p] == '-', t[k.a..k.b], dot, if dot then t[k.b + 1..k.c] else "", exp, mark, sign);
    WholeStands(t, p, n);
    FractionStands(t, k.b, n);
    ExpSpread(n);
    NumberStands(t, p, n);
    SomeDigit(t, p, n);
  }

  lemma ExpSpread(n: Number)
    ensures ExpText(n) == if n.exp == "" then "" else [n.expMark] + n.expSign + n.exp
  {
  }

  lemma CutsMean(t: string, p: nat)
    requires p <= |t|
    ensures var k := CutsOf(t, p);
            && (Sees(t, k.b, '.') ==> k.b < |t| && k.c == SkipDigits(t, k.b + 1))
            && (!Sees(t, k.b, '.') ==> k.c == k.b) && k.e == ScanExponent(t, k.c)
  {
  }

  lemma NumberIsRead(t: string, p: nat) returns (n: Number)
    requires p < |t| && (t[p] == '-' || IsDigit(t[p])) && ParseNumber(t, p).Ok?
    ensures LenientNumber(n) && At(t, NumberText(n), p)
    ensures ParseNumber(t, p) == Json.Ok(NumberText(n), p + |NumberText(n)|)
  {
    hide At, ScanNumber, NumberText;
    n := NumberIsToken(t, p);
    AtIsSlice(t, NumberText(n), p);
  }

  /** A scan that moved has read a digit, and only a minus sign can stand for the whole part. */
  lemma SomeDigit(t: string, p: nat, n: Number)
    requires p < |t| && (t[p] == '-' || IsDigit(t[p])) && ScanNumber(t, p) > p
    requires var k := CutsOf(t, p);
             && n.neg == (t[p] == '-') && n.whole == t[k.a..k.b] && n.dot == Sees(t, k.b, '.')
             && n.frac == if n.dot then t[k.b + 1..k.c] else ""
    requires Digits(n.whole) && Digits(n.frac) && Digits(n.exp)
    requires (n.expMark == 'e' || n.expMark == 'E') && n.expSign in {"", "+", "-"}
    ensures LenientNumber(n)
    ensures ScanNumber(t, p) == CutsOf(t, p).e
  {
    hide ScanExponent;
  }

  // ----- values -----

  lemma {:induction false} ValueIsText(t: string, p: nat) returns (d: Doc)
    requires p <= |t| && ParseValue(t, p).Ok?
    ensures var r := ParseValue(t, p); Spells(t, SkipSpace(t, p), r.pos, d, r.value)
    decreases |t| - p, 2
  {
    hide ParseElems, ParseMembers, ParseString, ParseNumber, At, ElemsText, MembersText, NumberText, Quoted;
    var q := SkipSpace(t, p);
    if t[q] == '{' {
      d := ObjectIsText(t, p);
    } else if t[q] == '[' {
      d := ArrayIsText(t, p);
    } else if t[q] == '"' {
      var us := StringIsQuoted(t, q);
      d := DStr(us);
    } else if t[q] == '-' || IsDigit(t[q]) {
      var n := NumberIsRead(t, q);
      d := DNum(n);
    } else {
      d := if t[q] == 't' then DTrue else if t[q] == 'f' then DFalse else DNull;
    }
  }

  lemma EmptyArray(pad: string)
    requires Spacing(pad)
    ensures var d := DArr(pad, NoElems);
            Lenient(d) && Text(d) == "[" + (pad + "]") && Denote(d) == Arr([])
  {
    hide Spacing;
  }

  lemma ArrayRead(t: string, p: nat)
    requires p <= |t| && Sees(t, SkipSpace(t, p), '[') && ParseValue(t, p).Ok?
    ensures var q := SkipSpace(t, p);
            var a := SkipSpace(t, q + 1);
            && (Sees(t, a, ']') ==> ParseValue(t, p) == Json.Ok(Arr([]), a + 1))
            && (!Sees(t, a, ']') ==>
                  var es := ParseElems(t, q + 1, []);
                  es.Ok? && ParseValue(t, p) == Json.Ok(Arr(es.value), es.pos))
  {
    hide ParseElems, ParseMembers, ParseString, ParseNumber, ParseLiteral;
  }

  lemma {:induction false} ArrayIsText(t: string, p: nat) returns (d: Doc)
    requires p <= |t| && Sees(t, SkipSpace(t, p), '[') && ParseValue(t, p).Ok?
    ensures var r := ParseValue(t, p); Spells(t, SkipSpace(t, p), r.pos, d, r.value)
    decreases |t| - p, 1
  {
    hide ParseValue, ParseElems, SkipSpace, Spacing, At, ElemsText;
    ArrayRead(t, p);
    var q := SkipSpace(t, p);
    var a := SkipSpace(t, q + 1);
    AtIsSlice(t, "[", q);
    if Sees(t, a, ']') {
      var pad := SpaceRead(t, q + 1);
      d := DArr(pad, NoElems);
      AtIsSlice(t, "]", a);
      Joined(t, q + 1, pad, "]");
      Joined(t, q, "[", pad + "]");
      EmptyArray(pad);
    } else {
      var es := ElemsAreText(t, q + 1, []);
      d := DArr("", es);
      Joined(t, q, "[", ElemsText(es) + "]");
      NoSpacing();
      assert Text(d) == "[" + (ElemsText(es) + "]") && Lenient(d);
      assert Denote(d) == Arr([] + DenoteElems(es));
    }
  }

  lemma NoSpacing()
    ensures Spacing("")
  {
  }

  lemma {:induction false} ElemsAreText(t: string, p: nat, soFar: seq<Value>) returns (es: Elems)
    requires p <= |t| && ParseElems(t, p, soFar).Ok?
    ensures es.Elem? && LenientElems(es) && At(t, ElemsText(es) + "]", p)
    ensures ParseElems(t, p, soFar) == Json.Ok(soFar + DenoteElems(es), p + |ElemsText(es)| + 1)
    decreases |t| - p, 3
  {
    hide ParseValue, SkipSpace, At, Text, ElemsText, Lenient, Spacing, Denote;
    var v := ParseValue(t, p);
    var d := ValueIsText(t, p);
    var q := SkipSpace(t, v.pos);
    var pre := SpaceRead(t, p);
    var post := SpaceRead(t, v.pos);
    if Sees(t, q, ']') {
      es := Elem(pre, d, post, NoElems);
      AtIsSlice(t, "]", q);
      assert DenoteElems(es) == [v.value];
    } else {
      var rest := ElemsAreText(t, q + 1, soFar + [v.value]);
      es := Elem(pre, d, post, rest);
      AtIsSlice(t, ",", q);
      Joined(t, q, ",", ElemsText(rest) + "]");
      assert DenoteElems(es) == [v.value] + DenoteElems(rest);
      assert soFar + [v.value] + DenoteElems(rest) == soFar + ([v.value] + DenoteElems(rest));
    }
    ElemsJoined(t, p, es);
  }

  lemma ElemsJoined(t: string, p: nat, es: Elems)
    requires es.Elem? && At(t, es.pre, p) && At(t, Text(es.value), p + |es.pre|)
    requires var q := p + |es.pre| + |Text(es.value)|;
             && At(t, es.post, q)
             && At(t, if es.rest.NoElems? then "]" else "," + (ElemsText(es.rest) + "]"), q + |es.post|)
    ensures At(t, ElemsText(es) + "]", p)
    ensures |ElemsText(es)| == |es.pre| + |Text(es.value)| + |es.post|
                               + if es.rest.NoElems? then 0 else 1 + |ElemsText(es.rest)|
  {
    hide At, Text;
    var v := Text(es.value);
    var tail := if es.rest.NoElems? then "]" else "," + (ElemsText(es.rest) + "]");
    Joined(t, p, es.pre, v);
    Joined(t, p, es.pre + v, es.post);
    Joined(t, p, es.pre + v + es.post, tail);
    assert ElemsText(es) + "]" == es.pre + v + es.post + tail;
  }

  lemma EmptyObject(pad: string)
    requires Spacing(pad)
    ensures var d := DObj(pad, NoMembers);
            Lenient(d) && Text(d) == "{" + (pad + "}") && Denote(d) == Obj(map[])
  {
    hide Spacing;
  }

  lemma ObjectRead(t: string, p: nat)
    requires p <= |t| && Sees(t, SkipSpace(t, p), '{') && ParseValue(t, p).Ok?
    ensures var q := SkipSpace(t, p);
            var a := SkipSpace(t, q + 1);
            && (Sees(t, a, '}') ==> ParseValue(t, p) == Json.Ok(Obj(map[]), a + 1))
            && (!Sees(t, a, '}') ==>
                  var ms := ParseMembers(t, q + 1, map[]);
                  ms.Ok? && ParseValue(t, p) == Json.Ok(Obj(ms.value), ms.pos))
  {
    hide ParseElems, ParseMembers, ParseString, ParseNumber, ParseLiteral;
  }

  lemma {:induction false} ObjectIsText(t: string, p: nat) returns (d: Doc)
    requires p <= |t| && Sees(t, SkipSpace(t, p), '{') && ParseValue(t, p).Ok?
    ensures var r := ParseValue(t, p); Spells(t, SkipSpace(t, p), r.pos, d, r.value)
    decreases |t| - p, 1
  {
    hide ParseValue, ParseMembers, SkipSpace, Spacing, At, MembersText;
    ObjectRead(t, p);
    var q := SkipSpace(t, p);
    var a := SkipSpace(t, q + 1);
    AtIsSlice(t, "{", q);
    if Sees(t, a, '}') {
      var pad := SpaceRead(t, q + 1);
      d := DObj(pad, NoMembers);
      AtIsSlice(t, "}", a);
      Joined(t, q + 1, pad, "}");
      Joined(t, q, "{", pad + "}");
      EmptyObject(pad);
    } else {
      var ms := MembersAreText(t, q + 1, map[]);
      d := DObj("", ms);
      Joined(t, q, "{", MembersText(ms) + "}");
      NoSpacing();
      assert Text(d) == "{" + (MembersText(ms) + "}") && Lenient(d);
      assert Denote(d) == Obj(DenoteMembers(ms, map[]));
    }
  }

  lemma {:induction false} MembersAreText(t: string, p: nat, soFar: map<string, Value>) returns (ms: Members)
    requires p <= |t| && ParseMembers(t, p, soFar).Ok?
    ensures ms.Member? && LenientMembers(ms) && At(t, MembersText(ms) + "}", p)
    ensures ParseMembers(t, p, soFar) == Json.Ok(DenoteMembers(ms, soFar), p + |MembersText(ms)| + 1)
    decreases |t| - p, 3
  {
    hide ParseMembers, At, Text, Quoted, UnitsValue, Emplace, Spacing, LenientUnits;
    ms := MemberIsText(t, p, soFar);
    var f := p + |MembersText(ms)|;
    var next := Emplace(soFar, UnitsValue(ms.key), Denote(ms.value));
    if Sees(t, f, '}') {
      AtIsSlice(t, "}", f);
      Joined(t, p, MembersText(ms), "}");
    } else {
      var first := MembersText(ms);
      var rest := MembersAreText(t, f + 1, next);
      ms := ms.(rest := rest);
      assert MembersText(ms) + "}" == first + ("," + (MembersText(rest) + "}"));
      assert At(t, ",", f) by { AtIsSlice(t, ",", f); }
      Joined(t, f, ",", MembersText(rest) + "}");
      Joined(t, p, first, "," + (MembersText(rest) + "}"));
      assert LenientMembers(ms) && DenoteMembers(ms, soFar) == DenoteMembers(rest, next);
    }
  }

  /** One member, and the brace or the comma behind it. */
  lemma {:induction false} MemberIsText(t: string, p: nat, soFar: map<string, Value>) returns (ms: Members)
    requires p <= |t| && ParseMembers(t, p, soFar).Ok?
    ensures ms.Member? && ms.rest == NoMembers && LenientMembers(ms) && At(t, MembersText(ms), p)
    ensures var f, next := p + |MembersText(ms)|, Emplace(soFar, UnitsValue(ms.key), Denote(ms.value));
            && p < f && (Sees(t, f, '}') || Sees(t, f, ','))
            && (Sees(t, f, '}') ==> ParseMembers(t, p, soFar) == Json.Ok(next, f + 1))
            && (Sees(t, f, ',') ==> ParseMembers(t, p, soFar) == ParseMembers(t, f + 1, next))
    decreases |t| - p, 2
  {
    hide ParseValue, ParseString, SkipSpace, At, Text, Quoted, MembersText, Lenient, LenientUnits, Spacing, Denote,
         UnitsValue, Emplace;
    var a := SkipSpace(t, p);
    var us := StringIsQuoted(t, a);
    var k := ParseString(t, a);
    var c := SkipSpace(t, k.pos);
    var v := ParseValue(t, c + 1);
    var d := ValueIsText(t, c + 1);
    var pre := SpaceRead(t, p);
    var mid := SpaceRead(t, k.pos);
    var mid2 := SpaceRead(t, c + 1);
    var post := SpaceRead(t, v.pos);
    ms := Member(pre, us, mid, mid2, d, post, NoMembers);
    AtIsSlice(t, ":", c);
    MemberJoined(t, p, ms);
  }

  lemma MemberJoined(t: string, p: nat, ms: Members)
    requires ms.Member? && ms.rest == NoMembers && At(t, ms.pre, p) && At(t, Quoted(ms.key), p + |ms.pre|)
    requires var q := p + |ms.pre| + |Quoted(ms.key)|;
             && At(t, ms.mid, q) && At(t, ":", q + |ms.mid|) && At(t, ms.mid2, q + |ms.mid| + 1)
    requires var q := p + |ms.pre| + |Quoted(ms.key)| + |ms.mid| + 1 + |ms.mid2|;
             At(t, Text(ms.value), q) && At(t, ms.post, q + |Text(ms.value)|)
    ensures At(t, MembersText(ms), p)
    ensures |MembersText(ms)|
         == |ms.pre| + |Quoted(ms.key)| + |ms.mid| + 1 + |ms.mid2| + |Text(ms.value)| + |ms.post|
  {
    hide At, Text, Quoted;
    var k, v := Quoted(ms.key), Text(ms.value);
    Joined(t, p, ms.pre, k);
    Joined(t, p, ms.pre + k, ms.mid);
    Joined(t, p, ms.pre + k + ms.mid, ":");
    Joined(t, p, ms.pre + k + ms.mid + ":", ms.mid2);
    Joined(t, p, ms.pre + k + ms.mid + ":" + ms.mid2, v);
    Joined(t, p, ms.pre + k + ms.mid + ":" + ms.mid2 + v, ms.post);
    assert MembersText(ms) == ms.pre + k + ms.mid + ":" + ms.mid2 + v + ms.post;
  }

  // ----- the whole text -----

  /** t is a lenient spelling of v with space around it. */
  ghost predicate Spelling(t: string, v: Value, before: string, d: Doc, after: string) {
    Spacing(before) && Lenient(d) && Spacing(after) && t == before + Text(d) + after && Denote(d) == v
  }

  lemma AcceptedIsSpelled(t: string) returns (before: string, d: Doc, after: string)
    requires Parse(t).Some?
    ensures Spelling(t, Parse(t).value, before, d, after)
  {
    hide ParseValue, At, Text, Denote, Lenient;
    var p := SkipSpace(t, 0);
    var r := ParseValue(t, p);
    d := ValueIsText(t, p);
    SkipTwice(t, 0);
    before := SpaceRead(t, 0);
    after := SpaceRead(t, r.pos);
    Joined(t, 0, before, Text(d));
    Joined(t, 0, before + Text(d), after);
    AtIsSlice(t, before + Text(d) + after, 0);
  }

  /** The parser accepts exactly the lenient texts, each with the value it spells: anything behind the
      value other than space, a missing or an extra separator, an unclosed bracket or string, a key
      that is no string and an escape that JSON does not know are all rejected. */
  lemma ParsesExactly(t: string, v: Value)
    ensures Parse(t) == Some(v) <==> exists before, d, after :: Spelling(t, v, before, d, after)
  {
    hide Parse, Text, Denote, Lenient;
    if Parse(t) == Some(v) {
      var before, d, after := AcceptedIsSpelled(t);
    }
    forall before, d, after | Spelling(t, v, before, d, after) ensures Parse(t) == Some(v) {
      LenientTextParses(before, d, after);
    }
  }
}
