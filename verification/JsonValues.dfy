/** Which values the parser can be brought to return by RFC 8259 texts, and a printer for them. */
module JsonValues {
  import opened Texts
  import opened Json
  import opened JsonText

  predicate Clean(s: string) { forall i :: 0 <= i < |s| ==> !Lossy(s[i]) }

  /** Strings and keys without control characters other than \b, \f, \n, \r and \t, and tokens of
      numbers. */
  ghost predicate Expressible(v: Value)
    decreases v
  {
    match v
    case Num(token) => exists n :: GoodNumber(n) && NumberText(n) == token
    case Str(s) => Clean(s)
    case Arr(items) => forall i :: 0 <= i < |items| ==> Expressible(items[i])
    case Obj(fields) => forall k :: k in fields ==> Clean(k) && Expressible(fields[k])
    case _ => true
  }

  /** One printing of a value; of the orders its members may stand in, any. */
  lemma {:induction false} Prints(v: Value) returns (d: Doc)
    requires Expressible(v)
    ensures Good(d) && Denote(d) == v
    decreases v, 1
  {
    match v {
      case Null => d := DNull;
      case Bool(b) => d := if b then DTrue else DFalse;
      case Num(token) =>
        var n :| GoodNumber(n) && NumberText(n) == token;
        d := DNum(n);
      case Str(s) =>
        PrintsString(s);
        d := DStr(UnitsOf(s));
      case Arr(items) =>
        var es := PrintsItems(v, items);
        d := DArr("", es);
      case Obj(fields) =>
        var ms := PrintsFields(v, fields, map[]);
        assert map[] + fields == fields;
        d := DObj("", ms);
    }
  }

  lemma PrintsString(s: string)
    requires Clean(s)
    ensures GoodUnits(UnitsOf(s)) && UnitsValue(UnitsOf(s)) == s
  {
    hide UnitsOf, GoodUnits, UnitsValue, Lossy;
    EscapedUnits(s);
    ReadableExactly(s);
  }

  lemma {:induction false} PrintsItems(v: Value, items: seq<Value>) returns (es: Elems)
    requires forall i :: 0 <= i < |items| ==> items[i] < v && Expressible(items[i])
    ensures GoodElems(es) && DenoteElems(es) == items
    decreases v, 0, |items|
  {
    if items == [] {
      es := NoElems;
    } else {
      var d := Prints(items[0]);
      var rest := PrintsItems(v, items[1..]);
      es := Elem("", d, "", rest);
      assert items == [items[0]] + items[1..];
    }
  }

  lemma {:induction false} PrintsFields(v: Value, fields: map<string, Value>, done: map<string, Value>)
    returns (ms: Members)
    requires forall k :: k in fields ==> fields[k] < v && Clean(k) && Expressible(fields[k]) && k !in done
    ensures GoodMembers(ms) && DenoteMembers(ms, done) == done + fields
    decreases v, 0, |fields|
  {
    hide Expressible, Clean, Denote, Good, GoodMembers, DenoteMembers, UnitsOf;
    if fields == map[] {
      ms := NoMembers;
      NothingPrinted(done);
      assert done + fields == done;
    } else {
      var k :| k in fields;
      var d := Prints(fields[k]);
      OneFieldLess(fields, k, done);
      var rest := PrintsFields(v, fields - {k}, done[k := fields[k]]);
      ms := Member("", UnitsOf(k), "", "", d, "", rest);
      MemberPrinted(k, d, rest, done);
    }
  }

  lemma OneFieldLess(fields: map<string, Value>, k: string, done: map<string, Value>)
    requires k in fields && k !in done
    ensures |fields - {k}| == |fields| - 1
    ensures done[k := fields[k]] + (fields - {k}) == done + fields
  {
    assert fields == (fields - {k})[k := fields[k]];
  }

  lemma NothingPrinted(done: map<string, Value>)
    ensures GoodMembers(NoMembers) && DenoteMembers(NoMembers, done) == done
  {
  }

  lemma MemberPrinted(k: string, d: Doc, rest: Members, done: map<string, Value>)
    requires Clean(k) && k !in done && Good(d) && GoodMembers(rest)
    ensures var ms := Member("", UnitsOf(k), "", "", d, "", rest);
            GoodMembers(ms) && DenoteMembers(ms, done) == DenoteMembers(rest, done[k := Denote(d)])
  {
    hide UnitsOf, GoodUnits, UnitsValue, Clean;
    PrintsString(k);
  }

  /** Strings written as RFC 8259 asks never have such a character in their value. */
  lemma {:induction false} UnitsAreClean(us: seq<Unit>)
    requires GoodUnits(us)
    ensures Clean(UnitsValue(us))
    decreases |us|
  {
    if us != [] {
      UnitIsClean(us[0]);
      UnitsAreClean(us[1..]);
      assert UnitsValue(us)[1..] == UnitsValue(us[1..]);
      assert forall i :: 1 <= i < |UnitsValue(us)| ==> UnitsValue(us)[i] == UnitsValue(us[1..])[i - 1];
    }
  }

  lemma UnitIsClean(u: Unit)
    requires GoodUnit(u)
    ensures !Lossy(UnitValue(u))
  {
  }

  lemma {:induction false} DenotesExpressible(d: Doc)
    requires Good(d)
    ensures Expressible(Denote(d))
    decreases d
  {
    match d {
      case DNum(n) =>
      case DStr(us) => UnitsAreClean(us);
      case DArr(_, es) => ItemsExpressible(es);
      case DObj(_, ms) => FieldsExpressible(ms, map[]);
      case _ =>
    }
  }

  lemma {:induction false} ItemsExpressible(es: Elems)
    requires GoodElems(es)
    ensures forall i :: 0 <= i < |DenoteElems(es)| ==> Expressible(DenoteElems(es)[i])
    decreases es
  {
    hide Expressible;
    if es.Elem? {
      DenotesExpressible(es.value);
      ItemsExpressible(es.rest);
    }
  }

  lemma {:induction false} FieldsExpressible(ms: Members, done: map<string, Value>)
    requires GoodMembers(ms) && forall k :: k in done ==> Clean(k) && Expressible(done[k])
    ensures forall k :: k in DenoteMembers(ms, done) ==> Clean(k) && Expressible(DenoteMembers(ms, done)[k])
    decreases ms
  {
    hide Expressible, Clean;
    if ms.Member? {
      UnitsAreClean(ms.key);
      DenotesExpressible(ms.value);
      FieldsExpressible(ms.rest, Emplace(done, UnitsValue(ms.key), Denote(ms.value)));
    }
  }

  /** A value is what some RFC 8259 text parses to if and only if it is expressible. */
  lemma ParsedValuesExactly(v: Value)
    ensures (exists d :: Good(d) && Parse(Text(d)) == Some(v)) <==> Expressible(v)
  {
    hide Parse, Text, Good, Denote, Expressible;
    if Expressible(v) {
      var d := Prints(v);
      ParsesPrinted(d);
    }
    forall d | Good(d) && Parse(Text(d)) == Some(v) ensures Expressible(v) {
      ParsesPrinted(d);
      DenotesExpressible(d);
    }
  }

  lemma ParsesPrinted(d: Doc)
    requires Good(d)
    ensures Parse(Text(d)) == Some(Denote(d))
  {
    hide Parse, Text, Good, Denote;
    EveryTextParses("", d, "");
    assert "" + Text(d) + "" == Text(d);
  }

  // ----- what is accepted beyond RFC 8259 -----

  /** Leading zeros: any digits are a number. */
  lemma DigitsParse(s: string)
    requires s != "" && Digits(s)
    ensures Parse(s) == Some(Num(s))
  {
    AtIsSlice(s, s, 0);
    assert s[0..0 + |s|] == s;
    SkipAllDigits(s, 0, s);
    assert ScanNumber(s, 0) == |s|;
    assert s[0..|s|] == s;
  }

  /** Characters below the space inside a string. */
  lemma RawControlParses(c: char)
    requires c != '"' && c != '\\'
    ensures Parse(['"', c, '"']) == Some(Str([c]))
  {
    var t := ['"', c, '"'];
    assert ParseChars(t, 2) == Ok("", 3);
    assert ParseChars(t, 1) == Ok([c] + "", 3);
    assert [c] + "" == [c];
  }

  /** Any four characters behind a \u. */
  lemma AnyFourParse(h: string)
    requires |h| == 4
    ensures Parse("\"\\u" + h + "\"") == Some(Str("?"))
  {
    var t := "\"\\u" + h + "\"";
    assert t[0] == '"' && t[1] == '\\' && t[2] == 'u' && t[7] == '"' && |t| == 8;
    assert ParseChars(t, 7) == Ok("", 8);
    assert ParseChars(t, 1) == Ok("?" + "", 8);
    assert "?" + "" == "?" && SkipSpace(t, 0) == 0 && SkipSpace(t, 8) == 8;
    assert ParseString(t, 0) == Ok("?", 8);
    assert ParseValue(t, 0) == Ok(Str("?"), 8);
  }
}
