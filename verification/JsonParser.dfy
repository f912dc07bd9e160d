/** json_lite's parser object: a cursor that the parse methods advance. Every method does what the
    grammar in `Json` says from where the cursor stands; a thrown error is a `None`. */
module JsonParser {
  import opened Texts
  import opened Json

  class Parser {
    const text: string
    var pos: nat

    ghost predicate Valid()
      reads this
    { pos <= |text| }

    constructor (text: string)
      ensures Valid() && this.text == text && pos == 0
    { this.text, pos := text, 0; }

    method SkipWs()
      requires Valid()
      modifies this`pos
      ensures Valid() && pos == SkipSpace(text, old(pos))
    {
      while pos < |text| && IsSpace(text[pos])
        invariant Valid() && old(pos) <= pos && SkipSpace(text, pos) == SkipSpace(text, old(pos))
      {
        pos := pos + 1;
      }
    }

    method Consume(c: char) returns (found: bool)
      requires Valid()
      modifies this`pos
      ensures Valid() && found == Sees(text, old(pos), c) && pos == if found then old(pos) + 1 else old(pos)
    {
      found := pos < |text| && text[pos] == c;
      if found { pos := pos + 1; }
    }

    method ReadString() returns (r: Option<string>)
      requires Valid()
      modifies this`pos
      ensures Valid()
      ensures match ParseString(text, old(pos)) case Ok(v, p) => r == Some(v) && pos == p case Fail => r == None
    {
      var found := Consume('"');
      if !found { return None; }
      ghost var start := pos;
      var out := "";
      PrependTwice("", "", ParseChars(text, start));
      while pos < |text|
        invariant Valid() && start <= pos
        invariant ParseChars(text, start) == Prepend(out, ParseChars(text, pos))
        decreases |text| - pos
      {
        ghost var before := pos;
        var c := text[pos];
        pos := pos + 1;
        if c == '"' {
          assert out + "" == out;
          return Some(out);
        }
        if c == '\\' {
          if pos >= |text| { return None; }
          var e := text[pos];
          pos := pos + 1;
          if e == 'u' {
            if pos + 4 > |text| { return None; }
            PrependTwice(out, "?", ParseChars(text, pos + 4));
            out := out + "?";
            pos := pos + 4;
          } else if e in ESCAPABLE {
            PrependTwice(out, [Unescaped(e)], ParseChars(text, pos));
            out := out + [Unescaped(e)];
          } else {
            return None;
          }
        } else {
          PrependTwice(out, [c], ParseChars(text, pos));
          out := out + [c];
        }
      }
      return None;
    }

    method ReadNumber() returns (r: Option<string>)
      requires Valid()
      modifies this`pos
      ensures Valid()
      ensures match ParseNumber(text, old(pos)) case Ok(v, p) => r == Some(v) && pos == p case Fail => r == None
    {
      var end := ScanNumber(text, pos);
      if end == pos { return None; }
      r := Some(text[pos..end]);
      pos := end;
    }

    method ReadLiteral(word: string, v: Value) returns (r: Option<Value>)
      requires Valid()
      modifies this`pos
      ensures Valid()
      ensures match ParseLiteral(text, old(pos), word, v)
              case Ok(x, p) => r == Some(x) && pos == p
              case Fail => r == None
    {
      AtIsSlice(text, word, pos);
      if pos + |word| > |text| || text[pos..pos + |word|] != word { return None; }
      pos := pos + |word|;
      return Some(v);
    }

    method ReadArray() returns (r: Option<seq<Value>>)
      requires Valid() && Sees(text, pos, '[')
      modifies this`pos
      ensures Valid()
      ensures match ParseValue(text, old(pos))
              case Ok(v, p) => r.Some? && v == Arr(r.value) && pos == p
              case Fail => r == None
      decreases |text| - pos, 1
    {
      hide ParseElems, ParseValue, SkipSpace;
      ghost var start := pos + 1;
      var found := Consume('[');
      ArrayUnfold(text, old(pos), SkipSpace(text, start));
      ArrayFails(text, old(pos));
      var arr := [];
      SkipWs();
      SkipTwice(text, start);
      SameElems(text, start, pos, []);
      var empty := Consume(']');
      if empty { return Some([]); }
      while true
        invariant Valid() && start <= pos
        invariant ParseElems(text, start, []) == ParseElems(text, pos, arr)
        decreases |text| - pos
      {
        ghost var before := pos;
        ElemsStep(text, before, arr);
        var v := ReadValue();
        if v.None? { return None; }
        arr := arr + [v.value];
        SkipWs();
        var closed := Consume(']');
        if closed { return Some(arr); }
        var more := Consume(',');
        if !more { return None; }
      }
    }

    method ReadObject() returns (r: Option<map<string, Value>>)
      requires Valid() && Sees(text, pos, '{')
      modifies this`pos
      ensures Valid()
      ensures match ParseValue(text, old(pos))
              case Ok(v, p) => r.Some? && v == Obj(r.value) && pos == p
              case Fail => r == None
      decreases |text| - pos, 1
    {
      hide ParseMembers, ParseValue, ParseString, SkipSpace, Emplace;
      ghost var start := pos + 1;
      var found := Consume('{');
      ObjectUnfold(text, old(pos), SkipSpace(text, start));
      ObjectFails(text, old(pos));
      var obj := map[];
      SkipWs();
      SkipTwice(text, start);
      SameMembers(text, start, pos, map[]);
      var empty := Consume('}');
      if empty { return Some(map[]); }
      while true
        invariant Valid() && start <= pos
        invariant ParseMembers(text, start, map[]) == ParseMembers(text, pos, obj)
        decreases |text| - pos
      {
        var more, last := ReadMember(obj);
        if more.None? { return None; }
        obj := more.value;
        if last { return Some(obj); }
      }
    }

    /** One round of the loop over members: a key, a value, and the separator or the brace behind. */
    method ReadMember(soFar: map<string, Value>) returns (r: Option<map<string, Value>>, last: bool)
      requires Valid()
      modifies this`pos
      ensures Valid() && (r.Some? ==> pos > old(pos))
      ensures ParseMembers(text, old(pos), soFar)
           == if r.None? then Fail else if last then Ok(r.value, pos) else ParseMembers(text, pos, r.value)
      decreases |text| - pos, 3
    {
      hide ParseMembers, ParseValue, ParseString, SkipSpace, Emplace;
      MembersStep(text, pos, soFar);
      SkipWs();
      var key := ReadString();
      if key.None? { return None, false; }
      SkipWs();
      var colon := Consume(':');
      if !colon { return None, false; }
      var v := ReadValue();
      if v.None? { return None, false; }
      r := Some(Emplace(soFar, key.value, v.value));
      SkipWs();
      last := Consume('}');
      if last { return; }
      var more := Consume(',');
      if !more { r := None; }
    }

    method ReadValue() returns (r: Option<Value>)
      requires Valid()
      modifies this`pos
      ensures Valid()
      ensures match ParseValue(text, old(pos)) case Ok(v, p) => r == Some(v) && pos == p case Fail => r == None
      decreases |text| - pos, 2
    {
      SkipWs();
      SkipTwice(text, old(pos));
      SameFromSpace(text, old(pos), pos);
      if pos >= |text| { return None; }
      var c := text[pos];
      if c == '{' {
        var obj := ReadObject();
        return if obj.Some? then Some(Obj(obj.value)) else None;
      }
      if c == '[' {
        var arr := ReadArray();
        return if arr.Some? then Some(Arr(arr.value)) else None;
      }
      if c == '"' {
        var s := ReadString();
        return if s.Some? then Some(Str(s.value)) else None;
      }
      if c == 't' { r := ReadLiteral("true", Bool(true)); return; }
      if c == 'f' { r := ReadLiteral("false", Bool(false)); return; }
      if c == 'n' { r := ReadLiteral("null", Null); return; }
      if c == '-' || IsDigit(c) {
        var n := ReadNumber();
        return if n.Some? then Some(Num(n.value)) else None;
      }
      return None;
    }

    method ParseAll() returns (r: Option<Value>)
      requires Valid() && pos == 0
      modifies this`pos
      ensures r == Parse(text)
    {
      hide ParseValue;
      SkipWs();
      var v := ReadValue();
      if v.None? { return None; }
      SkipWs();
      if pos != |text| { return None; }
      return v;
    }
  }

  lemma PrependTwice(a: string, b: string, r: Parsed<string>)
    ensures Prepend("", r) == r
    ensures Prepend(a, Prepend(b, r)) == Prepend(a + b, r)
  {
    if r.Ok? { assert a + (b + r.value) == a + b + r.value && "" + r.value == r.value; }
  }

  lemma ArrayFails(t: string, p: nat)
    requires Sees(t, p, '[')
    ensures ParseValue(t, p).Fail? <==> !Sees(t, SkipSpace(t, p + 1), ']') && ParseElems(t, p + 1, []).Fail?
  {
    hide ParseElems, ParseMembers;
  }

  lemma ObjectFails(t: string, p: nat)
    requires Sees(t, p, '{')
    ensures ParseValue(t, p).Fail? <==> !Sees(t, SkipSpace(t, p + 1), '}') && ParseMembers(t, p + 1, map[]).Fail?
  {
    hide ParseElems, ParseMembers;
  }

  lemma SameElems(t: string, p: nat, q: nat, soFar: seq<Value>)
    requires p <= |t| && q <= |t| && SkipSpace(t, p) == SkipSpace(t, q)
    ensures ParseElems(t, p, soFar) == ParseElems(t, q, soFar)
  {
    hide ParseValue, SkipSpace;
    SameFromSpace(t, p, q);
  }

  lemma SameMembers(t: string, p: nat, q: nat, soFar: map<string, Value>)
    requires p <= |t| && q <= |t| && SkipSpace(t, p) == SkipSpace(t, q)
    ensures ParseMembers(t, p, soFar) == ParseMembers(t, q, soFar)
  {
    hide ParseValue, SkipSpace;
  }

  /** One turn of the element loop. */
  lemma ElemsStep(t: string, p: nat, soFar: seq<Value>)
    requires p <= |t|
    ensures ParseElems(t, p, soFar) ==
            match ParseValue(t, p)
            case Fail => Fail
            case Ok(v, b) =>
              var q := SkipSpace(t, b);
              if Sees(t, q, ']') then Ok(soFar + [v], q + 1)
              else if Sees(t, q, ',') then ParseElems(t, q + 1, soFar + [v])
              else Fail
  {
    hide ParseValue, SkipSpace;
  }

  /** One turn of the member loop. */
  lemma MembersStep(t: string, p: nat, soFar: map<string, Value>)
    requires p <= |t|
    ensures ParseMembers(t, p, soFar) ==
            match ParseString(t, SkipSpace(t, p))
            case Fail => Fail
            case Ok(k, b) =>
              var c := SkipSpace(t, b);
              if !Sees(t, c, ':') then Fail
              else
                match ParseValue(t, c + 1)
                case Fail => Fail
                case Ok(v, e) =>
                  var q := SkipSpace(t, e);
                  var next := Emplace(soFar, k, v);
                  if Sees(t, q, '}') then Ok(next, q + 1)
                  else if Sees(t, q, ',') then ParseMembers(t, q + 1, next)
                  else Fail
  {
    hide ParseValue, SkipSpace, ParseString;
  }
}
