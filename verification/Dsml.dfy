/** Tool calls in DSML: rendering an assistant message and parsing a completion back. */
module Dsml {
  import opened Texts
  import opened Tokens

  const TOOL_CALLS_END := "</\U{FF5C}DSML\U{FF5C}tool_calls>"
  const INVOKE := "<\U{FF5C}DSML\U{FF5C}invoke"
  const INVOKE_END := "</\U{FF5C}DSML\U{FF5C}invoke"
  const PARAMETER := "<\U{FF5C}DSML\U{FF5C}parameter"
  const BREAK := ">\n"
  const PARAMETER_END := "/\U{FF5C}DSML\U{FF5C}parameter"

  /** One argument: `text` is the string itself, or the JSON text of any other value. */
  datatype Arg = Arg(key: string, isStr: bool, text: string)

  datatype Call = Call(name: string, args: seq<Arg>)

  datatype Message = Message(content: string, reasoning: string, calls: seq<Call>)

  datatype Failure = FormatError | AssertionFailed

  datatype Outcome<+T> = Err(why: Failure) | Ok(value: T)

  // ----- rendering -----

  function Join(sep: string, parts: seq<string>): string {
    if parts == [] then "" else if |parts| == 1 then parts[0] else parts[0] + sep + Join(sep, parts[1..])
  }

  function Marker(isStr: bool): string { if isStr then "\" string=\"true\">" else "\" string=\"false\">" }

  /** What stands between the opening parameter token and the closing one. */
  function Inner(a: Arg): string { " name=\"" + a.key + Marker(a.isStr) + a.text + "<" }

  function ArgText(a: Arg): string { PARAMETER + Inner(a) + PARAMETER_END + ">" }

  function ArgTexts(args: seq<Arg>): seq<string> { if args == [] then [] else [ArgText(args[0])] + ArgTexts(args[1..]) }

  function CallText(c: Call): string {
    INVOKE + " name=\"" + c.name + "\">\n" + Join("\n", ArgTexts(c.args)) + "\n" + INVOKE_END + ">"
  }

  function CallTexts(cs: seq<Call>): seq<string> { if cs == [] then [] else [CallText(cs[0])] + CallTexts(cs[1..]) }

  function CallsText(cs: seq<Call>): string {
    if cs == [] then "" else TOOL_CALLS_START + ">\n" + Join("\n", CallTexts(cs)) + "\n" + TOOL_CALLS_END
  }

  /** The assistant branch: `thinks` says whether the thinking part is rendered. */
  function Rendered(m: Message, thinks: bool, eos: bool): string {
    (if thinks then m.reasoning + THINK_END else "") + m.content + CallsText(m.calls) + (if eos then EOS else "")
  }

  /** An argument is one element with its key, the flag whether its value is a string, and the value. */
  lemma ArgLayout(a: Arg)
    ensures ArgText(a)
         == "<" + DSML + "parameter name=\"" + a.key + "\" string=\"" + (if a.isStr then "true" else "false") + "\">"
            + a.text + "</" + DSML + "parameter>"
  {
    ArgTokens(a.isStr);
    hide *;
    var flag := if a.isStr then "true" else "false";
    ArgPieces(PARAMETER, " name=\"", a.key, Marker(a.isStr), a.text, "<", PARAMETER_END, ">");
    ArgSpelled("<" + DSML + "parameter name=\"", a.key, "\" string=\"", flag, "\">", a.text, "</", DSML, "parameter>");
    ArgTextIs(a);
  }

  lemma ArgTextIs(a: Arg)
    ensures ArgText(a) == PARAMETER + (" name=\"" + a.key + Marker(a.isStr) + a.text + "<") + PARAMETER_END + ">"
  {
    hide Marker, PARAMETER, PARAMETER_END;
  }

  lemma ArgTokens(isStr: bool)
    ensures PARAMETER + " name=\"" == "<" + DSML + "parameter name=\""
    ensures Marker(isStr) == "\" string=\"" + (if isStr then "true" else "false") + "\">"
    ensures "<" + PARAMETER_END + ">" == "</" + DSML + "parameter>"
  {
    ParameterIs();
    ParameterEndIs();
    MarkerIs(isStr);
    hide *;
    assert "<" + DSML + "parameter name=\"" == "<" + DSML + ("parameter" + " name=\"");
    assert "<" + ("/" + DSML + "parameter") + ">" == "</" + DSML + "parameter>";
  }

  lemma ParameterIs()
    ensures PARAMETER == "<" + DSML + "parameter"
  {
  }

  lemma ParameterEndIs()
    ensures PARAMETER_END == "/" + DSML + "parameter"
  {
  }

  lemma MarkerIs(isStr: bool)
    ensures Marker(isStr) == "\" string=\"" + (if isStr then "true" else "false") + "\">"
  {
  }

  lemma ArgPieces(p: string, n: string, k: string, m: string, t: string, l: string, e: string, g: string)
    ensures p + (n + k + m + t + l) + e + g == (p + n) + k + m + t + (l + e + g)
  {
    assert p + (n + k + m + t + l) == (p + n) + k + m + t + l;
    assert (p + n) + k + m + t + l + e + g == (p + n) + k + m + t + (l + e + g);
  }

  lemma ArgSpelled(
      x: string, k: string, q: string, f: string, r: string, t: string, c: string, d: string, z: string)
    ensures x + k + (q + f + r) + t + (c + d + z) == x + k + q + f + r + t + c + d + z
  {
    assert x + k + (q + f + r) == x + k + q + f + r;
    assert x + k + q + f + r + t + (c + d + z) == x + k + q + f + r + t + c + d + z;
  }

  method EncodeArguments(args: seq<Arg>) returns (s: string)
    ensures s == Join("\n", ArgTexts(args))
  {
    hide ArgText;
    var parts: seq<string> := [];
    for i := 0 to |args|
      invariant ArgTexts(args) == parts + ArgTexts(args[i..])
    {
      assert args[i..][0] == args[i] && args[i..][1..] == args[i + 1..];
      parts := parts + [ArgText(args[i])];
    }
    assert args[|args|..] == [] && parts + [] == parts;
    s := Join("\n", parts);
  }

  method RenderAssistant(m: Message, thinks: bool, eos: bool) returns (prompt: string)
    ensures prompt == Rendered(m, thinks, eos)
  {
    hide CallText, Join, ArgTexts;
    prompt := "";
    var tcContent := "";
    if m.calls != [] {
      var tcList: seq<string> := [];
      for i := 0 to |m.calls|
        invariant CallTexts(m.calls) == tcList + CallTexts(m.calls[i..])
      {
        assert m.calls[i..][0] == m.calls[i] && m.calls[i..][1..] == m.calls[i + 1..];
        var arguments := EncodeArguments(m.calls[i].args);
        CallTextIs(m.calls[i]);
        tcList := tcList + [INVOKE + " name=\"" + m.calls[i].name + "\">\n" + arguments + "\n" + INVOKE_END + ">"];
      }
      assert m.calls[|m.calls|..] == [] && tcList + [] == tcList;
      tcContent := TOOL_CALLS_START + ">\n" + Join("\n", tcList) + "\n" + TOOL_CALLS_END;
    }
    if thinks { prompt := m.reasoning + THINK_END; }
    prompt := prompt + m.content + tcContent;
    if eos { prompt := prompt + EOS; }
  }

  lemma CallTextIs(c: Call)
    ensures CallText(c)
            == INVOKE + " name=\"" + c.name + "\">\n" + Join("\n", ArgTexts(c.args)) + "\n" + INVOKE_END + ">"
  {
  }

  // ----- parsing -----

  datatype Read = Read(index: nat, content: string, stop: Option<string>)

  /** The earliest stop at or after `index`; of two at one place, the one listed first. */
  datatype Nearest = Nearest(pos: nat, stop: Option<string>)

  function NearestStop(text: string, index: nat, stops: seq<string>): (n: Nearest)
    ensures n.pos <= |text| && (index <= |text| ==> index <= n.pos)
    ensures n.stop.Some? ==> OccursAt(text, n.stop.value, n.pos)
  {
    if stops == [] then Nearest(|text|, None)
    else
      var before := NearestStop(text, index, stops[..|stops| - 1]);
      var s := stops[|stops| - 1];
      var pos := Find(text, s, index);
      if pos != -1 && pos < before.pos then Nearest(pos, Some(s)) else before
  }

  function ReadUntilStop(text: string, index: nat, stops: seq<string>): (r: Read)
    requires index <= |text|
    ensures index <= r.index <= |text|
    ensures index + |r.content| <= r.index
  {
    var n := NearestStop(text, index, stops);
    if n.stop.Some? then Read(n.pos + |n.stop.value|, text[index..n.pos], n.stop)
    else Read(|text|, text[index..], None)
  }

  method ReadUntil(text: string, index: nat, stops: seq<string>) returns (r: Read)
    requires index <= |text|
    ensures r == ReadUntilStop(text, index, stops)
  {
    var minPos: nat, matched: Option<string> := |text|, None;
    for i := 0 to |stops|
      invariant Nearest(minPos, matched) == NearestStop(text, index, stops[..i])
    {
      assert stops[..i + 1][..i] == stops[..i];
      var pos := Find(text, stops[i], index);
      if pos != -1 && pos < minPos { minPos, matched := pos, Some(stops[i]); }
    }
    assert stops[..|stops|] == stops;
    if matched.Some? {
      r := Read(minPos + |matched.value|, text[index..minPos], matched);
    } else {
      assert text[index..|text|] == text[index..];
      r := Read(|text|, text[index..], None);
    }
  }

  /** What `\s` matches in a Python string. */
  predicate IsSpace(c: char) {
    '\t' <= c <= '\r' || '\U{1C}' <= c <= ' ' || c == '\U{85}' || c == '\U{A0}' || c == '\U{1680}'
    || '\U{2000}' <= c <= '\U{200A}' || c == '\U{2028}' || c == '\U{2029}' || c == '\U{202F}' || c == '\U{205F}'
    || c == '\U{3000}'
  }

  function SkipSpace(s: string, i: nat): (r: nat)
    requires i <= |s|
    ensures i <= r <= |s|
    decreases |s| - i
  {
    if i < |s| && IsSpace(s[i]) then SkipSpace(s, i + 1) else i
  }

  /** Python's `$`: the end, or just before a final line break. */
  predicate AtDollar(s: string, i: int) { i == |s| || (0 <= i == |s| - 1 && s[i] == '\n') }

  /** The first i at or after `from` where s has `tail` up to a `$`, or -1. */
  function FindEnding(s: string, tail: string, from: nat): (r: int)
    ensures r == -1 || (from <= r && OccursAt(s, tail, r) && AtDollar(s, r + |tail|))
    ensures forall i :: from <= i && (r == -1 || i < r) ==> !(OccursAt(s, tail, i) && AtDollar(s, i + |tail|))
    decreases |s| - from
  {
    if OccursAt(s, tail, from) && AtDollar(s, from + |tail|) then from
    else if from + |tail| >= |s| then -1
    else FindEnding(s, tail, from + 1)
  }

  /** The pattern `^\s*name="(.*?)">\n$`. */
  function NameOf(s: string): Option<string> {
    var p := SkipSpace(s, 0);
    if !OccursAt(s, "name=\"", p) then None
    else
      var q := FindEnding(s, "\">\n", p + 6);
      if q == -1 then None else Some(s[p + 6..q])
  }

  /** The pattern `^ name="(.*?)" string="(true|false)">(.*?)<$`: the key ends at the first marker
      that leaves a value. */
  function ArgOf(s: string): Option<Arg> {
    if !OccursAt(s, " name=\"", 0) then None else ArgFrom(s, 7, 7)
  }

  function ArgFrom(s: string, start: nat, at: nat): Option<Arg>
    requires start <= at
    decreases |s| - at
  {
    if at >= |s| then None
    else if OccursAt(s, Marker(true), at) && FindEnding(s, "<", at + |Marker(true)|) != -1 then
      Some(Arg(s[start..at], true, s[at + |Marker(true)|..FindEnding(s, "<", at + |Marker(true)|)]))
    else if OccursAt(s, Marker(false), at) && FindEnding(s, "<", at + |Marker(false)|) != -1 then
      Some(Arg(s[start..at], false, s[at + |Marker(false)|..FindEnding(s, "<", at + |Marker(false)|)]))
    else ArgFrom(s, start, at + 1)
  }

  predicate HasKey(args: seq<Arg>, key: string) { exists i :: 0 <= i < |args| && args[i].key == key }

  /** Where reading stands: behind `stop`, at `index`. */
  datatype Params = Params(index: nat, stop: Option<string>, args: seq<Arg>)

  function ParseParams(text: string, index: nat, stop: Option<string>, soFar: seq<Arg>): (r: Outcome<Params>)
    requires index <= |text|
    ensures r.Ok? ==> index <= r.value.index <= |text|
    decreases |text| - index
  {
    if stop != Some(PARAMETER) then Ok(Params(index, stop, soFar))
    else
      var p := ReadUntilStop(text, index, [PARAMETER_END]);
      var a := ArgOf(p.content);
      if a.None? || HasKey(soFar, a.value.key) then Err(FormatError)
      else
        var e := ReadUntilStop(text, p.index, [PARAMETER, INVOKE_END]);
        if e.content != BREAK then Err(FormatError)
        else ParseParams(text, e.index, e.stop, soFar + [a.value])
  }

  datatype Calls = Calls(index: nat, stop: Option<string>, calls: seq<Call>)

  function ParseCalls(text: string, index: nat, stop: Option<string>, soFar: seq<Call>): (r: Outcome<Calls>)
    requires index <= |text|
    ensures r.Ok? ==> index <= r.value.index <= |text|
    decreases |text| - index
  {
    if index == |text| then Ok(Calls(index, stop, soFar))
    else
      var b := ReadUntilStop(text, index, [INVOKE, TOOL_CALLS_END]);
      if b.content != BREAK then Err(FormatError)
      else if b.stop == Some(TOOL_CALLS_END) then Ok(Calls(b.index, b.stop, soFar))
      else if b.stop.None? then Err(FormatError)
      else
        var n := ReadUntilStop(text, b.index, [PARAMETER, INVOKE_END]);
        var name := NameOf(n.content);
        if name.None? then Err(FormatError)
        else
          var ps := ParseParams(text, n.index, n.stop, []);
          if ps.Err? then Err(ps.why)
          else ParseCalls(text, ps.value.index, ps.value.stop, soFar + [Call(name.value, ps.value.args)])
  }

  method ParseToolCalls(text: string, start: nat) returns (r: Outcome<Calls>)
    requires start <= |text|
    ensures r == ParseCalls(text, start, None, [])
  {
    var index, calls := start, [];
    var stop: Option<string> := None;
    while index < |text|
      invariant index <= |text|
      invariant ParseCalls(text, start, None, []) == ParseCalls(text, index, stop, calls)
      decreases |text| - index
    {
      var b := ReadUntil(text, index, [INVOKE, TOOL_CALLS_END]);
      if b.content != BREAK { return Err(FormatError); }
      if b.stop == Some(TOOL_CALLS_END) { return Ok(Calls(b.index, b.stop, calls)); }
      if b.stop.None? { return Err(FormatError); }
      var n := ReadUntil(text, b.index, [PARAMETER, INVOKE_END]);
      var name := NameOf(n.content);
      if name.None? { return Err(FormatError); }
      var args: seq<Arg> := [];
      var at, last := n.index, n.stop;
      while last == Some(PARAMETER)
        invariant n.index <= at <= |text|
        invariant ParseParams(text, n.index, n.stop, []) == ParseParams(text, at, last, args)
        decreases |text| - at
      {
        var p := ReadUntil(text, at, [PARAMETER_END]);
        var a := ArgOf(p.content);
        if a.None? { return Err(FormatError); }
        if HasKey(args, a.value.key) { return Err(FormatError); }
        var e := ReadUntil(text, p.index, [PARAMETER, INVOKE_END]);
        if e.content != BREAK { return Err(FormatError); }
        args := args + [a.value];
        at, last := e.index, e.stop;
      }
      calls := calls + [Call(name.value, args)];
      index, stop := at, last;
    }
    r := Ok(Calls(index, stop, calls));
  }

  const SPECIALS := [BOS, EOS, THINK_START, THINK_END, DSML]

  predicate Clean(s: string) { forall i :: 0 <= i < |SPECIALS| ==> Find(s, SPECIALS[i], 0) == -1 }

  function Parsed(text: string, thinking: bool): Outcome<Message> {
    if thinking then
      var r := ReadUntilStop(text, 0, [THINK_END, TOOL_CALLS_START]);
      if r.stop != Some(THINK_END) then Err(AssertionFailed) else ParsedFrom(text, r.index, r.content)
    else ParsedFrom(text, 0, "")
  }

  function ParsedFrom(text: string, index: nat, reasoning: string): Outcome<Message>
    requires index <= |text|
  {
    var c := ReadUntilStop(text, index, [EOS, TOOL_CALLS_START]);
    if c.stop == Some(TOOL_CALLS_START) then
      var t := ParseCalls(text, c.index, None, []);
      if t.Err? then Err(t.why)
      else
        var e := ReadUntilStop(text, t.value.index, [EOS]);
        if e.content != "" then Err(AssertionFailed)
        else Finished(text, e.index, e.stop, Message(c.content, reasoning, t.value.calls))
    else if c.stop != Some(EOS) then Err(AssertionFailed)
    else Finished(text, c.index, c.stop, Message(c.content, reasoning, []))
  }

  function Finished(text: string, index: nat, stop: Option<string>, m: Message): Outcome<Message> {
    if index == |text| && (stop == Some(EOS) || stop == None) && Clean(m.content) && Clean(m.reasoning)
    then Ok(m) else Err(AssertionFailed)
  }

  method ParseMessage(text: string, thinking: bool) returns (r: Outcome<Message>)
    ensures r == Parsed(text, thinking)
  {
    var index, reasoning := 0, "";
    if thinking {
      var d := ReadUntil(text, index, [THINK_END, TOOL_CALLS_START]);
      reasoning := d.content;
      if d.stop != Some(THINK_END) { return Err(AssertionFailed); }
      index := d.index;
    }
    var c := ReadUntil(text, index, [EOS, TOOL_CALLS_START]);
    var calls: seq<Call> := [];
    index := c.index;
    var stop := c.stop;
    if stop == Some(TOOL_CALLS_START) {
      var t := ParseToolCalls(text, index);
      if t.Err? { return Err(t.why); }
      calls := t.value.calls;
      var e := ReadUntil(text, t.value.index, [EOS]);
      index, stop := e.index, e.stop;
      if e.content != "" { return Err(AssertionFailed); }
    } else if stop != Some(EOS) {
      return Err(AssertionFailed);
    }
    if index != |text| || (stop != Some(EOS) && stop != None) { return Err(AssertionFailed); }
    if !Clean(c.content) || !Clean(reasoning) { return Err(AssertionFailed); }
    r := Ok(Message(c.content, reasoning, calls));
  }

  // ----- where the first stop is -----

  ghost predicate Absent(s: string, p: string) { forall i :: !OccursAt(s, p, i) }

  ghost predicate Differ(p: string, j: nat, s: string) { exists k :: 0 <= k < |s| && j + k < |p| && p[j + k] != s[k] }

  /** No occurrence of p can begin before s and reach into it. */
  ghost predicate Apart(p: string, s: string) { forall j :: 1 <= j < |p| ==> Differ(p, j, s) }

  lemma NotIfDiffers(text: string, p: string, i: nat, k: nat)
    requires k < |p| && (i + k < |text| ==> text[i + k] != p[k])
    ensures !OccursAt(text, p, i)
  {
    if i + |p| <= |text| { assert text[i..i + |p|][k] == text[i + k]; }
  }

  lemma OccursWithin(x: string, y: string, p: string, i: nat)
    requires i + |p| <= |x|
    ensures OccursAt(x + y, p, i) <==> OccursAt(x, p, i)
  {
    assert (x + y)[i..i + |p|] == x[i..i + |p|];
  }

  lemma NotBefore(c: string, p: string, s: string, rest: string, i: nat)
    requires i < |c| && Absent(c, p) && Apart(p, s)
    ensures !OccursAt(c + s + rest, p, i)
  {
    assert c + s + rest == c + (s + rest);
    if i + |p| <= |c| {
      OccursWithin(c, s + rest, p, i);
    } else {
      var j := |c| - i;
      assert Differ(p, j, s);
      var k :| 0 <= k < |s| && j + k < |p| && p[j + k] != s[k];
      NotIfDiffers(c + s + rest, p, i, j + k);
    }
  }

  lemma NotHere(c: string, p: string, s: string, rest: string)
    requires Differ(p, 0, s)
    ensures !OccursAt(c + s + rest, p, |c|)
  {
    var k :| 0 <= k < |s| && 0 + k < |p| && p[0 + k] != s[k];
    NotIfDiffers(c + s + rest, p, |c|, k);
  }

  lemma ApartByFirst(p: string, s: string)
    requires s != "" && forall j :: 1 <= j < |p| ==> p[j] != s[0]
    ensures Apart(p, s)
  {
    forall j | 1 <= j < |p| ensures Differ(p, j, s) { assert p[j + 0] != s[0]; }
  }

  /** The stop s ends the text c when no stop can occur earlier. */
  lemma NearestOfTwo(t: string, index: nat, a: string, b: string)
    ensures var fa, fb := Find(t, a, index), Find(t, b, index);
            var n0 := Nearest(|t|, None);
            var n1 := if fa != -1 && fa < |t| then Nearest(fa, Some(a)) else n0;
            NearestStop(t, index, [a, b]) == if fb != -1 && fb < n1.pos then Nearest(fb, Some(b)) else n1
  {
    hide Find;
    assert NearestStop(t, index, []) == Nearest(|t|, None);
    assert [a, b][..1] == [a] && [a][..0] == [];
    assert NearestStop(t, index, [a])
        == if Find(t, a, index) != -1 && Find(t, a, index) < |t| then Nearest(Find(t, a, index), Some(a))
           else Nearest(|t|, None);
  }

  lemma ReadsTo(t: string, index: nat, a: string, b: string, c: string, s: string, rest: string)
    requires index <= |t| && t[index..] == c + s + rest && s != ""
    requires s == a || s == b
    requires Absent(c, a) && Absent(c, b) && Apart(a, s) && Apart(b, s)
    requires (a != s ==> Differ(a, 0, s)) && (b != s ==> Differ(b, 0, s))
    ensures ReadUntilStop(t, index, [a, b]) == Read(index + |c| + |s|, c, Some(s))
    ensures index + |c| + |s| <= |t| && t[index + |c| + |s|..] == rest
  {
    var at := index + |c|;
    var fa, fb := Find(t, a, index), Find(t, b, index);
    StopPlace(t, index, a, c, s, rest);
    StopPlace(t, index, b, c, s, rest);
    NearestOfTwo(t, index, a, b);
    hide Find, NearestStop, Absent, Apart, Differ;
    assert t[index..at] == t[index..][..|c|] == c;
    assert t[at + |s|..] == t[index..][|c| + |s|..] == rest;
  }

  /** A stop is found at the end of c if it is s, and not up to there if it is not. */
  lemma StopPlace(t: string, index: nat, p: string, c: string, s: string, rest: string)
    requires index <= |t| && t[index..] == c + s + rest && s != ""
    requires Absent(c, p) && Apart(p, s) && (p != s ==> Differ(p, 0, s))
    ensures p == s ==> Find(t, p, index) == index + |c| < |t|
    ensures p != s ==> Find(t, p, index) == -1 || Find(t, p, index) > index + |c|
  {
    var text := c + s + rest;
    forall i | index <= i < index + |c| ensures !OccursAt(t, p, i) {
      NotBefore(c, p, s, rest, i - index);
      InSuffix(t, index, p, i);
    }
    InSuffix(t, index, p, index + |c|);
    if p == s {
      assert text[|c|..|c| + |s|] == s;
      FindIs(t, p, index, index + |c|);
    } else {
      NotHere(c, p, s, rest);
    }
  }

  lemma InSuffix(t: string, index: nat, p: string, i: int)
    requires index <= |t| && index <= i
    ensures OccursAt(t, p, i) <==> OccursAt(t[index..], p, i - index)
  {
    if i <= |t| - |p| { assert t[i..i + |p|] == t[index..][i - index..i - index + |p|]; }
  }

  lemma AbsentConcat(x: string, y: string, p: string)
    requires Absent(x, p) && Absent(y, p) && p != ""
    requires (y != "" && y[0] !in p) || (x != "" && x[|x| - 1] !in p) || x == "" || y == ""
    ensures Absent(x + y, p)
  {
    forall i: nat ensures !OccursAt(x + y, p, i) {
      if i + |p| <= |x| {
        OccursWithin(x, y, p, i);
      } else if i >= |x| {
        OccursShifted(x, y, p, i - |x|);
      } else if y != "" && y[0] !in p {
        NotIfDiffers(x + y, p, i, |x| - i);
      } else if y != "" {
        NotIfDiffers(x + y, p, i, |x| - 1 - i);
      }
    }
  }

  lemma AbsentByFirst(x: string, p: string)
    requires p != "" && p[0] !in x
    ensures Absent(x, p)
  {
    forall i: nat ensures !OccursAt(x, p, i) { NotIfDiffers(x, p, i, 0); }
  }

  /** A text without d is a text without anything that contains d. */
  lemma AbsentWhole(x: string, p: string, d: string, k: nat)
    requires Absent(x, d) && k + |d| <= |p| && p[k..k + |d|] == d
    ensures Absent(x, p)
  {
    forall i: nat ensures !OccursAt(x, p, i) {
      assert !OccursAt(x, d, i + k);
      if i + |p| <= |x| {
        var j :| 0 <= j < |d| && x[i + k + j] != d[j];
        assert p[k..k + |d|][j] == p[k + j];
        NotIfDiffers(x, p, i, k + j);
      }
    }
  }

  lemma FindNone(x: string, p: string)
    ensures Find(x, p, 0) == -1 <==> Absent(x, p)
  {
  }

  // ----- the stops -----

  lemma StopsAreApart()
    ensures Apart(THINK_END, THINK_END) && Apart(TOOL_CALLS_START, THINK_END) && Apart(THINK_END, TOOL_CALLS_START)
    ensures Apart(EOS, EOS) && Apart(EOS, TOOL_CALLS_START) && Apart(TOOL_CALLS_START, EOS)
    ensures Apart(TOOL_CALLS_START, TOOL_CALLS_START) && Apart(THINK_END, EOS)
  {
    ApartByFirst(THINK_END, THINK_END);
    ApartByFirst(THINK_END, EOS);
    ApartByFirst(THINK_END, TOOL_CALLS_START);
    ApartByFirst(EOS, EOS);
    ApartByFirst(EOS, TOOL_CALLS_START);
    forall j | 1 <= j < |TOOL_CALLS_START|
      ensures Differ(TOOL_CALLS_START, j, THINK_END) && Differ(TOOL_CALLS_START, j, EOS)
              && Differ(TOOL_CALLS_START, j, TOOL_CALLS_START)
    {
      if j == 2 {
        assert TOOL_CALLS_START[j + 2] != EOS[2] && TOOL_CALLS_START[j + 1] != THINK_END[1];
        assert TOOL_CALLS_START[j + 0] != TOOL_CALLS_START[0];
      } else {
        assert TOOL_CALLS_START[j + 0] != THINK_END[0] && TOOL_CALLS_START[j + 0] != EOS[0];
        if j == 1 { assert TOOL_CALLS_START[j + 1] != TOOL_CALLS_START[1]; }
        else { assert TOOL_CALLS_START[j + 0] != TOOL_CALLS_START[0]; }
      }
    }
  }

  lemma AngleApart(p: string, s: string)
    requires p in [INVOKE, TOOL_CALLS_END, PARAMETER, INVOKE_END]
             && s in [INVOKE, TOOL_CALLS_END, PARAMETER, INVOKE_END]
    ensures Apart(p, s)
  {
    AngleFirst(p);
    AngleFirst(s);
    ApartByFirst(p, s);
  }

  lemma ArgStopsAreApart(s: string)
    requires s == PARAMETER || s == INVOKE_END
    ensures s != "" && Apart(PARAMETER, s) && Apart(INVOKE_END, s)
    ensures (PARAMETER != s ==> Differ(PARAMETER, 0, s)) && (INVOKE_END != s ==> Differ(INVOKE_END, 0, s))
  {
    hide Apart;
    AngleApart(PARAMETER, s);
    AngleApart(INVOKE_END, s);
    assert PARAMETER[0 + 1] != INVOKE_END[1] && INVOKE_END[0 + 1] != PARAMETER[1];
  }

  lemma CallStopsAreApart(s: string)
    requires s == INVOKE || s == TOOL_CALLS_END
    ensures s != "" && Apart(INVOKE, s) && Apart(TOOL_CALLS_END, s)
    ensures (INVOKE != s ==> Differ(INVOKE, 0, s)) && (TOOL_CALLS_END != s ==> Differ(TOOL_CALLS_END, 0, s))
  {
    hide Apart;
    AngleApart(INVOKE, s);
    AngleApart(TOOL_CALLS_END, s);
    assert INVOKE[0 + 1] != TOOL_CALLS_END[1] && TOOL_CALLS_END[0 + 1] != INVOKE[1];
  }

  lemma AngleFirst(p: string)
    requires p in [INVOKE, TOOL_CALLS_END, PARAMETER, INVOKE_END]
    ensures p[0] == '<' && forall j :: 1 <= j < |p| ==> p[j] != '<'
  {
  }

  // ----- names and arguments read back -----

  lemma {:induction false} FindsOnlyEnding(s: string, tail: string, from: nat, at: nat)
    requires from <= at && OccursAt(s, tail, at) && AtDollar(s, at + |tail|)
    requires forall i :: from <= i < at ==> !(OccursAt(s, tail, i) && AtDollar(s, i + |tail|))
    ensures FindEnding(s, tail, from) == at
  {
  }

  function NameText(c: Call): string { " name=\"" + c.name + "\">\n" + (if c.args == [] then "\n" else "") }

  /** Any name reads back, with the extra line break of a call without arguments or without it. */
  lemma NameReadsBack(c: Call)
    ensures NameOf(NameText(c)) == Some(c.name)
  {
    var s := NameText(c);
    var at := 7 + |c.name|;
    assert SkipSpace(s, 0) == 1;
    assert s[1..7] == "name=\"";
    assert s[at..at + 3] == "\">\n";
    forall i | 7 <= i < at ensures !(OccursAt(s, "\">\n", i) && AtDollar(s, i + 3)) {
      if i == at - 1 { NotIfDiffers(s, "\">\n", i, 2); }
    }
    FindsOnlyEnding(s, "\">\n", 7, at);
    assert s[7..at] == c.name;
  }

  ghost predicate MarkerAt(s: string, i: int) { OccursAt(s, Marker(true), i) || OccursAt(s, Marker(false), i) }

  lemma MarkersDiffer(s: string, i: int)
    ensures !(OccursAt(s, Marker(true), i) && OccursAt(s, Marker(false), i))
  {
    if i >= 0 {
      if i + 10 < |s| && s[i + 10] == 't' {
        NotIfDiffers(s, Marker(false), i, 10);
      } else {
        NotIfDiffers(s, Marker(true), i, 10);
      }
    }
  }

  lemma {:induction false} ArgFromFirst(s: string, start: nat, at: nat, target: nat, b: bool, end: nat)
    requires start <= at <= target && end < |s| && s[end] == '<' && AtDollar(s, end + 1)
    requires forall i :: at <= i < target ==> !MarkerAt(s, i)
    requires OccursAt(s, Marker(b), target) && target + |Marker(b)| <= end
    ensures ArgFrom(s, start, at) == Some(Arg(s[start..target], b, s[target + |Marker(b)|..end]))
    decreases target - at
  {
    if at < target {
      assert !MarkerAt(s, at);
      ArgFromFirst(s, start, at + 1, target, b, end);
    } else {
      MarkersDiffer(s, target);
      assert s[end..end + 1] == "<";
      FindsOnlyEnding(s, "<", target + |Marker(b)|, end);
    }
  }

  lemma InnerShape(a: Arg)
    ensures var s := Inner(a); var m := 7 + |a.key|; var v := m + |Marker(a.isStr)|;
            && |s| == v + |a.text| + 1 && s[|s| - 1] == '<' && OccursAt(s, " name=\"", 0)
            && s[7..m] == a.key && OccursAt(s, Marker(a.isStr), m) && s[v..|s| - 1] == a.text
  {
    hide Marker;
    var s := Inner(a);
    var m := 7 + |a.key|;
    var v := m + |Marker(a.isStr)|;
    assert s == " name=\"" + a.key + Marker(a.isStr) + a.text + "<";
    assert s[0..7] == " name=\"";
    assert s[7..m] == a.key;
    assert s[m..v] == Marker(a.isStr);
    assert s[v..|s| - 1] == a.text;
  }

  predicate Readable(key: string) { Find(key, Marker(true), 0) == -1 && Find(key, Marker(false), 0) == -1 }

  /** The argument comes back itself exactly when its key contains no marker. */
  lemma ArgReadsBack(a: Arg)
    ensures ArgOf(Inner(a)).Some?
    ensures ArgOf(Inner(a)) == Some(a) <==> Readable(a.key)
  {
    hide Marker, Inner;
    var s := Inner(a);
    var m := 7 + |a.key|;
    InnerShape(a);
    MarkerLength();
    if exists i :: 7 <= i < m && MarkerAt(s, i) {
      var i := FirstMarker(s, 7, m);
      var b := OccursAt(s, Marker(true), i);
      ArgFromFirst(s, 7, 7, i, b, |s| - 1);
      MarkerInKey(a, i, b);
    } else {
      ArgFromFirst(s, 7, 7, m, a.isStr, |s| - 1);
      if !Readable(a.key) {
        var b := Find(a.key, Marker(true), 0) != -1;
        var j := Find(a.key, Marker(b), 0);
        KeyInInner(a, b, j);
        assert false;
      }
    }
  }

  lemma MarkerLength()
    ensures |Marker(true)| == 16 && |Marker(false)| == 17
  {
  }

  lemma {:induction false} FirstMarker(s: string, lo: nat, hi: nat) returns (i: nat)
    requires exists k :: lo <= k < hi && MarkerAt(s, k)
    ensures lo <= i < hi && MarkerAt(s, i) && forall k :: lo <= k < i ==> !MarkerAt(s, k)
    decreases hi - lo
  {
    if MarkerAt(s, lo) { i := lo; } else { i := FirstMarker(s, lo + 1, hi); }
  }

  lemma SliceOfSlice(s: string, a: nat, b: nat, i: nat, j: nat)
    requires a <= b <= |s| && i <= j <= b - a
    ensures s[a..b][i..j] == s[a + i..a + j]
  {
    forall k | 0 <= k < j - i ensures s[a..b][i..j][k] == s[a + i..a + j][k] {
      assert s[a..b][i + k] == s[a + i + k];
    }
  }

  /** A marker in the key is a marker in the rendered argument. */
  lemma KeyInInner(a: Arg, b: bool, j: nat)
    requires OccursAt(a.key, Marker(b), j)
    ensures OccursAt(Inner(a), Marker(b), 7 + j) && MarkerAt(Inner(a), 7 + j)
  {
    hide Marker, Inner;
    InnerShape(a);
    var s := Inner(a);
    SliceOfSlice(s, 7, 7 + |a.key|, j, j + |Marker(b)|);
  }

  /** A marker that begins in the key lies in the key. */
  lemma MarkerInKey(a: Arg, i: nat, b: bool)
    requires 7 <= i < 7 + |a.key| && OccursAt(Inner(a), Marker(b), i)
    ensures i + |Marker(b)| <= 7 + |a.key| && !Readable(a.key)
  {
    hide Marker, Inner;
    var s := Inner(a);
    var m := 7 + |a.key|;
    InnerShape(a);
    MarkerBegins(a.isStr);
    MarkerLength();
    SliceOfSlice(s, m, m + |Marker(a.isStr)|, 0, 2);
    assert s[m..m + 2] == "\" ";
    assert s[m] == s[m..m + 2][0] && s[m + 1] == s[m..m + 2][1];
    if i + |Marker(b)| > m { QuoteInMarker(s, i, b, m); }
    SliceOfSlice(s, 7, m, i - 7, i - 7 + |Marker(b)|);
    assert OccursAt(a.key, Marker(b), i - 7);
  }

  lemma MarkerBegins(b: bool)
    ensures |Marker(b)| >= 2 && Marker(b)[0..2] == "\" "
  {
  }

  lemma QuoteInMarker(s: string, i: nat, b: bool, m: nat)
    requires m + 1 < |s| && s[m] == '"' && s[m + 1] == ' ' && i < m < i + |Marker(b)|
    ensures !OccursAt(s, Marker(b), i)
  {
    if Marker(b)[m - i] != '"' {
      NotIfDiffers(s, Marker(b), i, m - i);
    } else {
      assert m - i + 1 < |Marker(b)| && Marker(b)[m - i + 1] != ' ';
      NotIfDiffers(s, Marker(b), i, m - i + 1);
    }
  }

  // ----- rendered calls read back -----

  /** A rendered argument as the parser reads it. */
  function Reread(a: Arg): Arg { var r := ArgOf(Inner(a)); if r.Some? then r.value else a }

  function RereadArgs(args: seq<Arg>, soFar: seq<Arg>): Option<seq<Arg>> {
    if args == [] then Some(soFar)
    else if HasKey(soFar, Reread(args[0]).key) then None
    else RereadArgs(args[1..], soFar + [Reread(args[0])])
  }

  function RereadCalls(cs: seq<Call>, soFar: seq<Call>): Option<seq<Call>> {
    if cs == [] then Some(soFar)
    else
      var args := RereadArgs(cs[0].args, []);
      if args.None? then None else RereadCalls(cs[1..], soFar + [Call(cs[0].name, args.value)])
  }

  ghost predicate Plain(s: string) { Absent(s, DSML) }

  ghost predicate PlainArgs(args: seq<Arg>) {
    forall i :: 0 <= i < |args| ==> Plain(args[i].key) && Plain(args[i].text)
  }

  ghost predicate PlainCalls(cs: seq<Call>) {
    forall i :: 0 <= i < |cs| ==> Plain(cs[i].name) && PlainArgs(cs[i].args)
  }

  function Opener(args: seq<Arg>): string { if args == [] then INVOKE_END else PARAMETER }

  /** The text of the arguments behind the first opening token. */
  function ArgsAfter(args: seq<Arg>): string {
    if args == [] then ""
    else Inner(args[0]) + PARAMETER_END + BREAK + Opener(args[1..]) + ArgsAfter(args[1..])
  }

  /** The text of the calls behind the last closing token. */
  function CallsAfter(cs: seq<Call>): string {
    if cs == [] then BREAK + TOOL_CALLS_END
    else BREAK + INVOKE + NameText(cs[0]) + Opener(cs[0].args) + ArgsAfter(cs[0].args) + CallsAfter(cs[1..])
  }

  lemma TokensHoldDsml()
    ensures |DSML| <= |PARAMETER| - 1 && PARAMETER[1..1 + |DSML|] == DSML
    ensures |DSML| <= |INVOKE_END| - 2 && INVOKE_END[2..2 + |DSML|] == DSML
    ensures |DSML| <= |PARAMETER_END| - 1 && PARAMETER_END[1..1 + |DSML|] == DSML
    ensures |DSML| <= |TOOL_CALLS_START| - 3 && TOOL_CALLS_START[3..3 + |DSML|] == DSML
  {
    Holds(PARAMETER, 1);
    Holds(INVOKE_END, 2);
    Holds(PARAMETER_END, 1);
    Holds(TOOL_CALLS_START, 3);
  }

  lemma Holds(p: string, k: nat)
    requires k + 6 <= |p| && p[k] == p[k + 5] == '\U{FF5C}'
    requires p[k + 1] == 'D' && p[k + 2] == 'S' && p[k + 3] == 'M' && p[k + 4] == 'L'
    ensures k + |DSML| <= |p| && p[k..k + |DSML|] == DSML
  {
    assert |DSML| == 6;
    forall i | 0 <= i < 6 ensures p[k..k + 6][i] == DSML[i] {}
  }

  lemma InnerIsPlain(a: Arg)
    requires Plain(a.key) && Plain(a.text)
    ensures Absent(Inner(a), PARAMETER_END)
  {
    hide OccursAt, Find;
    var l1, l2 := " name=\"", Marker(a.isStr);
    AbsentByFirst(l1, DSML);
    AbsentByFirst(l2, DSML);
    AbsentByFirst("<", DSML);
    AbsentConcat(l1, a.key, DSML);
    AbsentConcat(l1 + a.key, l2, DSML);
    AbsentConcat(l1 + a.key + l2, a.text, DSML);
    AbsentConcat(l1 + a.key + l2 + a.text, "<", DSML);
    TokensHoldDsml();
    AbsentWhole(Inner(a), PARAMETER_END, DSML, 1);
  }

  lemma NameIsPlain(c: Call)
    requires Plain(c.name)
    ensures Absent(NameText(c), PARAMETER) && Absent(NameText(c), INVOKE_END)
  {
    hide OccursAt, Find;
    var l1, l2, l3 := " name=\"", "\">\n", if c.args == [] then "\n" else "";
    AbsentByFirst(l1, DSML);
    AbsentByFirst(l2, DSML);
    AbsentByFirst(l3, DSML);
    AbsentConcat(l1, c.name, DSML);
    AbsentConcat(l1 + c.name, l2, DSML);
    AbsentConcat(l1 + c.name + l2, l3, DSML);
    TokensHoldDsml();
    AbsentWhole(NameText(c), PARAMETER, DSML, 1);
    AbsentWhole(NameText(c), INVOKE_END, DSML, 2);
  }

  lemma BreakIsPlain()
    ensures Absent(BREAK, PARAMETER) && Absent(BREAK, INVOKE_END) && Absent(BREAK, INVOKE)
            && Absent(BREAK, TOOL_CALLS_END)
  {
    AbsentByFirst(BREAK, PARAMETER);
    AbsentByFirst(BREAK, INVOKE_END);
    AbsentByFirst(BREAK, INVOKE);
    AbsentByFirst(BREAK, TOOL_CALLS_END);
  }

  lemma ReadsToOnly(t: string, index: nat, a: string, c: string, rest: string)
    requires index <= |t| && t[index..] == c + a + rest && a != "" && Absent(c, a) && Apart(a, a)
    ensures ReadUntilStop(t, index, [a]) == Read(index + |c| + |a|, c, Some(a))
    ensures index + |c| + |a| <= |t| && t[index + |c| + |a|..] == rest
  {
    StopPlace(t, index, a, c, a, rest);
    assert [a][..0] == [];
    var n0 := NearestStop(t, index, []);
    assert t[index..index + |c|] == t[index..][..|c|] == c;
    assert t[index + |c| + |a|..] == t[index..][|c| + |a|..] == rest;
  }

  lemma ArgsAfterStep(args: seq<Arg>)
    requires args != []
    ensures ArgsAfter(args) == Inner(args[0]) + PARAMETER_END + BREAK + Opener(args[1..]) + ArgsAfter(args[1..])
  {
  }

  lemma EndApart()
    ensures PARAMETER_END != "" && Apart(PARAMETER_END, PARAMETER_END)
  {
    ApartByFirst(PARAMETER_END, PARAMETER_END);
  }

  /** One rendered argument and the separator behind it. */
  lemma ReadsArg(t: string, index: nat, args: seq<Arg>, tail: string)
    requires args != [] && Plain(args[0].key) && Plain(args[0].text)
    requires index <= |t| && t[index..] == ArgsAfter(args) + tail
    ensures var p := ReadUntilStop(t, index, [PARAMETER_END]);
            var e := ReadUntilStop(t, p.index, [PARAMETER, INVOKE_END]);
            && p.content == Inner(args[0]) && e.content == BREAK && e.stop == Some(Opener(args[1..]))
            && t[e.index..] == ArgsAfter(args[1..]) + tail
  {
    hide Inner, ReadUntilStop, Absent, Apart, Differ, OccursAt, Plain, ArgsAfter, BREAK, INVOKE, INVOKE_END,
         PARAMETER, PARAMETER_END, TOOL_CALLS_END;
    var i, o, r := Inner(args[0]), Opener(args[1..]), ArgsAfter(args[1..]);
    ArgsAfterStep(args);
    InnerIsPlain(args[0]);
    ReadsArgIn(t, index, i, o, r + tail);
  }

  lemma ReadsArgIn(t: string, index: nat, inner: string, o: string, rest: string)
    requires index <= |t| && t[index..] == inner + PARAMETER_END + (BREAK + o + rest)
    requires Absent(inner, PARAMETER_END) && (o == PARAMETER || o == INVOKE_END)
    ensures var p := ReadUntilStop(t, index, [PARAMETER_END]);
            var e := ReadUntilStop(t, p.index, [PARAMETER, INVOKE_END]);
            && p.content == inner && e.content == BREAK && e.stop == Some(o) && t[e.index..] == rest
  {
    hide ReadUntilStop, Absent, Apart, Differ, OccursAt, BREAK, INVOKE, INVOKE_END, PARAMETER, PARAMETER_END,
         TOOL_CALLS_END;
    EndApart();
    ReadsToOnly(t, index, PARAMETER_END, inner, BREAK + o + rest);
    ArgStopsAreApart(o);
    BreakIsPlain();
    ReadsTo(t, index + |inner| + |PARAMETER_END|, PARAMETER, INVOKE_END, BREAK, o, rest);
  }

  lemma {:induction false} ParsesArgs(t: string, index: nat, args: seq<Arg>, soFar: seq<Arg>, tail: string)
    requires PlainArgs(args) && index <= |t| && t[index..] == ArgsAfter(args) + tail
    ensures ParseParams(t, index, Some(Opener(args)), soFar)
         == match RereadArgs(args, soFar)
            case Some(l) => Ok(Params(|t| - |tail|, Some(INVOKE_END), l))
            case None => Err(FormatError)
    decreases |args|
  {
    hide ReadUntilStop, ArgsAfter, HasKey, ArgOf, Plain;
    if args == [] {
      OpenersDiffer();
      assert ArgsAfter(args) + tail == tail by { NoArgsAfter(); }
    } else {
      ReadsArg(t, index, args, tail);
      var p := ReadUntilStop(t, index, [PARAMETER_END]);
      var e := ReadUntilStop(t, p.index, [PARAMETER, INVOKE_END]);
      ArgReadsBack(args[0]);
      if !HasKey(soFar, Reread(args[0]).key) {
        ParsesArgs(t, e.index, args[1..], soFar + [Reread(args[0])], tail);
      }
    }
  }

  lemma OpenersDiffer()
    ensures INVOKE_END != PARAMETER
  {
    assert INVOKE_END[1] != PARAMETER[1];
  }

  lemma NoArgsAfter()
    ensures ArgsAfter([]) == ""
  {
  }

  lemma CallsAfterStep(cs: seq<Call>)
    requires cs != []
    ensures CallsAfter(cs)
            == BREAK + INVOKE + NameText(cs[0]) + Opener(cs[0].args) + ArgsAfter(cs[0].args) + CallsAfter(cs[1..])
  {
  }

  lemma Regroup7(a: string, b: string, c: string, d: string, e: string, f: string, g: string)
    ensures a + b + c + d + e + f + g == a + b + (c + d + (e + (f + g)))
  {
    assert a + b + c + d + e + f + g == a + b + c + d + e + (f + g);
    assert a + b + c + d + e + (f + g) == a + b + c + d + (e + (f + g));
    assert a + b + c + d + (e + (f + g)) == a + b + (c + d + (e + (f + g)));
  }

  /** What follows the opening of a call: its name, the opener of what comes next, and the rest. */
  function AfterInvoke(cs: seq<Call>, tail: string): string
    requires cs != []
  {
    NameText(cs[0]) + Opener(cs[0].args) + (ArgsAfter(cs[0].args) + (CallsAfter(cs[1..]) + tail))
  }

  lemma CallsBegin(cs: seq<Call>, tail: string)
    requires cs != []
    ensures CallsAfter(cs) + tail == BREAK + INVOKE + AfterInvoke(cs, tail)
  {
    hide NameText, Opener, BREAK, INVOKE;
    CallsAfterStep(cs);
    hide CallsAfter, ArgsAfter;
    Regroup7(BREAK, INVOKE, NameText(cs[0]), Opener(cs[0].args), ArgsAfter(cs[0].args), CallsAfter(cs[1..]), tail);
  }

  lemma ReadsInvoke(t: string, index: nat, rest: string)
    requires index <= |t| && t[index..] == BREAK + INVOKE + rest
    ensures var b := ReadUntilStop(t, index, [INVOKE, TOOL_CALLS_END]);
            b.content == BREAK && b.stop == Some(INVOKE) && t[b.index..] == rest
  {
    hide ReadUntilStop, Absent, Apart, Differ, OccursAt, BREAK, INVOKE, INVOKE_END, PARAMETER, TOOL_CALLS_END;
    BreakIsPlain();
    CallStopsAreApart(INVOKE);
    ReadsTo(t, index, INVOKE, TOOL_CALLS_END, BREAK, INVOKE, rest);
  }

  lemma ReadsName(t: string, index: nat, c: Call, rest: string)
    requires Plain(c.name) && index <= |t| && t[index..] == NameText(c) + Opener(c.args) + rest
    ensures var n := ReadUntilStop(t, index, [PARAMETER, INVOKE_END]);
            n.content == NameText(c) && n.stop == Some(Opener(c.args)) && t[n.index..] == rest
  {
    assert Opener(c.args) == PARAMETER || Opener(c.args) == INVOKE_END;
    hide NameText, ReadUntilStop, Absent, Apart, Differ, OccursAt, Plain, Opener, INVOKE_END, PARAMETER;
    ArgStopsAreApart(Opener(c.args));
    NameIsPlain(c);
    ReadsTo(t, index, PARAMETER, INVOKE_END, NameText(c), Opener(c.args), rest);
  }

  /** The opening of one rendered call and its name. */
  lemma ReadsCall(t: string, index: nat, cs: seq<Call>, tail: string)
    requires cs != [] && Plain(cs[0].name)
    requires index <= |t| && t[index..] == CallsAfter(cs) + tail
    ensures var b := ReadUntilStop(t, index, [INVOKE, TOOL_CALLS_END]);
            var n := ReadUntilStop(t, b.index, [PARAMETER, INVOKE_END]);
            && b.content == BREAK && b.stop == Some(INVOKE) && n.content == NameText(cs[0])
            && n.stop == Some(Opener(cs[0].args))
            && t[n.index..] == ArgsAfter(cs[0].args) + (CallsAfter(cs[1..]) + tail)
  {
    hide NameText, ReadUntilStop, Plain, Opener, CallsAfter, ArgsAfter, BREAK, INVOKE, INVOKE_END, PARAMETER,
         TOOL_CALLS_END;
    CallsBegin(cs, tail);
    ReadsInvoke(t, index, AfterInvoke(cs, tail));
    var b := ReadUntilStop(t, index, [INVOKE, TOOL_CALLS_END]);
    ReadsName(t, b.index, cs[0], ArgsAfter(cs[0].args) + (CallsAfter(cs[1..]) + tail));
  }

  lemma ReadsCallsEnd(t: string, index: nat, tail: string)
    requires index <= |t| && t[index..] == CallsAfter([]) + tail
    ensures var b := ReadUntilStop(t, index, [INVOKE, TOOL_CALLS_END]);
            && b.content == BREAK && b.stop == Some(TOOL_CALLS_END) && t[b.index..] == tail && index < |t|
  {
    hide ReadUntilStop, Absent, Apart, Differ, OccursAt;
    BreakIsPlain();
    CallStopsAreApart(TOOL_CALLS_END);
    ReadsTo(t, index, INVOKE, TOOL_CALLS_END, BREAK, TOOL_CALLS_END, tail);
  }

  lemma {:induction false} ParsesCalls(
      t: string, index: nat, stop: Option<string>, cs: seq<Call>, soFar: seq<Call>, tail: string)
    requires PlainCalls(cs) && index <= |t| && t[index..] == CallsAfter(cs) + tail
    ensures ParseCalls(t, index, stop, soFar)
         == match RereadCalls(cs, soFar)
            case Some(l) => Ok(Calls(|t| - |tail|, Some(TOOL_CALLS_END), l))
            case None => Err(FormatError)
    decreases |cs|
  {
    hide ReadUntilStop, ArgsAfter, CallsAfter, ParseParams, NameOf, RereadArgs, Plain, PlainArgs;
    if cs == [] {
      ReadsCallsEnd(t, index, tail);
    } else {
      ReadsCall(t, index, cs, tail);
      EndsDiffer();
      var b := ReadUntilStop(t, index, [INVOKE, TOOL_CALLS_END]);
      var n := ReadUntilStop(t, b.index, [PARAMETER, INVOKE_END]);
      NameReadsBack(cs[0]);
      var rest := CallsAfter(cs[1..]) + tail;
      ParsesArgs(t, n.index, cs[0].args, [], rest);
      var args := RereadArgs(cs[0].args, []);
      if args.Some? {
        assert t[|t| - |rest|..] == rest by { SuffixOf(t, n.index, ArgsAfter(cs[0].args), rest); }
        ParsesCalls(t, |t| - |rest|, Some(INVOKE_END), cs[1..], soFar + [Call(cs[0].name, args.value)], tail);
      }
    }
  }

  lemma EndsDiffer()
    ensures INVOKE != TOOL_CALLS_END
  {
    assert INVOKE[1] != TOOL_CALLS_END[1];
  }

  lemma SuffixOf(t: string, i: nat, x: string, y: string)
    requires i <= |t| && t[i..] == x + y
    ensures |y| <= |t| && t[|t| - |y|..] == y
  {
    assert t[|t| - |y|..] == t[i..][|x|..];
  }

  // ----- when reading back is the identity -----

  predicate DistinctKeys(args: seq<Arg>) { forall i, j :: 0 <= i < j < |args| ==> args[i].key != args[j].key }

  predicate ReadableArgs(args: seq<Arg>) { forall i :: 0 <= i < |args| ==> Readable(args[i].key) }

  predicate ReadableCalls(cs: seq<Call>) { forall i :: 0 <= i < |cs| ==> ReadableArgs(cs[i].args) }

  lemma {:induction false} RereadKeepsPrefix(args: seq<Arg>, soFar: seq<Arg>)
    ensures var l := RereadArgs(args, soFar); l.Some? ==> soFar <= l.value
    decreases |args|
  {
    if args != [] { RereadKeepsPrefix(args[1..], soFar + [Reread(args[0])]); }
  }

  lemma {:induction false} RereadArgsExactly(args: seq<Arg>, soFar: seq<Arg>)
    requires DistinctKeys(soFar + args)
    ensures RereadArgs(args, soFar) == Some(soFar + args) <==> ReadableArgs(args)
    decreases |args|
  {
    hide Readable, ArgOf;
    if args == [] {
      assert soFar + args == soFar;
    } else {
      var a := args[0];
      var r := Reread(a);
      ArgReadsBack(a);
      assert soFar + args == soFar + [a] + args[1..];
      if Readable(a.key) {
        assert !HasKey(soFar, a.key) by {
          forall i | 0 <= i < |soFar| ensures soFar[i].key != a.key {
            assert (soFar + args)[i].key != (soFar + args)[|soFar|].key;
          }
        }
        RereadArgsExactly(args[1..], soFar + [a]);
        assert args == [a] + args[1..];
      } else {
        RereadKeepsPrefix(args[1..], soFar + [r]);
        assert (soFar + [r])[|soFar|] != (soFar + args)[|soFar|];
      }
    }
  }

  lemma {:induction false} RereadCallsKeepPrefix(cs: seq<Call>, soFar: seq<Call>)
    ensures var l := RereadCalls(cs, soFar); l.Some? ==> soFar <= l.value
    decreases |cs|
  {
    if cs != [] {
      var args := RereadArgs(cs[0].args, []);
      if args.Some? { RereadCallsKeepPrefix(cs[1..], soFar + [Call(cs[0].name, args.value)]); }
    }
  }

  lemma {:induction false} RereadCallsExactly(cs: seq<Call>, soFar: seq<Call>)
    requires forall i :: 0 <= i < |cs| ==> DistinctKeys(cs[i].args)
    ensures RereadCalls(cs, soFar) == Some(soFar + cs) <==> ReadableCalls(cs)
    decreases |cs|
  {
    hide ReadableArgs, RereadArgs, DistinctKeys;
    if cs == [] {
      assert soFar + cs == soFar;
    } else {
      var c := cs[0];
      var args := RereadArgs(c.args, []);
      assert [] + c.args == c.args;
      RereadArgsExactly(c.args, []);
      assert soFar + cs == soFar + [c] + cs[1..];
      if ReadableArgs(c.args) {
        RereadCallsExactly(cs[1..], soFar + [c]);
        assert cs == [c] + cs[1..];
      } else if args.Some? {
        var r := Call(c.name, args.value);
        RereadCallsKeepPrefix(cs[1..], soFar + [r]);
        assert (soFar + [r])[|soFar|] != (soFar + cs)[|soFar|];
      }
    }
  }

  // ----- the rendered text in the parser's order -----

  lemma JoinStep(sep: string, parts: seq<string>, end: string)
    requires parts != []
    ensures Join(sep, parts) + sep + end
         == parts[0] + sep + (if |parts| == 1 then end else Join(sep, parts[1..]) + sep + end)
  {
    if |parts| > 1 {
      var j := Join(sep, parts[1..]);
      assert parts[0] + sep + j + sep + end == parts[0] + sep + (j + sep + end);
    }
  }

  lemma ArgTextsStep(args: seq<Arg>)
    requires args != []
    ensures var p := ArgTexts(args);
            |p| == |args| && p[0] == ArgText(args[0]) && p[1..] == ArgTexts(args[1..])
  {
    hide ArgText;
    ArgTextsCount(args);
  }

  lemma {:induction false} ArgTextsCount(args: seq<Arg>)
    ensures |ArgTexts(args)| == |args|
    decreases |args|
  {
    if args != [] { ArgTextsCount(args[1..]); }
  }

  lemma {:induction false} ArgsJoined(args: seq<Arg>)
    ensures Join("\n", ArgTexts(args)) + "\n" + INVOKE_END
         == (if args == [] then "\n" else "") + Opener(args) + ArgsAfter(args)
    decreases |args|
  {
    if args != [] {
      hide Inner, Join, ArgText, ArgTexts, ArgsAfter, Opener;
      var rest := args[1..];
      ArgTextsStep(args);
      ArgsAfterStep(args);
      NoArgsAfter();
      if rest != [] { ArgsJoined(rest); }
      ArgsJoinedStep(args, ArgTexts(args), Opener(rest), ArgsAfter(rest));
      FirstOpener(args);
    }
  }

  lemma FirstOpener(args: seq<Arg>)
    ensures Opener(args) == if args == [] then INVOKE_END else PARAMETER
  {
  }

  lemma ArgsJoinedStep(args: seq<Arg>, parts: seq<string>, o: string, r: string)
    requires |parts| == |args| > 0 && parts[0] == ArgText(args[0])
    requires if |args| == 1 then o == INVOKE_END && r == ""
             else Join("\n", parts[1..]) + "\n" + INVOKE_END == "" + o + r
    ensures Join("\n", parts) + "\n" + INVOKE_END == "" + PARAMETER + (Inner(args[0]) + PARAMETER_END + BREAK + o + r)
  {
    hide Inner, Join, ArgText;
    JoinStep("\n", parts, INVOKE_END);
    ArgSpread(args[0]);
    assert "" + o == o && o + "" == o && "" + PARAMETER == PARAMETER;
    ArgTail(Inner(args[0]), o, r);
  }

  lemma ArgSpread(a: Arg)
    ensures ArgText(a) == PARAMETER + Inner(a) + PARAMETER_END + ">"
  {
  }

  lemma ArgTail(i: string, o: string, r: string)
    ensures PARAMETER + i + PARAMETER_END + ">" + "\n" + (o + r) == PARAMETER + (i + PARAMETER_END + BREAK + o + r)
  {
    var p, e := PARAMETER, PARAMETER_END;
    assert p + i + e + ">" + "\n" + (o + r) == p + i + e + BREAK + o + r;
    assert p + i + e + BREAK + o + r == p + (i + e + BREAK + o + r);
  }

  lemma CallSpread(c: Call)
    ensures CallText(c) + "\n" == INVOKE + NameText(c) + Opener(c.args) + ArgsAfter(c.args) + BREAK
  {
    hide Join, ArgTexts, ArgsAfter, Opener;
    ArgsJoined(c.args);
    CallTextIs(c);
    CallPieces(INVOKE, " name=\"" + c.name + "\">\n", Join("\n", ArgTexts(c.args)), INVOKE_END,
      if c.args == [] then "\n" else "", Opener(c.args), ArgsAfter(c.args));
  }

  lemma CallPieces(inv: string, name: string, j: string, end: string, gap: string, o: string, r: string)
    requires j + "\n" + end == gap + o + r
    ensures (inv + name + j + "\n" + end + ">") + "\n" == inv + (name + gap) + o + r + BREAK
  {
    assert inv + name + j + "\n" + end + ">" + "\n" == inv + name + (j + "\n" + end) + BREAK;
    assert inv + name + (gap + o + r) == inv + (name + gap) + o + r;
  }

  lemma CallTextsStep(cs: seq<Call>)
    requires cs != []
    ensures var p := CallTexts(cs);
            |p| == |cs| && p[0] == CallText(cs[0]) && p[1..] == CallTexts(cs[1..])
  {
    hide CallText;
    CallTextsCount(cs);
  }

  lemma {:induction false} CallTextsCount(cs: seq<Call>)
    ensures |CallTexts(cs)| == |cs|
    decreases |cs|
  {
    if cs != [] { CallTextsCount(cs[1..]); }
  }

  lemma {:induction false} CallsJoined(cs: seq<Call>)
    requires cs != []
    ensures BREAK + (Join("\n", CallTexts(cs)) + "\n" + TOOL_CALLS_END) == CallsAfter(cs)
    decreases |cs|
  {
    hide Join, CallTexts, CallText, NameText, Opener, ArgsAfter;
    var c, rest := cs[0], cs[1..];
    CallTextsStep(cs);
    JoinStep("\n", CallTexts(cs), TOOL_CALLS_END);
    CallSpread(c);
    CallsAfterStep(cs);
    if rest != [] { CallsJoined(rest); }
    var x := if rest == [] then TOOL_CALLS_END else Join("\n", CallTexts(rest)) + "\n" + TOOL_CALLS_END;
    assert CallsAfter(rest) == BREAK + x;
    hide CallsAfter;
    Unfold(INVOKE, NameText(c), Opener(c.args), ArgsAfter(c.args), CallText(c), x);
  }

  lemma Unfold(inv: string, n: string, o: string, r: string, call: string, x: string)
    requires call + "\n" == inv + n + o + r + BREAK
    ensures BREAK + (call + "\n" + x) == BREAK + inv + n + o + r + (BREAK + x)
  {
    assert BREAK + (inv + n + o + r + BREAK + x) == BREAK + inv + n + o + r + (BREAK + x);
  }

  lemma CallsTextIs(cs: seq<Call>)
    requires cs != []
    ensures CallsText(cs) == TOOL_CALLS_START + CallsAfter(cs)
  {
    hide Join, CallTexts, CallsAfter;
    CallsJoined(cs);
    var j, s, e := Join("\n", CallTexts(cs)), TOOL_CALLS_START, TOOL_CALLS_END;
    assert s + BREAK + j + "\n" + e == s + (BREAK + (j + "\n" + e));
  }

  // ----- the round trip -----

  ghost predicate Renderable(m: Message, thinks: bool) {
    && Clean(m.content) && (thinks ==> Clean(m.reasoning))
    && PlainCalls(m.calls) && forall i :: 0 <= i < |m.calls| ==> DistinctKeys(m.calls[i].args)
  }

  lemma CleanIsFree(c: string)
    requires Clean(c)
    ensures Absent(c, EOS) && Absent(c, THINK_END) && Absent(c, TOOL_CALLS_START)
  {
    assert SPECIALS[1] == EOS && SPECIALS[3] == THINK_END && SPECIALS[4] == DSML;
    FindNone(c, EOS);
    FindNone(c, THINK_END);
    FindNone(c, DSML);
    TokensHoldDsml();
    AbsentWhole(c, TOOL_CALLS_START, DSML, 3);
  }

  function Tail(eos: bool): string { if eos then EOS else "" }

  /** Content without calls, from where the content begins. */
  lemma ParsesContentOnly(t: string, index: nat, reasoning: string, content: string, eos: bool)
    requires Clean(content) && Clean(reasoning)
    requires index <= |t| && t[index..] == content + Tail(eos)
    ensures ParsedFrom(t, index, reasoning)
         == if eos then Ok(Message(content, reasoning, [])) else Err(AssertionFailed)
  {
    hide ReadUntilStop, ParseCalls, Clean, Absent, Apart, Differ;
    CleanIsFree(content);
    StopsAreApart();
    StopsDiffer();
    if eos {
      assert t[index..] == content + EOS + "";
      ReadsTo(t, index, EOS, TOOL_CALLS_START, content, EOS, "");
    } else {
      assert t[index..] == content;
      ReadsNothing(t, index, EOS, TOOL_CALLS_START);
    }
  }

  function RereadMessage(cs: seq<Call>, content: string, reasoning: string): Outcome<Message> {
    match RereadCalls(cs, [])
    case Some(l) => Ok(Message(content, reasoning, l))
    case None => Err(FormatError)
  }

  /** Content and calls, from where the content begins. */
  lemma ParsesContentAndCalls(t: string, index: nat, reasoning: string, m: Message, eos: bool)
    requires Clean(m.content) && Clean(reasoning) && PlainCalls(m.calls) && m.calls != []
    requires index <= |t| && t[index..] == m.content + CallsText(m.calls) + Tail(eos)
    ensures ParsedFrom(t, index, reasoning) == RereadMessage(m.calls, m.content, reasoning)
  {
    hide ReadUntilStop, ParseCalls, RereadCalls, Clean, Absent, Apart, Differ, PlainCalls, Tail, CallsAfter;
    var rest := CallsAfter(m.calls) + Tail(eos);
    CallsTextIs(m.calls);
    hide CallsText;
    ReadsToCalls(t, index, m.content, CallsAfter(m.calls), Tail(eos));
    StopsDiffer();
    var at := index + |m.content| + |TOOL_CALLS_START|;
    ParsesCalls(t, at, None, m.calls, [], Tail(eos));
    SuffixOf(t, at, CallsAfter(m.calls), Tail(eos));
    ReadsTail(t, |t| - |Tail(eos)|, eos);
  }

  lemma ReadsToCalls(t: string, index: nat, content: string, calls: string, tail: string)
    requires Clean(content) && index <= |t| && t[index..] == content + (TOOL_CALLS_START + calls) + tail
    ensures var at := index + |content| + |TOOL_CALLS_START|;
            && at <= |t| && t[at..] == calls + tail
            && ReadUntilStop(t, index, [EOS, TOOL_CALLS_START]) == Read(at, content, Some(TOOL_CALLS_START))
            && (ReadUntilStop(t, index, [THINK_END, TOOL_CALLS_START]) == Read(at, content, Some(TOOL_CALLS_START)))
  {
    hide ReadUntilStop, Clean, Absent, Apart, Differ;
    CleanIsFree(content);
    StopsAreApart();
    StopsDiffer();
    Regroup4(content, TOOL_CALLS_START, calls, tail);
    ReadsTo(t, index, EOS, TOOL_CALLS_START, content, TOOL_CALLS_START, calls + tail);
    ReadsTo(t, index, THINK_END, TOOL_CALLS_START, content, TOOL_CALLS_START, calls + tail);
  }

  lemma Regroup4(a: string, b: string, c: string, d: string)
    ensures a + (b + c) + d == a + b + (c + d)
  {
  }

  lemma NoCallsText()
    ensures CallsText([]) == ""
  {
  }

  lemma StopsDiffer()
    ensures EOS != TOOL_CALLS_START && THINK_END != TOOL_CALLS_START
    ensures Differ(EOS, 0, TOOL_CALLS_START) && Differ(TOOL_CALLS_START, 0, EOS)
            && Differ(TOOL_CALLS_START, 0, THINK_END)
         && Differ(THINK_END, 0, TOOL_CALLS_START)
  {
    assert EOS[0 + 0] != TOOL_CALLS_START[0] && TOOL_CALLS_START[0 + 0] != EOS[0];
    assert THINK_END[0 + 0] != TOOL_CALLS_START[0] && TOOL_CALLS_START[0 + 0] != THINK_END[0];
  }

  lemma ReadsNothing(t: string, index: nat, a: string, b: string)
    requires index <= |t| && Absent(t[index..], a) && Absent(t[index..], b)
    ensures ReadUntilStop(t, index, [a, b]).stop == None
  {
    if Find(t, a, index) != -1 { InSuffix(t, index, a, Find(t, a, index)); }
    if Find(t, b, index) != -1 { InSuffix(t, index, b, Find(t, b, index)); }
    assert [a, b][..1] == [a] && [a][..0] == [];
    assert NearestStop(t, index, [a]).stop == None;
  }

  lemma ReadsTail(t: string, index: nat, eos: bool)
    requires index <= |t| && t[index..] == Tail(eos)
    ensures ReadUntilStop(t, index, [EOS]) == Read(|t|, "", if eos then Some(EOS) else None)
  {
    assert [EOS][..0] == [];
    assert t[index..index] == "";
    if eos {
      assert t[index..index + |EOS|] == t[index..] == EOS;
      FindIs(t, EOS, index, index);
      assert NearestStop(t, index, []) == Nearest(|t|, None);
      assert NearestStop(t, index, [EOS]) == Nearest(index, Some(EOS));
    } else {
      assert index == |t| && Find(t, EOS, index) == -1;
      assert NearestStop(t, index, [EOS]) == NearestStop(t, index, []);
    }
  }

  function Shown(m: Message, thinks: bool): string { if thinks then m.reasoning else "" }

  /** What parsing makes of any rendered message, for every rendering choice. */
  lemma ParsesRendered(m: Message, thinks: bool, thinking: bool, eos: bool)
    requires Renderable(m, thinks) && (thinks ==> thinking)
    ensures Parsed(Rendered(m, thinks, eos), thinking)
         == if thinking && !thinks then Err(AssertionFailed)
            else if m.calls != [] then RereadMessage(m.calls, m.content, Shown(m, thinks))
            else if eos then Ok(Message(m.content, Shown(m, thinks), [])) else Err(AssertionFailed)
  {
    hide CallsText, Clean, ParsedFrom, ReadUntilStop, PlainCalls, RereadMessage, DistinctKeys, Rendered, Tail;
    var t := Rendered(m, thinks, eos);
    var body := m.content + CallsText(m.calls) + Tail(eos);
    NothingIsClean();
    RenderedIs(m, thinks, eos);
    if thinking && !thinks {
      MissesThinkEnd(t, m, eos);
    } else {
      var at := if thinks then |m.reasoning| + |THINK_END| else 0;
      if thinks { ReadsReasoning(t, m.reasoning, body); } else { assert t[0..] == t; }
      ParsesBody(t, at, Shown(m, thinks), m, eos);
    }
  }

  lemma ParsesBody(t: string, at: nat, reasoning: string, m: Message, eos: bool)
    requires Clean(m.content) && Clean(reasoning) && PlainCalls(m.calls)
    requires at <= |t| && t[at..] == m.content + CallsText(m.calls) + Tail(eos)
    ensures ParsedFrom(t, at, reasoning)
         == if m.calls != [] then RereadMessage(m.calls, m.content, reasoning)
            else if eos then Ok(Message(m.content, reasoning, [])) else Err(AssertionFailed)
  {
    hide CallsText, Clean, ParsedFrom, PlainCalls, RereadMessage, Tail;
    if m.calls == [] {
      NoCallsText();
      assert m.content + "" == m.content;
      ParsesContentOnly(t, at, reasoning, m.content, eos);
    } else {
      ParsesContentAndCalls(t, at, reasoning, m, eos);
    }
  }

  lemma RenderedIs(m: Message, thinks: bool, eos: bool)
    ensures Rendered(m, thinks, eos)
         == if thinks then m.reasoning + THINK_END + (m.content + CallsText(m.calls) + Tail(eos))
            else m.content + CallsText(m.calls) + Tail(eos)
  {
    hide CallsText;
    var c, k, e := m.content, CallsText(m.calls), Tail(eos);
    if thinks { Regroup5(m.reasoning, THINK_END, c, k, e); } else { assert "" + c == c; }
  }

  lemma Regroup5(a: string, b: string, c: string, d: string, e: string)
    ensures a + b + c + d + e == a + b + (c + d + e)
  {
    assert a + b + c + d == a + b + (c + d);
    assert a + b + (c + d) + e == a + b + (c + d + e);
  }

  lemma NothingIsClean()
    ensures Clean("")
  {
    forall i | 0 <= i < |SPECIALS| ensures Find("", SPECIALS[i], 0) == -1 {
      assert SPECIALS[i] != "";
    }
  }

  lemma ReadsReasoning(t: string, reasoning: string, body: string)
    requires Clean(reasoning) && t == reasoning + THINK_END + body
    ensures ReadUntilStop(t, 0, [THINK_END, TOOL_CALLS_START])
         == Read(|reasoning| + |THINK_END|, reasoning, Some(THINK_END))
    ensures t[|reasoning| + |THINK_END|..] == body
  {
    hide ReadUntilStop, Clean, Absent, Apart, Differ;
    CleanIsFree(reasoning);
    StopsAreApart();
    StopsDiffer();
    assert t[0..] == t;
    ReadsTo(t, 0, THINK_END, TOOL_CALLS_START, reasoning, THINK_END, body);
  }

  /** Without a thinking part there is no end of thinking to be found before the calls. */
  lemma MissesThinkEnd(t: string, m: Message, eos: bool)
    requires Clean(m.content) && t == m.content + CallsText(m.calls) + Tail(eos)
    ensures ReadUntilStop(t, 0, [THINK_END, TOOL_CALLS_START]).stop != Some(THINK_END)
  {
    hide ReadUntilStop, Clean, CallsAfter;
    assert t[0..] == t;
    StopsDiffer();
    if m.calls != [] {
      CallsTextIs(m.calls);
      hide CallsText;
      ReadsToCalls(t, 0, m.content, CallsAfter(m.calls), Tail(eos));
    } else {
      NoCallsText();
      CleanIsFree(m.content);
      assert t == m.content + Tail(eos);
      TailHasNoStop(m.content, eos);
      ReadsNothing(t, 0, THINK_END, TOOL_CALLS_START);
    }
  }

  lemma TailHasNoStop(content: string, eos: bool)
    requires Absent(content, THINK_END) && Absent(content, TOOL_CALLS_START)
    ensures Absent(content + Tail(eos), THINK_END) && Absent(content + Tail(eos), TOOL_CALLS_START)
  {
    if eos {
      StopsAreApart();
      forall i: nat ensures !OccursAt(EOS, THINK_END, i) { NotIfDiffers(EOS, THINK_END, i, 1); }
      AbsentByFirst(EOS, TOOL_CALLS_START);
      AbsentAround(content, THINK_END, EOS);
      AbsentAround(content, TOOL_CALLS_START, EOS);
    } else {
      assert content + "" == content;
    }
  }

  lemma AbsentAround(c: string, p: string, s: string)
    requires Absent(c, p) && Apart(p, s) && Absent(s, p)
    ensures Absent(c + s, p)
  {
    forall i: nat ensures !OccursAt(c + s, p, i) {
      if i < |c| {
        NotBefore(c, p, s, "", i);
        assert c + s + "" == c + s;
      } else {
        OccursShifted(c, s, p, i - |c|);
      }
    }
  }

  /** Parsing gives back the content, the rendered reasoning and the calls in order with their
      arguments exactly when: thinking was rendered if it is expected, the end-of-sentence token
      was written or there are calls, and no key contains a quote-and-string marker. */
  lemma RoundTripExactly(m: Message, thinks: bool, thinking: bool, eos: bool)
    requires Renderable(m, thinks) && (thinks ==> thinking)
    ensures Parsed(Rendered(m, thinks, eos), thinking) == Ok(Message(m.content, Shown(m, thinks), m.calls))
       <==> (thinking ==> thinks) && (eos || m.calls != []) && ReadableCalls(m.calls)
  {
    hide Parsed, Rendered, PlainCalls, Clean, DistinctKeys, ReadableArgs, RereadCalls;
    ParsesRendered(m, thinks, thinking, eos);
    RereadCallsExactly(m.calls, []);
    assert [] + m.calls == m.calls;
  }
}
