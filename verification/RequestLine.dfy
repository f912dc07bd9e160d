/** The line that asks the sidecar to encode a chat: assembled from escaped strings and flattened
    JSON, framed by a single newline. */
module RequestLine {
  import opened Texts
  import opened Json
  import opened JsonText

  /** `messages` and `tools` are JSON texts taken over from the client, empty when absent. */
  datatype Request = Request(
    messages: string, tools: string, thinkingMode: string, reasoningEffort: string,
    addGenerationPrompt: bool, dropThinking: bool)

  const OPENING := "{\"op\":\"encode\""

  function Piece(key: string, text: string): string { ",\"" + key + "\":" + text }

  function InQuotes(s: string): string { "\"" + Escape(s) + "\"" }

  function BoolText(b: bool): string { if b then "true" else "false" }

  function LineOf(req: Request): string {
    OPENING
    + Piece("messages", if req.messages == "" then "[]" else Flat(OUTSIDE, req.messages))
    + Piece("thinking_mode", InQuotes(req.thinkingMode))
    + Piece("add_generation_prompt", BoolText(req.addGenerationPrompt))
    + Piece("drop_thinking", BoolText(req.dropThinking))
    + (if req.reasoningEffort == "" then "" else Piece("reasoning_effort", InQuotes(req.reasoningEffort)))
    + (if req.tools == "" then "" else Piece("tools", Flat(OUTSIDE, req.tools)))
    + "}\n"
  }

  method Assemble(req: Request) returns (line: string)
    ensures line == LineOf(req)
  {
    hide Flat, Escape, Piece;
    var messages, tools := "[]", "";
    if req.messages != "" { messages := Flatten(req.messages); }
    if req.tools != "" { tools := Flatten(req.tools); }
    FlatLength(OUTSIDE, req.tools);
    var mode := JsonEscape(req.thinkingMode);
    var effort := JsonEscape(req.reasoningEffort);
    line := OPENING;
    line := line + Piece("messages", messages);
    line := line + Piece("thinking_mode", "\"" + mode + "\"");
    line := line + Piece("add_generation_prompt", if req.addGenerationPrompt then "true" else "false");
    line := line + Piece("drop_thinking", if req.dropThinking then "true" else "false");
    if req.reasoningEffort != "" { line := line + Piece("reasoning_effort", "\"" + effort + "\""); }
    if tools != "" { line := line + Piece("tools", tools); }
    line := line + "}\n";
  }

  // ----- the request as a JSON value -----

  datatype Chat = Chat(
    messages: Option<Sent>, tools: Option<Sent>, mode: string, effort: string, gen: bool, drop: bool)
  {
    predicate Good() { (messages.Some? ==> messages.value.Good()) && (tools.Some? ==> tools.value.Good()) }

    function Messages(): Sent { if messages.Some? then messages.value else Sent("", DArr("", NoElems), "") }

    function AsRequest(): Request {
      Request(SentText(messages), SentText(tools), mode, effort, gen, drop)
    }
  }

  function SentText(s: Option<Sent>): string { if s.Some? then s.value.Text() else "" }

  function Plainly(s: string): Sent { Sent("", DStr(UnitsOf(s)), "") }

  function BoolDoc(b: bool): Sent { Sent("", if b then DTrue else DFalse, "") }

  function Field(key: string, v: Sent, rest: Members): Members {
    Member("", UnitsOf(key), "", v.before, v.doc, v.after, rest)
  }

  function Fields6(c: Chat): Members { if c.tools.Some? then Field("tools", c.tools.value, NoMembers) else NoMembers }

  function Fields5(c: Chat): Members {
    if c.effort != "" then Field("reasoning_effort", Plainly(c.effort), Fields6(c)) else Fields6(c)
  }

  function Fields(c: Chat): Members {
    Field("op", Plainly("encode"),
    Field("messages", c.Messages(),
    Field("thinking_mode", Plainly(c.mode),
    Field("add_generation_prompt", BoolDoc(c.gen),
    Field("drop_thinking", BoolDoc(c.drop),
    Fields5(c))))))
  }

  /** What the receiver should find in the line. */
  function Meaning(c: Chat): map<string, Value> {
    var always := map[
      "op" := Str("encode"),
      "messages" := Denote(c.Messages().doc),
      "thinking_mode" := Str(Readable(c.mode)),
      "add_generation_prompt" := Bool(c.gen),
      "drop_thinking" := Bool(c.drop)];
    var effort := if c.effort != "" then always["reasoning_effort" := Str(Readable(c.effort))] else always;
    if c.tools.Some? then effort["tools" := Denote(c.tools.value.doc)] else effort
  }

  predicate PlainKey(s: string) { forall i :: 0 <= i < |s| ==> s[i] >= ' ' && s[i] != '"' && s[i] != '\\' }

  lemma {:induction false} PlainKeyStays(s: string)
    requires PlainKey(s)
    ensures Escape(s) == s && Readable(s) == s
    decreases |s|
  {
    if s != "" {
      PlainKeyStays(s[1..]);
      assert s == [s[0]] + s[1..];
      assert UnitOf(s[0]) == Raw(s[0]) && !Lossy(s[0]);
      assert UnitsOf(s)[1..] == UnitsOf(s[1..]);
    }
  }

  function TailText(ms: Members): string { if ms.NoMembers? then "" else "," + MembersText(ms) }

  /** The flattened text of a field is the piece the assembler writes for it. */
  lemma FieldText(key: string, v: Sent, rest: Members)
    requires PlainKey(key)
    ensures TailText(FlatMembers(Field(key, v, rest)))
         == Piece(key, Spaces(v.before) + Text(FlatDoc(v.doc)) + Spaces(v.after)) + TailText(FlatMembers(rest))
  {
    hide Escape, Text, FlatDoc, UnitsText, UnitsOf, MembersText;
    PlainKeyStays(key);
    FieldUnfold(Spaces(v.before), UnitsOf(key), FlatDoc(v.doc), Spaces(v.after), FlatMembers(rest));
    QuotedIs(key);
  }

  lemma MemberStays(key: string, v: Sent, rest: Members)
    ensures FlatMembers(Field(key, v, rest)).Member?
  {
  }

  lemma FieldUnfold(pre: string, us: seq<Unit>, d: Doc, post: string, rest: Members)
    ensures MembersText(Member("", us, "", pre, d, post, rest))
         == Quoted(us) + ":" + (pre + Text(d) + post) + TailText(rest)
  {
    hide Quoted, Text;
    var q, t := Quoted(us), Text(d);
    assert "" + q + "" + ":" + pre + t + post == q + ":" + (pre + t + post);
  }

  lemma QuotedIs(s: string)
    ensures Quoted(UnitsOf(s)) == InQuotes(s)
  {
    hide UnitsOf, UnitsText;
  }

  // ----- the line is one JSON object -----

  function RequestDoc(c: Chat): Doc { DObj("", Fields(c)) }

  lemma MessagesText(c: Chat)
    requires c.Good()
    ensures c.Messages().Good()
    ensures Spaces(c.Messages().before) + Text(FlatDoc(c.Messages().doc)) + Spaces(c.Messages().after)
         == (if c.AsRequest().messages == "" then "[]" else Flat(OUTSIDE, c.AsRequest().messages))
  {
    if c.messages.Some? { SentFlat(c.messages.value); }
  }

  lemma SentFlat(s: Sent)
    requires s.Good()
    ensures s.Text() != "" && Flat(OUTSIDE, s.Text()) == Spaces(s.before) + Text(FlatDoc(s.doc)) + Spaces(s.after)
  {
    hide Parse, Flat, Text, FlatDoc, Denote, OneLine;
    FlattenKeepsMeaning(s);
    GoodIsLenient(s.doc);
    FirstOfText(s.doc);
  }

  lemma PlainlyText(s: string)
    ensures Plainly(s).Good()
    ensures Spaces("") + Text(FlatDoc(Plainly(s).doc)) + Spaces("") == InQuotes(s)
    ensures Denote(Plainly(s).doc) == Str(Readable(s))
  {
    hide UnitsOf, UnitsText;
    EscapedUnits(s);
    QuotedIs(s);
  }

  lemma BoolDocText(b: bool)
    ensures Spaces("") + Text(FlatDoc(BoolDoc(b).doc)) + Spaces("") == BoolText(b)
  {
  }

  lemma TailOf6(c: Chat)
    requires c.Good()
    ensures TailText(FlatMembers(Fields6(c)))
         == if c.AsRequest().tools == "" then "" else Piece("tools", Flat(OUTSIDE, c.AsRequest().tools))
  {
    hide Flat, Text, FlatDoc, Piece, UnitsOf, MembersText, PlainKey;
    KeysArePlain();
    if c.tools.Some? {
      SentFlat(c.tools.value);
      FieldText("tools", c.tools.value, NoMembers);
    }
  }

  lemma TailOf5(c: Chat)
    requires c.Good()
    ensures TailText(FlatMembers(Fields5(c)))
         == (if c.effort == "" then "" else Piece("reasoning_effort", InQuotes(c.effort)))
            + TailText(FlatMembers(Fields6(c)))
  {
    hide Flat, Text, FlatDoc, Piece, UnitsOf, MembersText, PlainKey, FlatMembers, TailText, InQuotes, Fields6;
    KeysArePlain();
    if c.effort != "" {
      PlainlyText(c.effort);
      FieldText("reasoning_effort", Plainly(c.effort), Fields6(c));
    }
  }

  lemma KeysArePlain()
    ensures PlainKey("op") && PlainKey("messages") && PlainKey("thinking_mode") && PlainKey("add_generation_prompt")
         && PlainKey("drop_thinking") && PlainKey("reasoning_effort") && PlainKey("tools")
  {
    LongKeysArePlain();
  }

  lemma LongKeysArePlain()
    ensures PlainKey("thinking_mode") && PlainKey("add_generation_prompt") && PlainKey("reasoning_effort")
  {
  }

  lemma Opening(ms: Members, tail: string)
    requires ms.Member? && TailText(ms) == Piece("op", InQuotes("encode")) + tail
    ensures Text(DObj("", ms)) == OPENING + tail + "}"
  {
    hide MembersText, Escape, InQuotes, PlainKey, Piece;
    OpPiece();
    Uncomma(MembersText(ms), "\"op\":\"encode\"", tail);
    Embrace("\"op\":\"encode\"", tail);
  }

  lemma OpPiece()
    ensures Piece("op", InQuotes("encode")) == "," + "\"op\":\"encode\""
  {
    hide Escape;
    PlainKeyStays("encode");
  }

  lemma Uncomma(members: string, op: string, tail: string)
    requires "," + members == ("," + op) + tail
    ensures members == op + tail
  {
    assert ("," + members)[1..] == members;
    assert (("," + op) + tail)[1..] == op + tail;
  }

  lemma Embrace(op: string, tail: string)
    ensures "{" + (op + tail) + "}" == ("{" + op) + tail + "}"
  {
    assert "{" + (op + tail) == ("{" + op) + tail;
  }

  lemma Regroup(h: string, a: string, b: string, c: string, d: string, e: string, f: string)
    ensures h + a + b + c + d + e + f + "}\n" == h + (a + (b + (c + (d + (e + f))))) + "}" + "\n"
  {
    var tail := a + (b + (c + (d + (e + f))));
    assert h + a + b + c + d + e + f == h + tail by {
      assert h + a + b + c + d + e + f == h + a + b + c + d + (e + f);
      assert h + a + b + c + d + (e + f) == h + a + b + c + (d + (e + f));
      assert h + a + b + c + (d + (e + f)) == h + a + b + (c + (d + (e + f)));
      assert h + a + b + (c + (d + (e + f))) == h + a + (b + (c + (d + (e + f))));
    }
    assert (h + tail) + "}\n" == (h + tail) + "}" + "\n";
  }

  /** The assembled line is the text of one flattened JSON object and a line break. */
  lemma LineIsText(c: Chat)
    requires c.Good()
    ensures LineOf(c.AsRequest()) == Text(FlatDoc(RequestDoc(c))) + "\n"
  {
    hide Flat, Piece, UnitsOf, MembersText, PlainKey, FlatMembers, TailText, InQuotes, Fields5, Fields6, Field,
         BoolText, Text, FlatDoc, Spaces;
    var req := c.AsRequest();
    var f5 := Fields5(c);
    var f4 := Field("drop_thinking", BoolDoc(c.drop), f5);
    var f3 := Field("add_generation_prompt", BoolDoc(c.gen), f4);
    var f2 := Field("thinking_mode", Plainly(c.mode), f3);
    var f1 := Field("messages", c.Messages(), f2);
    KeysArePlain();
    FieldText("messages", c.Messages(), f2);
    FieldText("op", Plainly("encode"), f1);
    PlainlyText("encode");
    MessagesText(c);
    MemberStays("op", Plainly("encode"), f1);
    Opening(FlatMembers(Fields(c)), TailText(FlatMembers(f1)));
    FlatRequest(Fields(c));
    MiddleTail(c, f2, f3, f4, f5);
    TailOf5(c);
    TailOf6(c);
    Regroup(
      OPENING,
      Piece("messages", if req.messages == "" then "[]" else Flat(OUTSIDE, req.messages)),
      Piece("thinking_mode", InQuotes(c.mode)),
      Piece("add_generation_prompt", BoolText(c.gen)),
      Piece("drop_thinking", BoolText(c.drop)),
      if c.effort == "" then "" else Piece("reasoning_effort", InQuotes(c.effort)),
      if req.tools == "" then "" else Piece("tools", Flat(OUTSIDE, req.tools)));
  }

  lemma FlatRequest(ms: Members)
    ensures FlatDoc(DObj("", ms)) == DObj("", FlatMembers(ms))
  {
  }

  lemma MiddleTail(c: Chat, f2: Members, f3: Members, f4: Members, f5: Members)
    requires f4 == Field("drop_thinking", BoolDoc(c.drop), f5)
    requires f3 == Field("add_generation_prompt", BoolDoc(c.gen), f4)
    requires f2 == Field("thinking_mode", Plainly(c.mode), f3)
    ensures TailText(FlatMembers(f2))
         == Piece("thinking_mode", InQuotes(c.mode))
            + (Piece("add_generation_prompt", BoolText(c.gen))
            + (Piece("drop_thinking", BoolText(c.drop)) + TailText(FlatMembers(f5))))
  {
    hide Flat, Piece, UnitsOf, MembersText, PlainKey, FlatMembers, TailText, InQuotes, Field, BoolText, Text, FlatDoc;
    KeysArePlain();
    PlainlyText(c.mode);
    BoolDocText(c.gen);
    BoolDocText(c.drop);
    FieldText("drop_thinking", BoolDoc(c.drop), f5);
    FieldText("add_generation_prompt", BoolDoc(c.gen), f4);
    FieldText("thinking_mode", Plainly(c.mode), f3);
  }

  lemma {:induction false} FieldMeaning(key: string, v: Sent, rest: Members, soFar: map<string, Value>)
    requires PlainKey(key) && key !in soFar
    ensures DenoteMembers(Field(key, v, rest), soFar) == DenoteMembers(rest, soFar[key := Denote(v.doc)])
  {
    hide UnitsOf, Readable, UnitsValue, Denote;
    PlainKeyStays(key);
    EscapedUnits(key);
  }

  lemma FieldsMean(c: Chat)
    ensures DenoteMembers(Fields(c), map[]) == Meaning(c)
  {
    hide PlainKey, DenoteMembers, Denote, Readable, UnitsOf, Field, Fields5;
    KeysArePlain();
    KeysDiffer();
    PlainlyText("encode");
    PlainKeyStays("encode");
    PlainlyText(c.mode);
    BoolDocMeans(c.gen);
    BoolDocMeans(c.drop);
    var f5 := Fields5(c);
    var f4 := Field("drop_thinking", BoolDoc(c.drop), f5);
    var f3 := Field("add_generation_prompt", BoolDoc(c.gen), f4);
    var f2 := Field("thinking_mode", Plainly(c.mode), f3);
    var f1 := Field("messages", c.Messages(), f2);
    var m1: map<string, Value> := map["op" := Str("encode")];
    var m2 := m1["messages" := Denote(c.Messages().doc)];
    var m3 := m2["thinking_mode" := Str(Readable(c.mode))];
    var m4 := m3["add_generation_prompt" := Bool(c.gen)];
    var m5 := m4["drop_thinking" := Bool(c.drop)];
    FieldMeaning("op", Plainly("encode"), f1, map[]);
    FieldMeaning("messages", c.Messages(), f2, m1);
    FieldMeaning("thinking_mode", Plainly(c.mode), f3, m2);
    FieldMeaning("add_generation_prompt", BoolDoc(c.gen), f4, m3);
    FieldMeaning("drop_thinking", BoolDoc(c.drop), f5, m4);
    LastFieldsMean(c, m5);
    assert DenoteMembers(f5, m5) == Meaning(c);
  }

  lemma BoolDocMeans(b: bool)
    ensures Denote(BoolDoc(b).doc) == Bool(b)
  {
  }

  lemma LastFieldsMean(c: Chat, m: map<string, Value>)
    requires "reasoning_effort" !in m && "tools" !in m
    ensures DenoteMembers(Fields5(c), m)
         == var n := if c.effort != "" then m["reasoning_effort" := Str(Readable(c.effort))] else m;
            if c.tools.Some? then n["tools" := Denote(c.tools.value.doc)] else n
  {
    hide PlainKey, Denote, Readable, UnitsOf, Field;
    KeysArePlain();
    KeysDiffer();
    PlainlyText(c.effort);
    var n := if c.effort != "" then m["reasoning_effort" := Str(Readable(c.effort))] else m;
    if c.effort != "" { FieldMeaning("reasoning_effort", Plainly(c.effort), Fields6(c), m); }
    if c.tools.Some? { FieldMeaning("tools", c.tools.value, NoMembers, n); }
  }

  lemma KeysDiffer()
    ensures |{"op", "messages", "thinking_mode", "add_generation_prompt", "drop_thinking",
              "reasoning_effort", "tools"}| == 7
  {
  }

  lemma FieldGood(key: string, v: Sent, rest: Members)
    requires v.Good() && GoodMembers(rest)
    ensures GoodMembers(Field(key, v, rest))
  {
    hide UnitsOf, GoodUnits;
    EscapedUnits(key);
  }

  lemma MessagesGood(c: Chat)
    requires c.Good()
    ensures c.Messages().Good()
  {
  }

  lemma PlainlyGood(s: string)
    ensures Plainly(s).Good()
  {
    hide UnitsOf, GoodUnits;
    EscapedUnits(s);
  }

  lemma BoolDocGood(b: bool)
    ensures BoolDoc(b).Good()
  {
  }

  lemma FieldsGood(c: Chat)
    requires c.Good()
    ensures Good(RequestDoc(c))
  {
    hide UnitsOf, GoodMembers, Field, Plainly, BoolDoc, Sent.Good;
    MessagesGood(c);
    PlainlyGood("encode");
    PlainlyGood(c.mode);
    PlainlyGood(c.effort);
    BoolDocGood(c.gen);
    BoolDocGood(c.drop);
    var f6 := Fields6(c);
    NoMembersGood();
    if c.tools.Some? { FieldGood("tools", c.tools.value, NoMembers); }
    var f5 := Fields5(c);
    if c.effort != "" { FieldGood("reasoning_effort", Plainly(c.effort), f6); }
    var f4 := Field("drop_thinking", BoolDoc(c.drop), f5);
    FieldGood("drop_thinking", BoolDoc(c.drop), f5);
    var f3 := Field("add_generation_prompt", BoolDoc(c.gen), f4);
    FieldGood("add_generation_prompt", BoolDoc(c.gen), f4);
    var f2 := Field("thinking_mode", Plainly(c.mode), f3);
    FieldGood("thinking_mode", Plainly(c.mode), f3);
    var f1 := Field("messages", c.Messages(), f2);
    FieldGood("messages", c.Messages(), f2);
    FieldGood("op", Plainly("encode"), f1);
  }

  lemma NoMembersGood()
    ensures GoodMembers(NoMembers)
  {
  }

  /** For every chat whose two arrays are RFC 8259 texts: the line has exactly one line break, its
      last byte, and reads back as one object with the chat's fields and no others. */
  lemma LineIsFramedObject(c: Chat)
    requires c.Good()
    ensures var line := LineOf(c.AsRequest());
            && line != "" && line[|line| - 1] == '\n' && OneLine(line[..|line| - 1])
            && Parse(line) == Some(Obj(Meaning(c)))
  {
    hide Text, FlatDoc, Parse, LineOf, Denote, Json.Good, Meaning, OneLine, Fields;
    var d := RequestDoc(c);
    var line := LineOf(c.AsRequest());
    LineIsText(c);
    FieldsGood(c);
    FlatDocSame(d);
    FlatOneLine(d);
    assert line[..|line| - 1] == Text(FlatDoc(d));
    EveryTextParses("", FlatDoc(d), "\n");
    assert "" + Text(FlatDoc(d)) + "\n" == line;
    RequestMeans(c);
  }

  lemma RequestMeans(c: Chat)
    ensures Denote(RequestDoc(c)) == Obj(Meaning(c))
  {
    hide Fields, Meaning;
    FieldsMean(c);
  }
}
