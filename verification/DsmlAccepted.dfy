/** Exactly which completions the DSML parser accepts, and as which message: a grammar of its own,
    into which every accepted text is cut, and whose every text is accepted. */
module DsmlAccepted {
  import opened Texts
  import opened Tokens
  import opened Dsml

  // ----- the grammar -----

  /** An argument as it may stand in a completion: one more line break may follow the `<`. */
  datatype ArgShape = ArgShape(arg: Arg, brk: bool)

  /** A call as it may stand in a completion: any space in front of the name, and one more line
      break behind it. */
  datatype CallShape = CallShape(pad: string, name: string, brk: bool, args: seq<ArgShape>)

  /** How the text behind the opening of the tool calls ends: with their closing token, right behind
      the token that closes a call (or the one that opens the block), or inside a call, behind a line
      that is complete. */
  datatype End = Complete | BehindCall | InCall

  function Extra(brk: bool): string { if brk then "\n" else "" }

  function ArgShapeText(a: ArgShape): string { Inner(a.arg) + Extra(a.brk) }

  function HeadText(c: CallShape): string { c.pad + "name=\"" + c.name + "\">\n" + Extra(c.brk) }

  ghost predicate GoodArg(a: ArgShape) { Readable(a.arg.key) && Absent(ArgShapeText(a), PARAMETER_END) }

  function ArgsOf(args: seq<ArgShape>): (r: seq<Arg>)
    ensures |r| == |args|
  {
    if args == [] then [] else [args[0].arg] + ArgsOf(args[1..])
  }

  ghost predicate GoodArgs(args: seq<ArgShape>) { forall i :: 0 <= i < |args| ==> GoodArg(args[i]) }

  ghost predicate GoodHead(c: CallShape) {
    && (forall i :: 0 <= i < |c.pad| ==> IsSpace(c.pad[i]))
    && Absent(HeadText(c), PARAMETER) && Absent(HeadText(c), INVOKE_END)
  }

  ghost predicate GoodCall(c: CallShape) { GoodHead(c) && GoodArgs(c.args) && DistinctKeys(ArgsOf(c.args)) }

  ghost predicate GoodCalls(cs: seq<CallShape>) { forall i :: 0 <= i < |cs| ==> GoodCall(cs[i]) }

  function CallsOf(cs: seq<CallShape>): seq<Call> {
    if cs == [] then [] else [Call(cs[0].name, ArgsOf(cs[0].args))] + CallsOf(cs[1..])
  }

  /** What opens the next part of a call: an argument, the end of the call, or nothing more. */
  function OpenerText(args: seq<ArgShape>, closed: bool): string {
    if args != [] then PARAMETER else if closed then INVOKE_END else ""
  }

  function OpenerStop(args: seq<ArgShape>, closed: bool): Option<string> {
    if args != [] then Some(PARAMETER) else if closed then Some(INVOKE_END) else None
  }

  /** The arguments behind the token that opens the first. */
  function Behind(args: seq<ArgShape>, closed: bool): string {
    if args == [] then ""
    else ArgShapeText(args[0]) + PARAMETER_END + BREAK + OpenerText(args[1..], closed) + Behind(args[1..], closed)
  }

  function OneCall(c: CallShape, closed: bool): string {
    BREAK + INVOKE + HeadText(c) + OpenerText(c.args, closed) + Behind(c.args, closed)
  }

  function BlockText(cs: seq<CallShape>, end: End): string {
    if cs == [] then if end.Complete? then BREAK + TOOL_CALLS_END else ""
    else OneCall(cs[0], |cs| > 1 || !end.InCall?) + BlockText(cs[1..], end)
  }

  // ----- what reading up to a stop means -----

  lemma FreePrefix(t: string, index: nat, at: nat, p: string)
    requires index <= at <= |t| && p != ""
    requires forall i :: index <= i < at ==> !OccursAt(t, p, i)
    ensures Absent(t[index..at], p)
  {
    var c := t[index..at];
    forall i | OccursAt(c, p, i) ensures false {
      SliceOfSlice(t, index, at, i, i + |p|);
      assert OccursAt(t, p, index + i);
    }
  }

  lemma CutInThree(t: string, i: nat, a: nat, b: nat)
    requires i <= a <= b <= |t|
    ensures t[i..] == t[i..a] + t[a..b] + t[b..]
  {
  }

  lemma ReadMeans(t: string, index: nat, a: string, b: string)
    requires index <= |t| && a != "" && b != ""
    ensures var r := ReadUntilStop(t, index, [a, b]);
            && r.index <= |t| && Absent(r.content, a) && Absent(r.content, b)
            && match r.stop
               case Some(s) => (s == a || s == b) && t[index..] == r.content + s + t[r.index..]
               case None => r.index == |t| && t[index..] == r.content
  {
    hide Find, Absent;
    NearestOfTwo(t, index, a, b);
    var n := NearestStop(t, index, [a, b]);
    FreePrefix(t, index, n.pos, a);
    FreePrefix(t, index, n.pos, b);
    assert t[index..|t|] == t[index..];
    if n.stop.Some? {
      CutInThree(t, index, n.pos, n.pos + |n.stop.value|);
    }
  }

  lemma ReadMeansOne(t: string, index: nat, a: string)
    requires index <= |t| && a != ""
    ensures var r := ReadUntilStop(t, index, [a]);
            && r.index <= |t| && Absent(r.content, a)
            && match r.stop
               case Some(s) => s == a && t[index..] == r.content + s + t[r.index..]
               case None => r.index == |t| && t[index..] == r.content
  {
    hide Find, Absent;
    assert [a][..0] == [];
    assert NearestStop(t, index, []) == Nearest(|t|, None);
    var n := NearestStop(t, index, [a]);
    FreePrefix(t, index, n.pos, a);
    assert t[index..|t|] == t[index..];
    if n.stop.Some? {
      CutInThree(t, index, n.pos, n.pos + |a|);
    }
  }

  /** Without a stop the rest of the text is read. */
  lemma ReadsAll(t: string, index: nat, a: string, b: string)
    requires index <= |t| && Absent(t[index..], a) && Absent(t[index..], b)
    ensures ReadUntilStop(t, index, [a, b]) == Read(|t|, t[index..], None)
  {
    ReadsNothing(t, index, a, b);
  }

  // ----- names -----

  lemma {:induction false} SpaceSkipped(s: string, i: nat, k: nat)
    requires i <= k <= |s| && (forall j :: i <= j < k ==> IsSpace(s[j])) && (k < |s| ==> !IsSpace(s[k]))
    ensures SkipSpace(s, i) == k
    decreases k - i
  {
    if i < k { SpaceSkipped(s, i + 1, k); }
  }

  lemma {:induction false} SkippedIsSpace(s: string, i: nat)
    requires i <= |s|
    ensures forall j :: i <= j < SkipSpace(s, i) ==> IsSpace(s[j])
    decreases |s| - i
  {
    if i < |s| && IsSpace(s[i]) { SkippedIsSpace(s, i + 1); }
  }

  lemma NameBetween(s: string, p: nat, at: nat)
    requires (forall i :: 0 <= i < p <= |s| ==> IsSpace(s[i])) && OccursAt(s, "name=\"", p)
    requires p + 6 <= at && OccursAt(s, "\">\n", at) && AtDollar(s, at + 3)
    ensures NameOf(s) == Some(s[p + 6..at])
  {
    assert s[p] == s[p..p + 6][0] && !IsSpace('n');
    hide IsSpace, SkipSpace, FindEnding;
    SpaceSkipped(s, 0, p);
    assert s[at] == s[at..at + 3][0] == '"';
    forall i | p + 6 <= i < at ensures !(OccursAt(s, "\">\n", i) && AtDollar(s, i + 3)) {
      if i == at - 1 { NotIfDiffers(s, "\">\n", i, 1); }
    }
    FindsOnlyEnding(s, "\">\n", p + 6, at);
  }

  lemma HeadReads(c: CallShape)
    requires forall i :: 0 <= i < |c.pad| ==> IsSpace(c.pad[i])
    ensures NameOf(HeadText(c)) == Some(c.name)
  {
    hide NameOf, IsSpace;
    var s := HeadText(c);
    var p := |c.pad|;
    var at := p + 6 + |c.name|;
    assert s[..p] == c.pad && s[p..p + 6] == "name=\"" && s[p + 6..at] == c.name && s[at..at + 3] == "\">\n";
    assert forall i :: 0 <= i < p ==> IsSpace(s[i]);
    NameBetween(s, p, at);
  }

  lemma CutInFive(s: string, a: nat, b: nat, c: nat, d: nat)
    requires a <= b <= c <= d <= |s|
    ensures s == s[..a] + s[a..b] + s[b..c] + s[c..d] + s[d..]
  {
  }

  lemma HeadIsShaped(s: string, args: seq<ArgShape>) returns (c: CallShape)
    requires NameOf(s).Some?
    ensures HeadText(c) == s && c.name == NameOf(s).value && c.args == args
    ensures forall i :: 0 <= i < |c.pad| ==> IsSpace(c.pad[i])
  {
    hide SkipSpace, FindEnding, IsSpace, AtDollar;
    var p := SkipSpace(s, 0);
    var q := FindEnding(s, "\">\n", p + 6);
    SkippedIsSpace(s, 0);
    Dollar(s, q + 3);
    CutInFive(s, p, p + 6, q, q + 3);
    c := CallShape(s[..p], s[p + 6..q], q + 3 < |s|, args);
  }

  lemma Dollar(s: string, i: nat)
    requires AtDollar(s, i)
    ensures i <= |s| && s[i..] == Extra(i < |s|)
  {
  }

  // ----- arguments -----

  lemma ShapeReads(a: ArgShape)
    requires Readable(a.arg.key)
    ensures ArgOf(ArgShapeText(a)) == Some(a.arg)
  {
    hide Marker, Inner;
    var x, s := Inner(a.arg), ArgShapeText(a);
    var m := 7 + |a.arg.key|;
    var v, e := m + |Marker(a.arg.isStr)|, |x| - 1;
    InnerShape(a.arg);
    MarkerLength();
    OccursWithin(x, Extra(a.brk), " name=\"", 0);
    OccursWithin(x, Extra(a.brk), Marker(a.arg.isStr), m);
    forall i | 7 <= i < m ensures !MarkerAt(s, i) {
      OccursWithin(x, Extra(a.brk), Marker(true), i);
      if i + 17 <= |x| { OccursWithin(x, Extra(a.brk), Marker(false), i); }
      if OccursAt(x, Marker(true), i) { MarkerInKey(a.arg, i, true); }
      if i + 17 <= |x| && OccursAt(x, Marker(false), i) { MarkerInKey(a.arg, i, false); }
    }
    ArgFromFirst(s, 7, 7, m, a.arg.isStr, e);
    assert s[7..m] == x[7..m] && s[v..e] == x[v..e];
  }

  /** A marker at i would not be taken: no value can follow it. */
  predicate NotTaken(s: string, i: nat, b: bool) {
    OccursAt(s, Marker(b), i) ==> FindEnding(s, "<", i + |Marker(b)|) == -1
  }

  /** The marker at m is followed by a value that ends at e. */
  predicate Taken(s: string, start: nat, m: nat, e: nat, a: Arg) {
    var v := m + |Marker(a.isStr)|;
    && start <= m && v <= e < |s| && OccursAt(s, Marker(a.isStr), m) && OccursAt(s, "<", e) && AtDollar(s, e + 1)
    && a == Arg(s[start..m], a.isStr, s[v..e])
  }

  lemma {:induction false} ArgFromMeans(s: string, start: nat, at: nat) returns (m: nat, e: nat)
    requires start <= at && ArgFrom(s, start, at).Some?
    ensures at <= m && Taken(s, start, m, e, ArgFrom(s, start, at).value)
    ensures forall i :: at <= i < m ==> NotTaken(s, i, true) && NotTaken(s, i, false)
    decreases |s| - at
  {
    hide Marker, FindEnding, OccursAt, AtDollar;
    if OccursAt(s, Marker(true), at) && FindEnding(s, "<", at + |Marker(true)|) != -1 {
      m, e := at, FindEnding(s, "<", at + |Marker(true)|);
      AngleInside(s, e);
    } else if OccursAt(s, Marker(false), at) && FindEnding(s, "<", at + |Marker(false)|) != -1 {
      m, e := at, FindEnding(s, "<", at + |Marker(false)|);
      AngleInside(s, e);
    } else {
      m, e := ArgFromMeans(s, start, at + 1);
    }
  }

  lemma AngleInside(s: string, e: int)
    requires OccursAt(s, "<", e)
    ensures 0 <= e < |s|
  {
  }

  lemma ArgIsShaped(s: string) returns (a: ArgShape)
    requires ArgOf(s).Some?
    ensures ArgShapeText(a) == s && a.arg == ArgOf(s).value && Readable(a.arg.key)
  {
    hide Marker, Readable, FindEnding, AtDollar, Inner;
    var m, e := ArgFromMeans(s, 7, 7);
    var arg := ArgOf(s).value;
    a := ArgShape(arg, e + 1 < |s|);
    Dollar(s, e + 1);
    TakenText(s, m, e, arg);
    KeyIsReadable(s, m, e, arg);
  }

  lemma KeyIsReadable(s: string, m: nat, e: nat, a: Arg)
    requires Taken(s, 7, m, e, a)
    requires forall i :: 7 <= i < m ==> NotTaken(s, i, true) && NotTaken(s, i, false)
    ensures Readable(a.key)
  {
    hide Marker, Find, FindEnding, AtDollar;
    MarkerLength();
    forall b, j: nat | j + |Marker(b)| <= |a.key| ensures !OccursAt(a.key, Marker(b), j) {
      SliceOfSlice(s, 7, m, j, j + |Marker(b)|);
      assert NotTaken(s, 7 + j, true) && NotTaken(s, 7 + j, false);
    }
  }

  lemma TakenText(s: string, m: nat, e: nat, a: Arg)
    requires Taken(s, 7, m, e, a) && OccursAt(s, " name=\"", 0)
    ensures s == Inner(a) + s[e + 1..]
  {
    hide Marker, AtDollar;
    var v := m + |Marker(a.isStr)|;
    CutInFive(s, 7, m, v, e);
    assert s[..7] == " name=\"" && s[e..] == "<" + s[e + 1..];
  }

  // ----- the arguments of a call -----

  /** No key comes twice, and none is among the earlier arguments'. */
  predicate NewKeys(soFar: seq<Arg>, args: seq<ArgShape>)
    decreases |args|
  {
    args == [] || (!HasKey(soFar, args[0].arg.key) && NewKeys(soFar + [args[0].arg], args[1..]))
  }

  lemma {:induction false} NewKeysAreDistinct(soFar: seq<Arg>, args: seq<ArgShape>)
    requires DistinctKeys(soFar)
    ensures NewKeys(soFar, args) <==> DistinctKeys(soFar + ArgsOf(args))
    decreases |args|
  {
    if args == [] {
      assert soFar + ArgsOf(args) == soFar;
    } else {
      var a, all := args[0].arg, soFar + ArgsOf(args);
      assert all == soFar + [a] + ArgsOf(args[1..]);
      if HasKey(soFar, a.key) {
        var i :| 0 <= i < |soFar| && soFar[i].key == a.key;
        assert all[i].key == all[|soFar|].key;
      } else {
        NewKeysAreDistinct(soFar + [a], args[1..]);
      }
    }
  }

  lemma BehindStep(args: seq<ArgShape>, closed: bool)
    requires args != []
    ensures Behind(args, closed)
         == ArgShapeText(args[0]) + PARAMETER_END + BREAK + OpenerText(args[1..], closed) + Behind(args[1..], closed)
  {
  }

  /** A break and what opens the next part, or the end of the text. */
  lemma ReadsOpener(t: string, index: nat, c: string, args: seq<ArgShape>, closed: bool, rest: string)
    requires index <= |t| && t[index..] == c + OpenerText(args, closed) + rest
    requires Absent(c, PARAMETER) && Absent(c, INVOKE_END) && (args == [] && !closed ==> rest == "")
    ensures var e := ReadUntilStop(t, index, [PARAMETER, INVOKE_END]);
            e.content == c && e.stop == OpenerStop(args, closed) && e.index <= |t| && t[e.index..] == rest
  {
    hide ReadUntilStop, Absent, Apart, Differ, INVOKE_END, PARAMETER;
    if args == [] && !closed {
      assert c + "" + "" == c;
      ReadsAll(t, index, PARAMETER, INVOKE_END);
    } else {
      var o := OpenerText(args, closed);
      ArgStopsAreApart(o);
      ReadsTo(t, index, PARAMETER, INVOKE_END, c, o, rest);
    }
  }

  /** One argument and what opens the next part. */
  lemma ReadsShape(t: string, index: nat, args: seq<ArgShape>, closed: bool, rest: string)
    requires args != [] && GoodArg(args[0]) && index <= |t| && t[index..] == Behind(args, closed) + rest
    requires !closed ==> rest == ""
    ensures var p := ReadUntilStop(t, index, [PARAMETER_END]);
            var e := ReadUntilStop(t, p.index, [PARAMETER, INVOKE_END]);
            && p.content == ArgShapeText(args[0]) && e.content == BREAK && e.stop == OpenerStop(args[1..], closed)
            && t[e.index..] == Behind(args[1..], closed) + rest
  {
    hide ReadUntilStop, Absent, Apart, Differ, ArgShapeText, PARAMETER_END, BREAK, OpenerText, Behind, Readable;
    var x, o, b := ArgShapeText(args[0]), OpenerText(args[1..], closed), Behind(args[1..], closed);
    BehindStep(args, closed);
    EndApart();
    assert t[index..] == x + PARAMETER_END + (BREAK + o + (b + rest));
    ReadsToOnly(t, index, PARAMETER_END, x, BREAK + o + (b + rest));
    BreakIsPlain();
    if args[1..] == [] { NothingBehind(closed); }
    ReadsOpener(t, index + |x| + |PARAMETER_END|, BREAK, args[1..], closed, b + rest);
  }

  lemma NothingBehind(closed: bool)
    ensures Behind([], closed) == ""
  {
  }

  lemma ArgsOfStep(soFar: seq<Arg>, args: seq<ArgShape>)
    requires args != []
    ensures soFar + [args[0].arg] + ArgsOf(args[1..]) == soFar + ArgsOf(args)
  {
  }

  lemma {:induction false} ParsesShapes(
      t: string, index: nat, args: seq<ArgShape>, closed: bool, soFar: seq<Arg>, rest: string)
    requires GoodArgs(args) && NewKeys(soFar, args) && (!closed ==> rest == "")
    requires index <= |t| && t[index..] == Behind(args, closed) + rest
    ensures |rest| <= |t|
    ensures ParseParams(t, index, OpenerStop(args, closed), soFar)
         == Dsml.Ok(Params(|t| - |rest|, OpenerStop([], closed), soFar + ArgsOf(args)))
    decreases |args|
  {
    hide ReadUntilStop, Behind, HasKey, ArgOf, ArgShapeText, OpenerText, Absent, Readable, PARAMETER, PARAMETER_END,
         INVOKE, INVOKE_END, TOOL_CALLS_END, BREAK;
    if args == [] {
      OpenersDiffer();
      NothingBehind(closed);
      assert "" + rest == rest && soFar + [] == soFar;
    } else {
      var a := args[0].arg;
      ReadsShape(t, index, args, closed, rest);
      var p := ReadUntilStop(t, index, [PARAMETER_END]);
      var e := ReadUntilStop(t, p.index, [PARAMETER, INVOKE_END]);
      assert Readable(a.key);
      ShapeReads(args[0]);
      ParsesShapes(t, e.index, args[1..], closed, soFar + [a], rest);
      assert ParseParams(t, index, Some(PARAMETER), soFar) == ParseParams(t, e.index, e.stop, soFar + [a]);
      ArgsOfStep(soFar, args);
    }
  }

  /** Whatever the parser takes for the arguments is of that shape. */
  lemma {:induction false} ParamsAreShaped(t: string, index: nat, stop: Option<string>, soFar: seq<Arg>)
    returns (args: seq<ArgShape>, closed: bool)
    requires index <= |t| && ParseParams(t, index, stop, soFar).Ok?
    requires stop in [Some(PARAMETER), Some(INVOKE_END), None] && (stop == None ==> index == |t|)
    ensures GoodArgs(args) && NewKeys(soFar, args) && stop == OpenerStop(args, closed)
    ensures var r := ParseParams(t, index, stop, soFar).value;
            && t[index..] == Behind(args, closed) + t[r.index..] && (!closed ==> r.index == |t|)
            && r.args == soFar + ArgsOf(args) && r.stop == OpenerStop([], closed)
    decreases |t| - index
  {
    hide ReadUntilStop, Behind, HasKey, ArgOf, ArgShapeText, OpenerText, Opened, Absent, Readable,
         PARAMETER, PARAMETER_END, INVOKE, INVOKE_END, TOOL_CALLS_END, BREAK;
    OpenersDiffer();
    if stop != Some(PARAMETER) {
      args, closed := [], stop.Some?;
      NothingBehind(closed);
      assert soFar + ArgsOf(args) == soFar && "" + t[index..] == t[index..];
    } else {
      var p := ReadUntilStop(t, index, [PARAMETER_END]);
      var e := ReadUntilStop(t, p.index, [PARAMETER, INVOKE_END]);
      FirstArgRead(t, index, soFar);
      var a := ArgIsShaped(p.content);
      var rest: seq<ArgShape>;
      rest, closed := ParamsAreShaped(t, e.index, e.stop, soFar + [a.arg]);
      args := [a] + rest;
      assert args[1..] == rest;
      assert GoodArg(a);
      ArgsOfStep(soFar, args);
      BehindStep(args, closed);
      var end := ParseParams(t, index, stop, soFar).value.index;
      BehindJoined(t, index, p.index, e, ArgShapeText(a), rest, closed, t[end..]);
    }
  }

  /** What it takes to read one argument. */
  lemma FirstArgRead(t: string, index: nat, soFar: seq<Arg>)
    requires index <= |t| && ParseParams(t, index, Some(PARAMETER), soFar).Ok?
    ensures var p := ReadUntilStop(t, index, [PARAMETER_END]);
            var e := ReadUntilStop(t, p.index, [PARAMETER, INVOKE_END]);
            && ArgOf(p.content).Some? && !HasKey(soFar, ArgOf(p.content).value.key)
            && ParseParams(t, index, Some(PARAMETER), soFar)
               == ParseParams(t, e.index, e.stop, soFar + [ArgOf(p.content).value])
            && index < p.index < e.index <= |t| && Absent(p.content, PARAMETER_END)
            && t[index..] == p.content + PARAMETER_END + t[p.index..] && Opened(t, p.index, e)
            && e.stop in [Some(PARAMETER), Some(INVOKE_END), None] && (e.stop == None ==> e.index == |t|)
  {
    hide ReadUntilStop, HasKey, ArgOf, Absent, PARAMETER_END, PARAMETER, INVOKE_END;
    var p := ReadUntilStop(t, index, [PARAMETER_END]);
    var e := ReadUntilStop(t, p.index, [PARAMETER, INVOKE_END]);
    EndApart();
    TokensStand();
    ReadMeansOne(t, index, PARAMETER_END);
    ReadMeans(t, p.index, PARAMETER, INVOKE_END);
  }

  lemma TokensStand()
    ensures PARAMETER != "" && INVOKE_END != "" && INVOKE != "" && TOOL_CALLS_END != "" && PARAMETER_END != ""
    ensures EOS != "" && THINK_END != "" && TOOL_CALLS_START != ""
  {
  }

  /** A complete line, and the opening of the next part if there is one. */
  ghost predicate Opened(t: string, index: nat, e: Read)
    requires index <= |t| && e.index <= |t|
  {
    t[index..] == BREAK + (if e.stop.Some? then e.stop.value else "") + t[e.index..]
  }

  lemma BehindJoined(
      t: string, index: nat, next: nat, e: Read, x: string, args: seq<ArgShape>, closed: bool, rest: string)
    requires index <= next <= e.index <= |t| && t[index..] == x + PARAMETER_END + t[next..] && Opened(t, next, e)
    requires e.stop == OpenerStop(args, closed) && t[e.index..] == Behind(args, closed) + rest
    ensures t[index..] == x + PARAMETER_END + BREAK + OpenerText(args, closed) + Behind(args, closed) + rest
  {
    OpenedText(t, next, e, args, closed);
    hide *;
    SixPieces(x, PARAMETER_END, BREAK, OpenerText(args, closed), Behind(args, closed), rest);
  }

  lemma OpenedText(t: string, next: nat, e: Read, args: seq<ArgShape>, closed: bool)
    requires next <= |t| && e.index <= |t| && Opened(t, next, e) && e.stop == OpenerStop(args, closed)
    ensures t[next..] == BREAK + OpenerText(args, closed) + t[e.index..]
  {
    hide PARAMETER, INVOKE_END, BREAK;
  }

  lemma SixPieces(a: string, b: string, c: string, d: string, e: string, f: string)
    ensures a + b + c + d + e + f == a + b + (c + d + (e + f))
  {
    assert a + b + c + d + e + f == a + b + c + d + (e + f);
    assert a + b + c + d + (e + f) == a + b + (c + d + (e + f));
  }

  // ----- the calls of a block -----

  lemma CallsOfStep(soFar: seq<Call>, cs: seq<CallShape>)
    requires cs != []
    ensures soFar + [Call(cs[0].name, ArgsOf(cs[0].args))] + CallsOf(cs[1..]) == soFar + CallsOf(cs)
  {
  }

  lemma OneCallText(c: CallShape, closed: bool, rest: string)
    ensures OneCall(c, closed) + rest
         == BREAK + INVOKE + (HeadText(c) + OpenerText(c.args, closed) + (Behind(c.args, closed) + rest))
  {
    hide BREAK, INVOKE, HeadText, OpenerText, Behind;
    Regroup7(BREAK, INVOKE, HeadText(c), OpenerText(c.args, closed), Behind(c.args, closed), rest, "");
    assert rest + "" == rest;
    assert OneCall(c, closed) + rest + "" == OneCall(c, closed) + rest;
  }

  /** One step of the loop over the calls. */
  lemma CallUnfolds(
      t: string, index: nat, stop: Option<string>, soFar: seq<Call>, b: Read, n: Read, name: string, ps: Params)
    requires index < |t| && b == ReadUntilStop(t, index, [INVOKE, TOOL_CALLS_END])
    requires b.content == BREAK && b.stop == Some(INVOKE)
    requires n == ReadUntilStop(t, b.index, [PARAMETER, INVOKE_END]) && NameOf(n.content) == Some(name)
    requires ParseParams(t, n.index, n.stop, []) == Dsml.Ok(ps)
    ensures ParseCalls(t, index, stop, soFar) == ParseCalls(t, ps.index, ps.stop, soFar + [Call(name, ps.args)])
  {
    EndsDiffer();
    hide ReadUntilStop, ParseParams, NameOf, INVOKE, TOOL_CALLS_END, PARAMETER, INVOKE_END, BREAK;
  }

  lemma GoodCallMeans(c: CallShape)
    requires GoodCall(c)
    ensures GoodHead(c) && GoodArgs(c.args) && NewKeys([], c.args)
    ensures forall i :: 0 <= i < |c.pad| ==> IsSpace(c.pad[i])
    ensures Absent(HeadText(c), PARAMETER) && Absent(HeadText(c), INVOKE_END)
  {
    hide NewKeys, Absent, HeadText, IsSpace;
    assert [] + ArgsOf(c.args) == ArgsOf(c.args);
    NewKeysAreDistinct([], c.args);
  }

  /** One call, from the line break in front of it to its end. */
  lemma ParsesOneCall(
      t: string, index: nat, stop: Option<string>, c: CallShape, closed: bool, soFar: seq<Call>, rest: string)
    requires GoodCall(c) && index <= |t| && t[index..] == OneCall(c, closed) + rest && (!closed ==> rest == "")
    ensures |rest| <= |t| && t[|t| - |rest|..] == rest
    ensures ParseCalls(t, index, stop, soFar)
         == ParseCalls(t, |t| - |rest|, OpenerStop([], closed), soFar + [Call(c.name, ArgsOf(c.args))])
  {
    hide *;
    var tail := Behind(c.args, closed) + rest;
    GoodCallMeans(c);
    OneCallText(c, closed, rest);
    TokensStand();
    ReadsInvoke(t, index, HeadText(c) + OpenerText(c.args, closed) + tail);
    var b := ReadUntilStop(t, index, [INVOKE, TOOL_CALLS_END]);
    NothingBehind(closed);
    ReadsOpener(t, b.index, HeadText(c), c.args, closed, tail);
    HeadReads(c);
    var n := ReadUntilStop(t, b.index, [PARAMETER, INVOKE_END]);
    ParsesShapes(t, n.index, c.args, closed, [], rest);
    SuffixOf(t, n.index, Behind(c.args, closed), rest);
    CallUnfolds(t, index, stop, soFar, b, n, c.name,
      Params(|t| - |rest|, OpenerStop([], closed), [] + ArgsOf(c.args)));
    assert [] + ArgsOf(c.args) == ArgsOf(c.args);
  }

  lemma BlockUnfolds(cs: seq<CallShape>, end: End)
    requires cs != []
    ensures BlockText(cs, end) == OneCall(cs[0], |cs| > 1 || !end.InCall?) + BlockText(cs[1..], end)
  {
    hide OneCall, BREAK, TOOL_CALLS_END;
  }

  lemma BlockStep(cs: seq<CallShape>, end: End, rest: string)
    requires cs != []
    ensures BlockText(cs, end) + rest
         == OneCall(cs[0], |cs| > 1 || !end.InCall?) + (BlockText(cs[1..], end) + rest)
  {
    hide *;
    BlockUnfolds(cs, end);
    Regroup3(OneCall(cs[0], |cs| > 1 || !end.InCall?), BlockText(cs[1..], end), rest);
  }

  lemma Regroup3(a: string, b: string, c: string)
    ensures a + b + c == a + (b + c)
  {
  }

  lemma EmptyBlock(end: End)
    ensures BlockText([], end) == if end.Complete? then BREAK + TOOL_CALLS_END else ""
  {
  }

  lemma ReadsBlockEnd(t: string, index: nat, rest: string)
    requires index <= |t| && t[index..] == BREAK + TOOL_CALLS_END + rest
    ensures var b := ReadUntilStop(t, index, [INVOKE, TOOL_CALLS_END]);
            && b.content == BREAK && b.stop == Some(TOOL_CALLS_END) && t[b.index..] == rest && index < |t|
  {
    NoCallsAfter();
    ReadsCallsEnd(t, index, rest);
  }

  lemma NoCallsAfter()
    ensures CallsAfter([]) == BREAK + TOOL_CALLS_END
  {
  }

  lemma {:induction false} ParsesBlock(
      t: string, index: nat, stop: Option<string>, cs: seq<CallShape>, end: End, soFar: seq<Call>, rest: string)
    requires GoodCalls(cs) && (!end.Complete? ==> rest == "")
    requires index <= |t| && t[index..] == BlockText(cs, end) + rest
    ensures |rest| <= |t| && ParseCalls(t, index, stop, soFar).Ok?
    ensures var r := ParseCalls(t, index, stop, soFar).value;
            r.index == |t| - |rest| && r.calls == soFar + CallsOf(cs)
    decreases |cs|
  {
    hide ReadUntilStop, ParseParams, NameOf, BlockText, OneCall, OpenerText, OpenerStop, ArgsOf, GoodCall, BREAK,
         INVOKE, TOOL_CALLS_END;
    if cs == [] {
      EmptyBlock(end);
      assert soFar + CallsOf(cs) == soFar;
      if end.Complete? { ReadsBlockEnd(t, index, rest); } else { assert "" + rest == ""; }
    } else {
      var closed := |cs| > 1 || !end.InCall?;
      var tail := BlockText(cs[1..], end) + rest;
      BlockStep(cs, end, rest);
      if !closed { EmptyBlock(end); }
      ParsesOneCall(t, index, stop, cs[0], closed, soFar, tail);
      ParsesBlock(t, |t| - |tail|, OpenerStop([], closed), cs[1..], end,
        soFar + [Call(cs[0].name, ArgsOf(cs[0].args))], rest);
      CallsOfStep(soFar, cs);
    }
  }

  /** What it takes to read one call. */
  lemma CallIsRead(t: string, index: nat, stop: Option<string>, soFar: seq<Call>)
    requires index < |t| && ParseCalls(t, index, stop, soFar).Ok?
    requires ReadUntilStop(t, index, [INVOKE, TOOL_CALLS_END]).stop == Some(INVOKE)
    ensures var b := ReadUntilStop(t, index, [INVOKE, TOOL_CALLS_END]);
            var n := ReadUntilStop(t, b.index, [PARAMETER, INVOKE_END]);
            var ps := ParseParams(t, n.index, n.stop, []);
            && b.content == BREAK && NameOf(n.content).Some? && ps.Ok?
            && ParseCalls(t, index, stop, soFar)
               == ParseCalls(t, ps.value.index, ps.value.stop, soFar + [Call(NameOf(n.content).value, ps.value.args)])
  {
    EndsDiffer();
    hide ReadUntilStop, ParseParams, NameOf, INVOKE, TOOL_CALLS_END, PARAMETER, INVOKE_END, BREAK;
  }

  /** The head of one call, its arguments, and where reading goes on. */
  lemma FirstCallRead(t: string, index: nat, stop: Option<string>, soFar: seq<Call>)
    returns (c: CallShape, closed: bool, next: nat)
    requires index < |t| && ParseCalls(t, index, stop, soFar).Ok?
    requires ReadUntilStop(t, index, [INVOKE, TOOL_CALLS_END]).stop == Some(INVOKE)
    ensures GoodCall(c) && index < next <= |t| && (!closed ==> next == |t|)
    ensures t[index..] == OneCall(c, closed) + t[next..]
    ensures ParseCalls(t, index, stop, soFar)
         == ParseCalls(t, next, OpenerStop([], closed), soFar + [Call(c.name, ArgsOf(c.args))])
  {
    CallIsRead(t, index, stop, soFar);
    assert DistinctKeys([]);
    hide ReadUntilStop, ParseCalls, ParseParams, NameOf, HeadText, GoodArgs, GoodArg, DistinctKeys, NewKeys, ArgsOf,
         OneCall, Behind, Absent, IsSpace, Inner, PARAMETER, PARAMETER_END, INVOKE, INVOKE_END, TOOL_CALLS_END, BREAK;
    TokensStand();
    ReadMeans(t, index, INVOKE, TOOL_CALLS_END);
    var b := ReadUntilStop(t, index, [INVOKE, TOOL_CALLS_END]);
    ReadMeans(t, b.index, PARAMETER, INVOKE_END);
    var n := ReadUntilStop(t, b.index, [PARAMETER, INVOKE_END]);
    var args;
    args, closed := ParamsAreShaped(t, n.index, n.stop, []);
    next := ParseParams(t, n.index, n.stop, []).value.index;
    c := HeadIsShaped(n.content, args);
    assert [] + ArgsOf(args) == ArgsOf(args);
    NewKeysAreDistinct([], args);
    OneCallText(c, closed, t[next..]);
    assert t[b.index..] == HeadText(c) + OpenerText(args, closed) + t[n.index..];
  }

  lemma {:induction false} BlockIsShaped(t: string, index: nat, stop: Option<string>, soFar: seq<Call>)
    returns (cs: seq<CallShape>, end: End)
    requires index <= |t| && ParseCalls(t, index, stop, soFar).Ok?
    ensures GoodCalls(cs) && (index == |t| ==> cs == []) && (cs == [] ==> !end.InCall?)
    ensures var r := ParseCalls(t, index, stop, soFar).value;
            && t[index..] == BlockText(cs, end) + t[r.index..] && (!end.Complete? ==> r.index == |t|)
            && r.calls == soFar + CallsOf(cs)
    decreases |t| - index
  {
    hide ReadUntilStop, ParseParams, NameOf, BlockText, OneCall, OpenerStop, ArgsOf, GoodCall, Absent, BREAK, INVOKE,
         TOOL_CALLS_END;
    TokensStand();
    ReadMeans(t, index, INVOKE, TOOL_CALLS_END);
    var b := ReadUntilStop(t, index, [INVOKE, TOOL_CALLS_END]);
    if index == |t| || b.stop != Some(INVOKE) {
      cs, end := [], if index == |t| then BehindCall else Complete;
      EmptyBlock(end);
      assert soFar + CallsOf(cs) == soFar;
      if index == |t| { assert t[index..] == ""; }
    } else {
      var c, closed, next := FirstCallRead(t, index, stop, soFar);
      var rest;
      rest, end := BlockIsShaped(t, next, OpenerStop([], closed), soFar + [Call(c.name, ArgsOf(c.args))]);
      if !closed { end := InCall; }
      cs := [c] + rest;
      assert cs[1..] == rest;
      EmptyBlock(end);
      BlockStep(cs, end, t[ParseCalls(t, index, stop, soFar).value.index..]);
      CallsOfStep(soFar, cs);
    }
  }

  // ----- the whole completion -----

  /** What may follow the content: the end-of-sentence token, or tool calls, with that token behind
      them only if their block is complete. */
  datatype Rest = NoCalls | WithCalls(calls: seq<CallShape>, end: End, eos: bool)

  ghost predicate GoodRest(r: Rest) {
    r.WithCalls? ==> GoodCalls(r.calls) && (r.eos ==> r.end.Complete?)
  }

  function RestText(r: Rest): string {
    match r
    case NoCalls => EOS
    case WithCalls(cs, end, eos) => TOOL_CALLS_START + (BlockText(cs, end) + Tail(eos))
  }

  function RestCalls(r: Rest): seq<Call> {
    match r
    case NoCalls => []
    case WithCalls(cs, _, _) => CallsOf(cs)
  }

  /** t is the text of the message m, with the reasoning in front if the model was to think. */
  ghost predicate SpelledAs(t: string, thinking: bool, m: Message, r: Rest) {
    && Clean(m.content) && Clean(m.reasoning) && (!thinking ==> m.reasoning == "")
    && GoodRest(r) && m.calls == RestCalls(r)
    && t == (if thinking then m.reasoning + THINK_END else "") + m.content + RestText(r)
  }

  lemma ReadsToRest(t: string, index: nat, content: string, rest: string)
    requires Clean(content) && index <= |t| && t[index..] == content + TOOL_CALLS_START + rest
    ensures ReadUntilStop(t, index, [EOS, TOOL_CALLS_START])
         == Read(index + |content| + |TOOL_CALLS_START|, content, Some(TOOL_CALLS_START))
    ensures index + |content| + |TOOL_CALLS_START| <= |t| && t[index + |content| + |TOOL_CALLS_START|..] == rest
  {
    hide ReadUntilStop, Clean, Absent, Apart, Differ, TOOL_CALLS_START, EOS;
    CleanIsFree(content);
    StopsAreApart();
    StopsDiffer();
    TokensStand();
    ReadsTo(t, index, EOS, TOOL_CALLS_START, content, TOOL_CALLS_START, rest);
  }

  /** What is checked behind the content when tool calls follow it. */
  lemma CallsUnfold(t: string, index: nat, reasoning: string)
    requires index <= |t| && ReadUntilStop(t, index, [EOS, TOOL_CALLS_START]).stop == Some(TOOL_CALLS_START)
    ensures var c := ReadUntilStop(t, index, [EOS, TOOL_CALLS_START]);
            var cs := ParseCalls(t, c.index, None, []);
            && (ParsedFrom(t, index, reasoning).Ok? ==> cs.Ok?)
            && (cs.Ok? ==>
                  var e := ReadUntilStop(t, cs.value.index, [EOS]);
                  var m := Message(c.content, reasoning, cs.value.calls);
                  ParsedFrom(t, index, reasoning)
                  == if e.content == "" && e.index == |t| && (e.stop == Some(EOS) || e.stop == None) && Clean(c.content)
                        && Clean(reasoning) then Dsml.Ok(m) else Err(AssertionFailed))
  {
    hide ReadUntilStop, ParseCalls, Clean, EOS, TOOL_CALLS_START;
  }

  lemma CallsStand(t: string, index: nat, content: string, r: Rest)
    requires Clean(content) && r.WithCalls? && index <= |t| && t[index..] == content + RestText(r)
    ensures var c := ReadUntilStop(t, index, [EOS, TOOL_CALLS_START]);
            && c.content == content && c.stop == Some(TOOL_CALLS_START)
            && t[c.index..] == BlockText(r.calls, r.end) + Tail(r.eos)
  {
    hide *;
    TailOfCalls(content, r);
    ReadsToRest(t, index, content, BlockText(r.calls, r.end) + Tail(r.eos));
  }

  /** A block of calls and the end of the text. */
  lemma ReadsBlock(t: string, at: nat, r: Rest)
    requires GoodRest(r) && r.WithCalls? && at <= |t| && t[at..] == BlockText(r.calls, r.end) + Tail(r.eos)
    ensures var cs := ParseCalls(t, at, None, []);
            && cs.Ok? && cs.value.calls == RestCalls(r)
            && ReadUntilStop(t, cs.value.index, [EOS]) == Read(|t|, "", if r.eos then Some(EOS) else None)
  {
    hide ReadUntilStop, ParseCalls, BlockText, CallsOf, GoodCalls, EOS;
    ParsesBlock(t, at, None, r.calls, r.end, [], Tail(r.eos));
    SuffixOf(t, at, BlockText(r.calls, r.end), Tail(r.eos));
    ReadsTail(t, |t| - |Tail(r.eos)|, r.eos);
    assert [] + CallsOf(r.calls) == CallsOf(r.calls);
  }

  /** Content and what follows it. */
  lemma ParsesRest(t: string, index: nat, m: Message, r: Rest)
    requires Clean(m.content) && Clean(m.reasoning) && GoodRest(r) && m.calls == RestCalls(r)
    requires index <= |t| && t[index..] == m.content + RestText(r)
    ensures ParsedFrom(t, index, m.reasoning) == Dsml.Ok(m)
  {
    if r.NoCalls? {
      ParsesContentOnly(t, index, m.reasoning, m.content, true);
    } else {
      CallsStand(t, index, m.content, r);
      ReadsBlock(t, ReadUntilStop(t, index, [EOS, TOOL_CALLS_START]).index, r);
      CallsUnfold(t, index, m.reasoning);
    }
    hide ParsedFrom, ReadUntilStop, ParseCalls, Clean, GoodCalls, BlockText, CallsOf, EOS, TOOL_CALLS_START;
  }

  lemma TailOfCalls(content: string, r: Rest)
    requires r.WithCalls?
    ensures content + RestText(r) == content + TOOL_CALLS_START + (BlockText(r.calls, r.end) + Tail(r.eos))
    ensures RestCalls(r) == CallsOf(r.calls) && (GoodRest(r) ==> GoodCalls(r.calls))
  {
    hide BlockText, CallsOf, TOOL_CALLS_START, Tail, GoodCalls;
  }

  lemma RestIsShaped(t: string, index: nat, reasoning: string) returns (r: Rest)
    requires index <= |t| && ParsedFrom(t, index, reasoning).Ok?
    ensures var m := ParsedFrom(t, index, reasoning).value;
            && Clean(m.content) && Clean(reasoning) && m.reasoning == reasoning && GoodRest(r)
            && m.calls == RestCalls(r) && t[index..] == m.content + RestText(r)
  {
    var c := ReadUntilStop(t, index, [EOS, TOOL_CALLS_START]);
    TokensStand();
    StopsDiffer();
    ReadMeans(t, index, EOS, TOOL_CALLS_START);
    if c.stop == Some(TOOL_CALLS_START) {
      r := CallsAreShaped(t, index, reasoning);
    } else {
      hide ReadUntilStop, Clean, Absent, TOOL_CALLS_START, EOS;
      r := NoCalls;
      assert t[c.index..] == "" && c.content + EOS + "" == c.content + EOS;
    }
  }

  lemma CallsAreShaped(t: string, index: nat, reasoning: string) returns (r: Rest)
    requires index <= |t| && ParsedFrom(t, index, reasoning).Ok?
    requires ReadUntilStop(t, index, [EOS, TOOL_CALLS_START]).stop == Some(TOOL_CALLS_START)
    ensures var m := ParsedFrom(t, index, reasoning).value;
            && Clean(m.content) && Clean(reasoning) && m.reasoning == reasoning && GoodRest(r)
            && m.calls == RestCalls(r) && t[index..] == m.content + RestText(r)
  {
    hide ReadUntilStop, ParsedFrom, ParseCalls, BlockText, CallsOf, RestText, RestCalls, GoodCalls, Clean, Absent,
         TOOL_CALLS_START, EOS;
    var c := ReadUntilStop(t, index, [EOS, TOOL_CALLS_START]);
    TokensStand();
    ReadMeans(t, index, EOS, TOOL_CALLS_START);
    CallsUnfold(t, index, reasoning);
    var cs, end := BlockIsShaped(t, c.index, None, []);
    var at := ParseCalls(t, c.index, None, []).value.index;
    var e := ReadUntilStop(t, at, [EOS]);
    ReadMeansOne(t, at, EOS);
    r := WithCalls(cs, end, e.stop.Some?);
    assert [] + CallsOf(cs) == CallsOf(cs);
    if e.stop.Some? { assert t[at..] == "" + EOS + "" == EOS; }
    assert t[at..] == Tail(r.eos);
    TailOfCalls(c.content, r);
  }

  /** The parser accepts exactly these completions. The block of calls need not be complete: the text
      may stop behind the token that opens the block or closes a call, or inside a call behind a
      complete line, and the call then counts with the arguments read so far. A completion that is
      cut anywhere else, has a malformed line, a key twice, or anything behind its end, is rejected. */
  lemma ParsedExactly(t: string, thinking: bool, m: Message)
    ensures Parsed(t, thinking) == Dsml.Ok(m) <==> exists r :: SpelledAs(t, thinking, m, r)
  {
    hide *;
    if Parsed(t, thinking) == Dsml.Ok(m) {
      var r := ParsedIsSpelled(t, thinking);
    }
    forall r | SpelledAs(t, thinking, m, r) ensures Parsed(t, thinking) == Dsml.Ok(m) {
      SpelledIsParsed(t, thinking, m, r);
    }
  }

  lemma ParsedIsSpelled(t: string, thinking: bool) returns (r: Rest)
    requires Parsed(t, thinking).Ok?
    ensures SpelledAs(t, thinking, Parsed(t, thinking).value, r)
  {
    hide ReadUntilStop, ParsedFrom, RestText, RestCalls, GoodRest, Clean, Absent, THINK_END, TOOL_CALLS_START;
    if thinking {
      TokensStand();
      ReadMeans(t, 0, THINK_END, TOOL_CALLS_START);
      var d := ReadUntilStop(t, 0, [THINK_END, TOOL_CALLS_START]);
      assert t[0..] == t;
      r := RestIsShaped(t, d.index, d.content);
      var m := ParsedFrom(t, d.index, d.content).value;
      assert t == m.reasoning + THINK_END + m.content + RestText(r);
    } else {
      r := RestIsShaped(t, 0, "");
      assert t[0..] == t && "" + ParsedFrom(t, 0, "").value.content == ParsedFrom(t, 0, "").value.content;
    }
  }

  lemma SpelledIsParsed(t: string, thinking: bool, m: Message, r: Rest)
    requires SpelledAs(t, thinking, m, r)
    ensures Parsed(t, thinking) == Dsml.Ok(m)
  {
    hide ReadUntilStop, ParsedFrom, RestText, RestCalls, GoodRest, Clean, Absent, THINK_END, TOOL_CALLS_START;
    if thinking {
      assert t == m.reasoning + THINK_END + (m.content + RestText(r));
      ReadsReasoning(t, m.reasoning, m.content + RestText(r));
      ParsesRest(t, |m.reasoning| + |THINK_END|, m, r);
    } else {
      assert t[0..] == t && "" + m.content == m.content;
      ParsesRest(t, 0, m, r);
    }
  }

  // ----- a completion that is cut off -----

  function Shapes(args: seq<Arg>): (r: seq<ArgShape>)
  {
    if args == [] then [] else [ArgShape(args[0], false)] + Shapes(args[1..])
  }

  lemma {:induction false} ShapesAreGood(args: seq<Arg>)
    requires PlainArgs(args) && ReadableArgs(args)
    ensures ArgsOf(Shapes(args)) == args && GoodArgs(Shapes(args))
    decreases |args|
  {
    hide Plain, Readable, Absent, Inner;
    if args != [] {
      var all := Shapes(args);
      ShapesAreGood(args[1..]);
      InnerIsPlain(args[0]);
      assert Inner(args[0]) + "" == Inner(args[0]);
      assert GoodArg(all[0]);
      assert all[1..] == Shapes(args[1..]);
      ArgsOfStep([], all);
      assert args == [args[0]] + args[1..];
    }
  }

  /** Complete lines of arguments are what a rendered call begins with. */
  lemma {:induction false} LinesAreRendered(args: seq<Arg>, k: nat)
    requires k <= |args|
    ensures OpenerText(Shapes(args[..k]), false) + Behind(Shapes(args[..k]), false) <= Opener(args) + ArgsAfter(args)
    decreases k
  {
    hide Behind, ArgsAfter, Inner, PARAMETER, PARAMETER_END, BREAK;
    var cut := args[..k];
    if k == 0 {
      NothingBehind(false);
    } else {
      var rest := Shapes(cut[1..]);
      assert cut[1..] == args[1..][..k - 1] && Shapes(cut)[1..] == rest;
      LinesAreRendered(args[1..], k - 1);
      BehindStep(Shapes(cut), false);
      ArgsAfterStep(args);
      var first := Inner(args[0]) + PARAMETER_END + BREAK;
      assert Inner(args[0]) + "" == Inner(args[0]);
      SamePrefix(PARAMETER, first, OpenerText(rest, false) + Behind(rest, false),
        Opener(args[1..]) + ArgsAfter(args[1..]));
      assert Behind(Shapes(cut), false) == first + (OpenerText(rest, false) + Behind(rest, false));
      assert ArgsAfter(args) == first + (Opener(args[1..]) + ArgsAfter(args[1..]));
    }
  }

  lemma SamePrefix(a: string, b: string, c: string, d: string)
    requires c <= d
    ensures a + (b + c) <= a + (b + d)
  {
    assert d == c + d[|c|..];
    assert a + (b + d) == a + (b + c) + d[|c|..];
  }

  /** What is left of a completion with one call, when it stops behind the line of the k-th argument. */
  function CutText(content: string, name: string, args: seq<Arg>, k: nat): string
    requires k <= |args|
  {
    content + RestText(WithCalls([CallShape(" ", name, false, Shapes(args[..k]))], InCall, false))
  }

  /** A completion that stops behind a complete line of a call is taken for the call with the
      arguments up to there: nothing tells it from one that the model has finished. */
  lemma CutCallIsAccepted(content: string, name: string, args: seq<Arg>, k: nat)
    requires Clean(content) && Plain(name) && PlainArgs(args) && ReadableArgs(args) && DistinctKeys(args)
    requires k <= |args|
    ensures CutText(content, name, args, k) <= Rendered(Message(content, "", [Call(name, args)]), false, false)
    ensures Parsed(CutText(content, name, args, k), false) == Dsml.Ok(Message(content, "", [Call(name, args[..k])]))
  {
    assert PlainArgs(args[..k]) && ReadableArgs(args[..k]) && DistinctKeys(args[..k]);
    hide Parsed, Rendered, Clean, Plain, PlainArgs, ReadableArgs, DistinctKeys, RestText, GoodHead, GoodArgs, Shapes,
         ArgsOf;
    var c := CallShape(" ", name, false, Shapes(args[..k]));
    var r := WithCalls([c], InCall, false);
    CutIsRendered(content, name, args, k);
    ShapesAreGood(args[..k]);
    HeadIsGood(c);
    NothingIsClean();
    CallsOfStep([], [c]);
    assert RestCalls(r) == [Call(name, args[..k])];
    assert "" + content == content;
    SpelledIsParsed(CutText(content, name, args, k), false, Message(content, "", [Call(name, args[..k])]), r);
  }

  lemma HeadIsGood(c: CallShape)
    requires c.pad == " " && !c.brk && Plain(c.name)
    ensures GoodHead(c)
  {
    hide Absent, Plain;
    var rendered := Call(c.name, [Arg("", true, "")]);
    NameIsPlain(rendered);
    assert HeadText(c) == NameText(rendered);
  }

  lemma CutIsRendered(content: string, name: string, args: seq<Arg>, k: nat)
    requires k <= |args|
    ensures CutText(content, name, args, k) <= Rendered(Message(content, "", [Call(name, args)]), false, false)
  {
    hide BlockText, OneCall, HeadText, NameText, Opener, OpenerText, Behind, ArgsAfter, CallsAfter, CallsText, Shapes,
         BREAK, INVOKE, TOOL_CALLS_START;
    var c, call := CallShape(" ", name, false, Shapes(args[..k])), Call(name, args);
    var front, cut, whole := BREAK + INVOKE, CutLines(c), WholeLines(call);
    CutIsPrefix(call, k);
    assert BlockText([c], InCall) == front + cut by {
      OneCallText(c, false, "");
      BlockStep([c], InCall, "");
      EmptyBlock(InCall);
      assert [c][1..] == [] && Behind(c.args, false) + "" == Behind(c.args, false);
      assert BlockText([c], InCall) + "" == BlockText([c], InCall) && BlockText([], InCall) + "" == "";
    }
    assert CallsAfter([call]) == front + (whole + CallsAfter([])) by {
      CallsAfterStep([call]);
      assert [call][1..] == [];
      Regroup7(BREAK, INVOKE, NameText(call), Opener(args), ArgsAfter(args), CallsAfter([]), "");
      assert CallsAfter([call]) + "" == CallsAfter([call]) && CallsAfter([]) + "" == CallsAfter([]);
      assert front + (whole + CallsAfter([]))
          == front + (NameText(call) + Opener(args) + (ArgsAfter(args) + CallsAfter([])));
    }
    CallsTextIs([call]);
    Longer(front, cut, whole, CallsAfter([]));
    Longer(content + TOOL_CALLS_START, front + cut, CallsAfter([call]), "");
    assert "" + content == content && front + cut + "" == front + cut;
    assert Rendered(Message(content, "", [call]), false, false)
        == content + TOOL_CALLS_START + (CallsAfter([call]) + "");
  }

  function CutLines(c: CallShape): string { HeadText(c) + OpenerText(c.args, false) + Behind(c.args, false) }

  function WholeLines(c: Call): string { NameText(c) + Opener(c.args) + ArgsAfter(c.args) }

  lemma Longer(a: string, b: string, c: string, d: string)
    requires b <= c
    ensures a + b <= a + (c + d)
  {
    assert c == b + c[|b|..];
    assert a + (c + d) == a + b + (c[|b|..] + d);
  }

  lemma CutIsPrefix(call: Call, k: nat)
    requires k <= |call.args|
    ensures CutLines(CallShape(" ", call.name, false, Shapes(call.args[..k]))) <= WholeLines(call)
  {
    hide Behind, ArgsAfter, Opener, OpenerText, Shapes;
    var c := CallShape(" ", call.name, false, Shapes(call.args[..k]));
    var lines, all := OpenerText(c.args, false) + Behind(c.args, false), Opener(call.args) + ArgsAfter(call.args);
    assert NameText(call) == HeadText(c) + Extra(call.args == []);
    LinesAreRendered(call.args, k);
    Regroup3(HeadText(c), OpenerText(c.args, false), Behind(c.args, false));
    Regroup3(NameText(call), Opener(call.args), ArgsAfter(call.args));
    if call.args == [] {
      NoLines();
      PrefixOf(HeadText(c), Extra(true) + all);
    } else {
      SamePrefix("", HeadText(c), lines, all);
    }
    hide HeadText, NameText;
    assert "" + (HeadText(c) + lines) == CutLines(c) && "" + (HeadText(c) + all) == HeadText(c) + all;
    assert HeadText(c) + Extra(call.args == []) + all == HeadText(c) + (Extra(call.args == []) + all);
  }

  lemma NoLines()
    ensures OpenerText(Shapes([]), false) + Behind(Shapes([]), false) == ""
  {
  }

  lemma PrefixOf(a: string, b: string)
    ensures a + "" <= a + b
  {
  }
}
