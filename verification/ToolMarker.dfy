/** The streaming decoder: content deltas that hold back a beginning tool-call block. */
module ToolMarker {
  import opened Texts
  import opened Tokens

  const REPLACEMENT := '\U{FFFD}'

  predicate EndsWith(s: string, t: string) { |t| <= |s| && s[|s| - |t|..] == t }

  function StripEos(s: string): string { if EndsWith(s, EOS) then s[..|s| - |EOS|] else s }

  function StripReplacement(s: string): string {
    if s != "" && s[|s| - 1] == REPLACEMENT then StripReplacement(s[..|s| - 1]) else s
  }

  function Decoded(raw: string): string { StripReplacement(StripEos(raw)) }

  function Replacements(n: nat): string { if n == 0 then "" else Replacements(n - 1) + [REPLACEMENT] }

  /** Decoded is what the tokens spell less one end token at the end and then all replacement
      characters at the end. */
  lemma DecodedMeaning(raw: string) returns (n: nat)
    ensures var d := Decoded(raw);
      && (d == "" || d[|d| - 1] != REPLACEMENT)
      && raw == d + Replacements(n) + if EndsWith(raw, EOS) then EOS else ""
  {
    var s := StripEos(raw);
    n := Stripped(s);
    if EndsWith(raw, EOS) {
      assert raw == s + EOS;
    } else {
      assert s + "" == s;
    }
  }

  lemma {:induction false} Stripped(s: string) returns (n: nat)
    ensures var d := StripReplacement(s); (d == "" || d[|d| - 1] != REPLACEMENT) && s == d + Replacements(n)
    decreases |s|
  {
    if s != "" && s[|s| - 1] == REPLACEMENT {
      n := Stripped(s[..|s| - 1]);
      assert s == s[..|s| - 1] + [REPLACEMENT];
      n := n + 1;
    } else {
      n := 0;
    }
  }

  /** The longest n <= most for which the text ends with the marker's first n characters. */
  function Overlap(content: string, marker: string, most: nat): (n: nat)
    requires most < |marker| && most <= |content|
    ensures n <= most && EndsWith(content, marker[..n])
    ensures forall m :: n < m <= most ==> !EndsWith(content, marker[..m])
  {
    if most == 0 || EndsWith(content, marker[..most]) then most else Overlap(content, marker, most - 1)
  }

  function MostOverlap(content: string, marker: string): nat
    requires marker != ""
  { if |content| < |marker| - 1 then |content| else |marker| - 1 }

  /** What may be shown of a content: everything before the first marker, or, while there is none,
      everything but the longest suffix that could still become one. */
  function Visible(content: string, marker: string): (v: string)
    requires marker != ""
    ensures v <= content
  {
    var idx := Find(content, marker, 0);
    if idx >= 0 then content[..idx]
    else content[..|content| - Overlap(content, marker, MostOverlap(content, marker))]
  }

  /** `Visible` by what it means rather than how it is found. */
  lemma VisibleMeaning(content: string, marker: string)
    requires marker != ""
    ensures var v := Visible(content, marker);
            if Contains(content, marker)
            then OccursAt(content, marker, |v|) && forall i :: i < |v| ==> !OccursAt(content, marker, i)
            else
              && content[|v|..] < marker
              && forall m :: |content| - |v| < m < |marker| ==> !EndsWith(content, marker[..m])
  {
  }

  /** The two markers the decoder looks for. */
  datatype Marks = Marks(toolCalls: string, thinkEnd: string)

  const MARKS := Marks(TOOL_CALLS_START, THINK_END)

  datatype Decoder = Decoder(
    emittedText: string, contentEmitted: string, reasoningEmitted: string,
    truncated: bool, visibleLen: nat)

  datatype Delta = Content(text: string) | Reasoning(text: string)

  /** The decoder after a step, and the deltas of that step. */
  datatype Out = Out(dec: Decoder, deltas: seq<Delta>)

  const START := Decoder("", "", "", false, 0)

  function Take(s: string, n: nat): string { if n <= |s| then s[..n] else s }

  function Drop(s: string, n: nat): string { if n <= |s| then s[n..] else "" }

  /** `_truncate_for_tool_calls`: the visible part, and the marker position once it is known. */
  function Truncated(m: Marks, d: Decoder, content: string): (Decoder, string)
    requires m.toolCalls != ""
  {
    if d.truncated then (d, Take(content, d.visibleLen))
    else
      var idx := Find(content, m.toolCalls, 0);
      (if idx >= 0 then d.(truncated := true, visibleLen := idx) else d, Visible(content, m.toolCalls))
  }

  function ContentDelta(m: Marks, d: Decoder, content: string): Out
    requires m.toolCalls != ""
  {
    var (t, visible) := Truncated(m, d, content);
    if |visible| <= |d.contentEmitted| then Out(t, [])
    else Out(t.(contentEmitted := visible), [Content(visible[|d.contentEmitted|..])])
  }

  function ReasoningDelta(d: Decoder, decoded: string): Out {
    var newText := Drop(decoded, |d.reasoningEmitted|);
    if newText != "" then Out(d.(reasoningEmitted := decoded), [Reasoning(newText)]) else Out(d, [])
  }

  function LastReasoningDelta(d: Decoder, decoded: string, at: nat): Out
    requires at <= |decoded|
  {
    if at > |d.reasoningEmitted| then
      Out(d.(reasoningEmitted := decoded[..at]), [Reasoning(decoded[|d.reasoningEmitted|..at])])
    else Out(d, [])
  }

  /** The thinking branch: reasoning up to the end marker, content after it. */
  function ThinkingDelta(m: Marks, d: Decoder, decoded: string): Out
    requires m.toolCalls != ""
  {
    var at := Find(decoded, m.thinkEnd, 0);
    if at < 0 then ReasoningDelta(d, decoded)
    else
      var first := LastReasoningDelta(d, decoded, at);
      var second := ContentDelta(m, first.dec, decoded[at + |m.thinkEnd|..]);
      Out(second.dec, first.deltas + second.deltas)
  }

  function Step(m: Marks, thinking: bool, d: Decoder, decoded: string): Out
    requires m.toolCalls != ""
  {
    if |decoded| < |d.emittedText| then Out(d, [])
    else if thinking then ThinkingDelta(m, d.(emittedText := decoded), decoded)
    else ContentDelta(m, d.(emittedText := decoded), decoded)
  }

  function Appended(m: Marks, thinking: bool, d: Decoder, raw: string): Out
    requires m.toolCalls != ""
  {
    Step(m, thinking, d, Decoded(raw))
  }

  /** The decoder object; the decoded text of all tokens so far is handed to `Append`. */
  class StreamingDecoder {
    const marks: Marks
    const thinking: bool
    var emittedText: string
    var contentEmitted: string
    var reasoningEmitted: string
    var contentTruncated: bool
    var contentVisibleLen: nat

    function State(): Decoder
      reads this
    { Decoder(emittedText, contentEmitted, reasoningEmitted, contentTruncated, contentVisibleLen) }

    constructor (thinking: bool)
      ensures marks == MARKS && this.thinking == thinking && State() == START
    {
      marks, this.thinking := MARKS, thinking;
      emittedText, contentEmitted, reasoningEmitted, contentTruncated, contentVisibleLen := "", "", "", false, 0;
    }

    method TruncateForToolCalls(content: string) returns (visible: string)
      requires marks.toolCalls != ""
      modifies this
      ensures (State(), visible) == Truncated(marks, old(State()), content)
    {
      if contentTruncated { return Take(content, contentVisibleLen); }
      var marker := marks.toolCalls;
      var idx := Find(content, marker, 0);
      if idx >= 0 {
        contentTruncated, contentVisibleLen := true, idx;
        return content[..idx];
      }
      var n := MostOverlap(content, marker);
      while n > 0
        invariant 0 <= n <= MostOverlap(content, marker)
        invariant Overlap(content, marker, n) == Overlap(content, marker, MostOverlap(content, marker))
      {
        if EndsWith(content, marker[..n]) { return content[..|content| - n]; }
        n := n - 1;
      }
      return content[..|content| - 0];
    }

    method EmitContent(content: string) returns (outputs: seq<Delta>)
      requires marks.toolCalls != ""
      modifies this
      ensures Out(State(), outputs) == ContentDelta(marks, old(State()), content)
    {
      var visible := TruncateForToolCalls(content);
      outputs := [];
      if |visible| > |contentEmitted| {
        outputs := [Content(visible[|contentEmitted|..])];
        contentEmitted := visible;
      }
    }

    method EmitThinking(decoded: string) returns (outputs: seq<Delta>)
      requires marks.toolCalls != ""
      modifies this
      ensures Out(State(), outputs) == ThinkingDelta(marks, old(State()), decoded)
    {
      outputs := [];
      var at := Find(decoded, marks.thinkEnd, 0);
      if at < 0 {
        var newText := Drop(decoded, |reasoningEmitted|);
        if newText != "" {
          reasoningEmitted := decoded;
          outputs := [Reasoning(newText)];
        }
        return;
      }
      if at > |reasoningEmitted| {
        outputs := [Reasoning(decoded[|reasoningEmitted|..at])];
        reasoningEmitted := decoded[..at];
      }
      var more := EmitContent(decoded[at + |marks.thinkEnd|..]);
      outputs := outputs + more;
    }

    method Append(raw: string) returns (outputs: seq<Delta>)
      requires marks.toolCalls != ""
      modifies this
      ensures Out(State(), outputs) == Appended(marks, thinking, old(State()), raw)
    {
      var decoded := Decoded(raw);
      outputs := [];
      if |decoded| < |emittedText| { return; }
      emittedText := decoded;
      if !thinking {
        outputs := EmitContent(decoded);
      } else {
        outputs := EmitThinking(decoded);
      }
    }
  }

  // ----- whole streams -----

  function AppendedAll(m: Marks, thinking: bool, raws: seq<string>): Out
    requires m.toolCalls != ""
  {
    if raws == [] then Out(START, [])
    else
      var before := AppendedAll(m, thinking, raws[..|raws| - 1]);
      var last := Appended(m, thinking, before.dec, raws[|raws| - 1]);
      Out(last.dec, before.deltas + last.deltas)
  }

  /** The content deltas of a stream, put together. */
  function ContentSent(deltas: seq<Delta>): string {
    if deltas == [] then ""
    else ContentSent(deltas[..|deltas| - 1]) + if deltas[|deltas| - 1].Content? then deltas[|deltas| - 1].text else ""
  }

  /** The content part of a decoded text: all of it, or what follows the end of the reasoning. */
  function ContentOf(m: Marks, thinking: bool, decoded: string): string {
    if !thinking then decoded
    else
      var at := Find(decoded, m.thinkEnd, 0);
      if at < 0 then "" else decoded[at + |m.thinkEnd|..]
  }

  function LastDecoded(raws: seq<string>): string { if raws == [] then "" else Decoded(raws[|raws| - 1]) }

  predicate Growing(raws: seq<string>) {
    forall i :: 0 <= i < |raws| ==> LastDecoded(raws[..i]) <= Decoded(raws[i])
  }

  lemma {:induction false} SentAppend(a: seq<Delta>, b: seq<Delta>)
    ensures ContentSent(a + b) == ContentSent(a) + ContentSent(b)
  {
    if b == [] {
      assert a + b == a;
    } else {
      assert (a + b)[..|a + b| - 1] == a + b[..|b| - 1];
      SentAppend(a, b[..|b| - 1]);
    }
  }

  /** A first occurrence stays the first when the text grows. */
  lemma FindGrows(s: string, t: string, p: string)
    requires s <= t && Find(s, p, 0) >= 0
    ensures Find(t, p, 0) == Find(s, p, 0)
  {
    var tail := t[|s|..];
    assert t == s + tail;
    var at := Find(s, p, 0);
    forall i | 0 <= i < at ensures !OccursAt(t, p, i) {
      if OccursAt(t, p, i) { OccursInPrefix(s, p, i, tail); }
    }
    FindIs(t, p, 0, at);
  }

  /** A suffix that is a beginning of the marker is never visible. */
  lemma SuffixIsHeldBack(s: string, w: nat, marker: string)
    requires marker != "" && w <= |s| && s[w..] < marker && !Contains(s, marker)
    ensures |Visible(s, marker)| <= w
  {
    VisibleMeaning(s, marker);
    assert s[w..] == marker[..|s| - w];
    assert EndsWith(s, marker[..|s| - w]);
  }

  /** Cutting a text that has no marker inside a marker of its continuation leaves a beginning of it. */
  lemma CutMarker(s: string, t: string, marker: string, w: nat)
    requires s <= t && w <= |s| && OccursAt(t, marker, w) && !OccursAt(s, marker, w)
    ensures s[w..] < marker
  {
    assert t == s + t[|s|..];
    if |s| - w >= |marker| {
      OccursInPrefix(s, marker, w, t[|s|..]);
    } else {
      assert s[w..] == t[w..w + |marker|][..|s| - w];
    }
  }

  /** What is visible never shrinks and is never taken back. */
  lemma VisibleGrows(s: string, t: string, marker: string)
    requires s <= t && marker != ""
    ensures Visible(s, marker) <= Visible(t, marker)
  {
    if Find(s, marker, 0) >= 0 {
      FindGrows(s, t, marker);
      VisibleIsCut(s, marker);
      VisibleIsCut(t, marker);
    } else {
      hide Visible;
      if |Visible(t, marker)| < |s| { HidesNoLess(s, t, marker); }
      PrefixesByLength(Visible(s, marker), Visible(t, marker), t);
    }
  }

  lemma VisibleIsCut(s: string, marker: string)
    requires marker != "" && Find(s, marker, 0) >= 0
    ensures Visible(s, marker) == s[..Find(s, marker, 0)]
  {
  }

  lemma PrefixesByLength(a: string, b: string, t: string)
    requires a <= t && b <= t && |a| <= |b|
    ensures a <= b
  {
    assert b[..|a|] == t[..|a|];
  }

  /** What the longer text hides behind its visible part is hidden in the shorter as well. */
  lemma HidesNoLess(s: string, t: string, marker: string)
    requires s <= t && marker != "" && Find(s, marker, 0) < 0 && |Visible(t, marker)| < |s|
    ensures |Visible(s, marker)| <= |Visible(t, marker)|
  {
    hide Visible, Find;
    var w := |Visible(t, marker)|;
    VisibleMeaning(t, marker);
    NotFound(s, marker);
    if Contains(t, marker) {
      CutMarker(s, t, marker, w);
    } else {
      assert s[w..] == t[w..][..|s| - w];
    }
    SuffixIsHeldBack(s, w, marker);
  }

  lemma NotFound(s: string, p: string)
    requires Find(s, p, 0) < 0
    ensures !Contains(s, p)
  {
  }

  lemma ContentGrows(m: Marks, thinking: bool, s: string, t: string)
    requires s <= t
    ensures ContentOf(m, thinking, s) <= ContentOf(m, thinking, t)
  {
    if thinking && Find(s, m.thinkEnd, 0) >= 0 { FindGrows(s, t, m.thinkEnd); }
  }

  /** The decoder in step with a content c. */
  ghost predicate InStep(m: Marks, d: Decoder, sent: seq<Delta>, c: string)
    requires m.toolCalls != ""
  {
    && d.contentEmitted == ContentSent(sent) == Visible(c, m.toolCalls)
    && (if d.truncated then Find(c, m.toolCalls, 0) == d.visibleLen else Find(c, m.toolCalls, 0) < 0)
  }

  lemma ContentDeltaInStep(m: Marks, d: Decoder, sent: seq<Delta>, c: string, c': string)
    requires m.toolCalls != "" && InStep(m, d, sent, c) && c <= c'
    ensures var r := ContentDelta(m, d, c'); InStep(m, r.dec, sent + r.deltas, c')
  {
    VisibleGrows(c, c', m.toolCalls);
    if d.truncated { FindGrows(c, c', m.toolCalls); }
    var (t, visible) := Truncated(m, d, c');
    assert visible == Visible(c', m.toolCalls);
    var more := ContentDelta(m, d, c').deltas;
    SentAppend(sent, more);
    assert more != [] ==> more[..0] == [];
  }

  lemma ReasoningIsNoContent(sent: seq<Delta>, more: seq<Delta>)
    requires |more| <= 1 && (more != [] ==> more[0].Reasoning?)
    ensures ContentSent(sent + more) == ContentSent(sent)
  {
    SentAppend(sent, more);
    assert more != [] ==> more[..0] == [];
  }

  lemma ContentAfterReasoning(
      m: Marks, d: Decoder, sent: seq<Delta>, first: seq<Delta>, c: string, c': string)
    requires m.toolCalls != "" && InStep(m, d, sent + first, c) && c <= c'
    ensures var r := ContentDelta(m, d, c'); InStep(m, r.dec, sent + (first + r.deltas), c')
  {
    ContentDeltaInStep(m, d, sent + first, c, c');
    var more := ContentDelta(m, d, c').deltas;
    assert (sent + first) + more == sent + (first + more);
  }

  lemma ThinkingParts(m: Marks, d: Decoder, decoded: string, at: nat)
    requires m.toolCalls != "" && Find(decoded, m.thinkEnd, 0) == at
    ensures var first := LastReasoningDelta(d, decoded, at);
            var second := ContentDelta(m, first.dec, decoded[at + |m.thinkEnd|..]);
            ThinkingDelta(m, d, decoded) == Out(second.dec, first.deltas + second.deltas)
  {
    hide LastReasoningDelta, ContentDelta;
  }

  /** Reasoning leaves the content in step. */
  lemma StillInStep(m: Marks, d: Decoder, d': Decoder, sent: seq<Delta>, more: seq<Delta>, c: string)
    requires m.toolCalls != "" && InStep(m, d, sent, c) && ContentSent(sent + more) == ContentSent(sent)
    requires d' == d.(reasoningEmitted := d'.reasoningEmitted)
    ensures InStep(m, d', sent + more, c)
  {
    hide Visible, Find;
  }

  lemma ReasoningInStep(m: Marks, d: Decoder, sent: seq<Delta>, c: string, decoded: string)
    requires m.toolCalls != "" && InStep(m, d, sent, c)
    ensures var r := ReasoningDelta(d, decoded);
            InStep(m, r.dec, sent + r.deltas, c) && r.dec.emittedText == d.emittedText
  {
    hide InStep;
    var r := ReasoningDelta(d, decoded);
    ReasoningIsNoContent(sent, r.deltas);
    StillInStep(m, d, r.dec, sent, r.deltas, c);
  }

  lemma AfterThinkingInStep(m: Marks, d: Decoder, sent: seq<Delta>, c: string, decoded: string)
    requires m.toolCalls != "" && InStep(m, d, sent, c)
    requires Find(decoded, m.thinkEnd, 0) >= 0 && c <= ContentOf(m, true, decoded)
    ensures var r := ThinkingDelta(m, d, decoded);
            InStep(m, r.dec, sent + r.deltas, ContentOf(m, true, decoded)) && r.dec.emittedText == d.emittedText
  {
    hide Visible, Find, InStep, ContentDelta;
    var at := Find(decoded, m.thinkEnd, 0);
    var c' := decoded[at + |m.thinkEnd|..];
    var first := LastReasoningDelta(d, decoded, at);
    ReasoningIsNoContent(sent, first.deltas);
    StillInStep(m, d, first.dec, sent, first.deltas, c);
    ContentAfterReasoning(m, first.dec, sent, first.deltas, c, c');
    ContentDeltaKeepsText(m, first.dec, c');
    ThinkingParts(m, d, decoded, at);
  }

  lemma ContentDeltaKeepsText(m: Marks, d: Decoder, content: string)
    requires m.toolCalls != ""
    ensures ContentDelta(m, d, content).dec.emittedText == d.emittedText
  {
    hide Visible, Find;
  }

  lemma ThinkingInStep(m: Marks, d: Decoder, sent: seq<Delta>, c: string, decoded: string)
    requires m.toolCalls != "" && InStep(m, d, sent, c)
    requires c <= ContentOf(m, true, decoded) && (Find(decoded, m.thinkEnd, 0) < 0 ==> c == "")
    ensures var r := ThinkingDelta(m, d, decoded);
            InStep(m, r.dec, sent + r.deltas, ContentOf(m, true, decoded)) && r.dec.emittedText == d.emittedText
  {
    hide Visible, Find, ContentDelta, ReasoningDelta, LastReasoningDelta, InStep;
    if Find(decoded, m.thinkEnd, 0) < 0 {
      ReasoningInStep(m, d, sent, c, decoded);
    } else {
      AfterThinkingInStep(m, d, sent, c, decoded);
    }
  }

  lemma StepInStep(m: Marks, thinking: bool, d: Decoder, sent: seq<Delta>, decoded: string)
    requires m.toolCalls != "" && InStep(m, d, sent, ContentOf(m, thinking, d.emittedText))
    requires d.emittedText <= decoded
    ensures var r := Step(m, thinking, d, decoded);
            r.dec.emittedText == decoded && InStep(m, r.dec, sent + r.deltas, ContentOf(m, thinking, decoded))
  {
    var c := ContentOf(m, thinking, d.emittedText);
    ContentGrows(m, thinking, d.emittedText, decoded);
    var d1 := d.(emittedText := decoded);
    if thinking {
      if Find(d.emittedText, m.thinkEnd, 0) >= 0 { FindGrows(d.emittedText, decoded, m.thinkEnd); }
      ThinkingInStep(m, d1, sent, c, decoded);
    } else {
      ContentDeltaInStep(m, d1, sent, c, decoded);
    }
  }

  /** For every stream whose decoded text only grows: the content deltas add up to the visible part
      of the content, that is, to the content cut at its first tool-call marker, or, while there is
      none, to all of it but the longest suffix that could still become one. */
  lemma {:induction false} DeltasAddUpToVisible(m: Marks, thinking: bool, raws: seq<string>)
    requires m.toolCalls != "" && m.thinkEnd != "" && Growing(raws)
    ensures var r := AppendedAll(m, thinking, raws);
            && r.dec.emittedText == LastDecoded(raws)
            && InStep(m, r.dec, r.deltas, ContentOf(m, thinking, LastDecoded(raws)))
  {
    if raws == [] {
      assert Find("", m.thinkEnd, 0) < 0 && Find("", m.toolCalls, 0) < 0;
    } else {
      var init := raws[..|raws| - 1];
      assert forall i :: 0 <= i < |init| ==> init[..i] == raws[..i];
      DeltasAddUpToVisible(m, thinking, init);
      var r := AppendedAll(m, thinking, init);
      StepInStep(m, thinking, r.dec, r.deltas, Decoded(raws[|raws| - 1]));
    }
  }

  /** The texts of a stream without those that are shorter than one before. */
  function WithoutShorter(raws: seq<string>): seq<string> {
    if raws == [] then []
    else
      var before, last := WithoutShorter(raws[..|raws| - 1]), raws[|raws| - 1];
      if |Decoded(last)| < |LastDecoded(before)| then before else before + [last]
  }

  lemma StepSetsText(m: Marks, thinking: bool, d: Decoder, decoded: string)
    requires m.toolCalls != ""
    ensures Step(m, thinking, d, decoded).dec.emittedText
         == if |decoded| < |d.emittedText| then d.emittedText else decoded
  {
    hide Find, Visible;
  }

  /** A text shorter than what the decoder has already seen leaves no trace: every stream does what it
      does without these. */
  lemma {:induction false} ShorterIsIgnored(m: Marks, thinking: bool, raws: seq<string>)
    requires m.toolCalls != ""
    ensures AppendedAll(m, thinking, raws) == AppendedAll(m, thinking, WithoutShorter(raws))
    ensures AppendedAll(m, thinking, raws).dec.emittedText == LastDecoded(WithoutShorter(raws))
    decreases |raws|
  {
    if raws != [] {
      hide Step, Decoded;
      var init, last := raws[..|raws| - 1], raws[|raws| - 1];
      var before := AppendedAll(m, thinking, init);
      ShorterIsIgnored(m, thinking, init);
      StepSetsText(m, thinking, before.dec, Decoded(last));
      if |Decoded(last)| < |LastDecoded(WithoutShorter(init))| {
        ShorterStep(m, thinking, before.dec, Decoded(last));
        assert before.deltas + [] == before.deltas;
      } else {
        assert (WithoutShorter(init) + [last])[..|WithoutShorter(init)|] == WithoutShorter(init);
      }
    }
  }

  lemma ShorterStep(m: Marks, thinking: bool, d: Decoder, decoded: string)
    requires m.toolCalls != "" && |decoded| < |d.emittedText|
    ensures Step(m, thinking, d, decoded) == Out(d, [])
  {
  }

  /** So the content deltas add up to the visible content for every stream in which the texts that are
      not shorter than one before extend each other. */
  lemma ContentAddsUp(m: Marks, thinking: bool, raws: seq<string>)
    requires m.toolCalls != "" && m.thinkEnd != "" && Growing(WithoutShorter(raws))
    ensures ContentSent(AppendedAll(m, thinking, raws).deltas)
         == Visible(ContentOf(m, thinking, LastDecoded(WithoutShorter(raws))), m.toolCalls)
  {
    ShorterIsIgnored(m, thinking, raws);
    DeltasAddUpToVisible(m, thinking, WithoutShorter(raws));
  }

  /** The reasoning deltas of a stream, put together. */
  function ReasoningSent(deltas: seq<Delta>): string {
    if deltas == [] then ""
    else
      ReasoningSent(deltas[..|deltas| - 1])
      + if deltas[|deltas| - 1].Reasoning? then deltas[|deltas| - 1].text else ""
  }

  lemma {:induction false} ReasoningAppend(a: seq<Delta>, b: seq<Delta>)
    ensures ReasoningSent(a + b) == ReasoningSent(a) + ReasoningSent(b)
  {
    if b == [] {
      assert a + b == a;
    } else {
      assert (a + b)[..|a + b| - 1] == a + b[..|b| - 1];
      ReasoningAppend(a, b[..|b| - 1]);
    }
  }

  /** The last text seen in which the reasoning had not ended. */
  function LastOpen(m: Marks, raws: seq<string>): string {
    if raws == [] then ""
    else if Find(Decoded(raws[|raws| - 1]), m.thinkEnd, 0) < 0 then Decoded(raws[|raws| - 1])
    else LastOpen(m, raws[..|raws| - 1])
  }

  /** The reasoning a stream shows: the text in front of the end marker, or what of the marker itself
      had been sent before it was complete. */
  function ReasoningShown(m: Marks, raws: seq<string>): string {
    var text, open := LastDecoded(raws), LastOpen(m, raws);
    var at := Find(text, m.thinkEnd, 0);
    if at < 0 then text else if |open| > at then open else text[..at]
  }

  lemma {:induction false} OpenIsPrefix(m: Marks, raws: seq<string>)
    requires Growing(raws)
    ensures LastOpen(m, raws) <= LastDecoded(raws)
    decreases |raws|
  {
    hide Decoded;
    if raws != [] {
      var init := raws[..|raws| - 1];
      assert forall i :: 0 <= i < |init| ==> init[..i] == raws[..i];
      OpenIsPrefix(m, init);
      assert LastDecoded(raws[..|raws| - 1]) <= Decoded(raws[|raws| - 1]);
    }
  }

  lemma OneReasoning(deltas: seq<Delta>)
    requires |deltas| <= 1
    ensures ReasoningSent(deltas) == if deltas != [] && deltas[0].Reasoning? then deltas[0].text else ""
  {
    if deltas != [] { assert deltas[..0] == []; }
  }

  lemma OpenReasoning(d: Decoder, decoded: string)
    ensures var r, n := ReasoningDelta(d, decoded), |d.reasoningEmitted|;
            && ReasoningSent(r.deltas) == (if |decoded| > n then decoded[n..] else "")
            && r.dec.reasoningEmitted == if |decoded| > n then decoded else d.reasoningEmitted
  {
    OneReasoning(ReasoningDelta(d, decoded).deltas);
  }

  lemma ClosedReasoning(d: Decoder, decoded: string, at: nat)
    requires at <= |decoded|
    ensures var r, n := LastReasoningDelta(d, decoded, at), |d.reasoningEmitted|;
            && ReasoningSent(r.deltas) == (if at > n then decoded[..at][n..] else "")
            && r.dec.reasoningEmitted == if at > n then decoded[..at] else d.reasoningEmitted
  {
    OneReasoning(LastReasoningDelta(d, decoded, at).deltas);
    if at > |d.reasoningEmitted| { assert decoded[..at][|d.reasoningEmitted|..] == decoded[|d.reasoningEmitted|..at]; }
  }

  lemma ContentIsNoReasoning(m: Marks, d: Decoder, content: string)
    requires m.toolCalls != ""
    ensures var r := ContentDelta(m, d, content);
            ReasoningSent(r.deltas) == "" && r.dec.reasoningEmitted == d.reasoningEmitted
  {
    hide Visible, Find;
    OneReasoning(ContentDelta(m, d, content).deltas);
  }

  /** What one append of a thinking decoder adds to the reasoning. */
  lemma ReasoningOfStep(m: Marks, d: Decoder, decoded: string)
    requires m.toolCalls != "" && |d.emittedText| <= |decoded|
    ensures var r := Step(m, true, d, decoded);
            var at := Find(decoded, m.thinkEnd, 0);
            var upTo := if at < 0 then decoded else decoded[..at];
            && ReasoningSent(r.deltas)
               == (if |upTo| > |d.reasoningEmitted| then upTo[|d.reasoningEmitted|..] else "")
            && r.dec.reasoningEmitted == if |upTo| > |d.reasoningEmitted| then upTo else d.reasoningEmitted
  {
    hide Visible, Find, ContentDelta, ReasoningDelta, LastReasoningDelta, ReasoningSent;
    var d1 := d.(emittedText := decoded);
    var at := Find(decoded, m.thinkEnd, 0);
    if at < 0 {
      OpenReasoning(d1, decoded);
    } else {
      var first := LastReasoningDelta(d1, decoded, at);
      var second := ContentDelta(m, first.dec, decoded[at + |m.thinkEnd|..]);
      ReasoningAppend(first.deltas, second.deltas);
      ClosedReasoning(d1, decoded, at);
      ContentIsNoReasoning(m, first.dec, decoded[at + |m.thinkEnd|..]);
    }
  }

  /** For every stream whose decoded text only grows, the reasoning deltas of a thinking decoder add up
      to the text in front of the end marker; a beginning of the marker that had been sent before the
      marker was complete is not taken back. */
  lemma {:induction false} ReasoningAddsUp(m: Marks, raws: seq<string>)
    requires m.toolCalls != "" && m.thinkEnd != "" && Growing(raws)
    ensures var r := AppendedAll(m, true, raws);
            ReasoningSent(r.deltas) == r.dec.reasoningEmitted == ReasoningShown(m, raws)
    decreases |raws|
  {
    hide Decoded, Step, Visible;
    if raws == [] {
      assert Find("", m.thinkEnd, 0) < 0;
    } else {
      var init := raws[..|raws| - 1];
      assert forall i :: 0 <= i < |init| ==> init[..i] == raws[..i];
      ReasoningAddsUp(m, init);
      DeltasAddUpToVisible(m, true, init);
      OpenIsPrefix(m, init);
      var r, decoded := AppendedAll(m, true, init), Decoded(raws[|raws| - 1]);
      assert LastDecoded(init) <= decoded;
      ReasoningOfStep(m, r.dec, decoded);
      ReasoningAppend(r.deltas, Step(m, true, r.dec, decoded).deltas);
      ShownGrows(m, init, raws, decoded);
    }
  }

  lemma ShownGrows(m: Marks, init: seq<string>, raws: seq<string>, decoded: string)
    requires raws != [] && init == raws[..|raws| - 1] && decoded == Decoded(raws[|raws| - 1])
    requires LastDecoded(init) <= decoded && LastOpen(m, init) <= LastDecoded(init)
    ensures var before, at := ReasoningShown(m, init), Find(decoded, m.thinkEnd, 0);
            var upTo := if at < 0 then decoded else decoded[..at];
            ReasoningShown(m, raws)
              == if |upTo| > |before| then before + upTo[|before|..] else before
    ensures var before, at := ReasoningShown(m, init), Find(decoded, m.thinkEnd, 0);
            var upTo := if at < 0 then decoded else decoded[..at];
            |upTo| > |before| ==> before + upTo[|before|..] == upTo
  {
    hide Decoded;
    if Find(LastDecoded(init), m.thinkEnd, 0) >= 0 { FindGrows(LastDecoded(init), decoded, m.thinkEnd); }
  }

  predicate EndsWithBeginningOf(c: string, marker: string) {
    exists n :: 0 < n < |marker| && EndsWith(c, marker[..n])
  }

  lemma AllVisible(c: string, marker: string)
    requires marker != ""
    ensures Visible(c, marker) == c <==> !Contains(c, marker) && !EndsWithBeginningOf(c, marker)
  {
    VisibleMeaning(c, marker);
    var v := Visible(c, marker);
    if !Contains(c, marker) && v != c {
      var n := |c| - |v|;
      assert c[|v|..] == marker[..n];
      assert EndsWith(c, marker[..n]);
    }
  }

  /** So a stream that ends has delivered the whole content exactly when the content has no
      tool-call marker and does not end with a beginning of one: the suffix that is held back is
      never flushed. */
  lemma WholeContentDelivered(thinking: bool, raws: seq<string>)
    requires Growing(raws)
    ensures var c := ContentOf(MARKS, thinking, LastDecoded(raws));
            ContentSent(AppendedAll(MARKS, thinking, raws).deltas) == c
            <==> !Contains(c, TOOL_CALLS_START) && !EndsWithBeginningOf(c, TOOL_CALLS_START)
  {
    DeltasAddUpToVisible(MARKS, thinking, raws);
    AllVisible(ContentOf(MARKS, thinking, LastDecoded(raws)), TOOL_CALLS_START);
  }
}
