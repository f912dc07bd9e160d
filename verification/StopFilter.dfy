/** Stop strings: cutting a finished completion, and cutting it while it is streamed. */
module StopFilter {
  import opened Texts

  /** Some stop string occurs at position i. */
  ghost predicate HitAt(text: string, stops: seq<string>, i: int) {
    exists k :: 0 <= k < |stops| && OccursAt(text, stops[k], i)
  }

  /** `first` is the least position at which any stop string occurs. */
  ghost predicate IsFirstHit(text: string, stops: seq<string>, first: Option<nat>) {
    match first
    case None => forall i :: !HitAt(text, stops, i)
    case Some(e) => HitAt(text, stops, e) && forall i :: i < e ==> !HitAt(text, stops, i)
  }

  function FirstHit(text: string, stops: seq<string>): (first: Option<nat>)
    ensures IsFirstHit(text, stops, first)
  {
    if stops == [] then None
    else
      var init := stops[..|stops| - 1];
      var rest := FirstHit(text, init);
      var pos := Find(text, stops[|stops| - 1], 0);
      assert forall i :: HitAt(text, stops, i) <==> HitAt(text, init, i) || OccursAt(text, stops[|stops| - 1], i) by {
        assert stops == init + [stops[|stops| - 1]];
        forall i ensures HitAt(text, stops, i) <==> HitAt(text, init, i) || OccursAt(text, stops[|stops| - 1], i) {
          if HitAt(text, init, i) {
            var k :| 0 <= k < |init| && OccursAt(text, init[k], i);
            assert stops[k] == init[k];
          }
        }
      }
      if pos >= 0 && (rest.None? || pos < rest.value) then Some(pos) else rest
  }

  /** The search loop shared by the one-shot cut and the streaming cut. */
  method EarliestStop(text: string, stops: seq<string>) returns (earliest: Option<nat>)
    ensures earliest == FirstHit(text, stops)
  {
    earliest := None;
    for k := 0 to |stops|
      invariant earliest == FirstHit(text, stops[..k])
    {
      assert stops[..k + 1][..k] == stops[..k] && stops[..k + 1][k] == stops[k];
      var pos := Find(text, stops[k], 0);
      if pos >= 0 && (earliest.None? || pos < earliest.value) { earliest := Some(pos); }
    }
    assert stops[..|stops|] == stops;
  }

  // ----- the finished completion -----

  function OneShot(content: string, stops: seq<string>): string {
    match FirstHit(content, stops)
    case None => content
    case Some(e) => content[..e]
  }

  class Completion {
    var content: string
    var finishReason: string

    constructor (content: string, finishReason: string)
      ensures this.content == content && this.finishReason == finishReason
    { this.content, this.finishReason := content, finishReason; }

    method ApplyStop(stops: seq<string>)
      modifies this
      ensures content == OneShot(old(content), stops)
      ensures finishReason == if FirstHit(old(content), stops).Some? then "stop" else old(finishReason)
    {
      if stops == [] { return; }
      var earliest := EarliestStop(content, stops);
      if earliest.Some? {
        content := content[..earliest.value];
        finishReason := "stop";
      }
    }
  }

  // ----- the streamed completion -----

  /** What is held back, whether a stop string was seen, and everything sent so far. */
  datatype Filter = Filter(hold: string, stopped: bool, sent: string)

  function MaxLength(stops: seq<string>): nat {
    if stops == [] then 0
    else var m := MaxLength(stops[1..]); if |stops[0]| > m then |stops[0]| else m
  }

  function HoldLimit(stops: seq<string>): int { MaxLength(stops) - 1 }

  function Fed(stops: seq<string>, f: Filter, delta: string): Filter {
    if f.stopped then f
    else if stops == [] then f.(sent := f.sent + delta)
    else
      var combined, limit := f.hold + delta, HoldLimit(stops);
      match FirstHit(combined, stops)
      case Some(e) => Filter("", true, f.sent + combined[..e])
      case None =>
        if limit > 0 then
          var cut := if |combined| > limit then |combined| - limit else 0;
          Filter(combined[cut..], false, f.sent + combined[..cut])
        else Filter("", false, f.sent + combined)
  }

  function Flushed(f: Filter): string { if f.stopped then f.sent else f.sent + f.hold }

  function FedAll(stops: seq<string>, f: Filter, chunks: seq<string>): Filter {
    if chunks == [] then f else Fed(stops, FedAll(stops, f, chunks[..|chunks| - 1]), chunks[|chunks| - 1])
  }

  /** Everything the client has received when the stream ends. */
  function Streamed(stops: seq<string>, chunks: seq<string>): string {
    Flushed(FedAll(stops, Filter("", false, ""), chunks))
  }

  /** The loop variables of the streaming handler; `sent` stands for the socket. */
  class StopStream {
    const stopStrings: seq<string>
    const stopHoldLimit: int
    var stopHold: string
    var stoppedBySequence: bool
    var sent: string

    ghost predicate Valid()
      reads this
    { stopHoldLimit == HoldLimit(stopStrings) }

    function State(): Filter
      reads this
    { Filter(stopHold, stoppedBySequence, sent) }

    constructor (stops: seq<string>)
      ensures Valid() && stopStrings == stops && State() == Filter("", false, "")
    {
      stopStrings, stopHoldLimit := stops, HoldLimit(stops);
      stopHold, stoppedBySequence, sent := "", false, "";
    }

    method Feed(delta: string)
      requires Valid()
      modifies this
      ensures Valid() && State() == Fed(stopStrings, old(State()), delta)
    {
      if stoppedBySequence { return; }
      var visible := delta;
      if stopStrings != [] {
        var combined := stopHold + delta;
        var earliest := EarliestStop(combined, stopStrings);
        if earliest.Some? {
          visible := combined[..earliest.value];
          stoppedBySequence := true;
          stopHold := "";
        } else if stopHoldLimit > 0 {
          if |combined| > stopHoldLimit {
            visible := combined[..|combined| - stopHoldLimit];
            stopHold := combined[|combined| - stopHoldLimit..];
          } else {
            visible := "";
            stopHold := combined;
          }
        } else {
          visible := combined;
          stopHold := "";
        }
      }
      sent := sent + visible;
    }

    method Finish()
      requires Valid()
      modifies this
      ensures Valid() && sent == Flushed(old(State()))
    {
      if !stoppedBySequence && stopHold != "" { sent := sent + stopHold; }
    }
  }

  // ----- when streaming agrees with the one-shot cut -----

  /** No stop string can be overtaken: whenever a proper prefix of one contains a stop string, that
      prefix also begins with one. */
  ghost predicate NeverOvertaken(stops: seq<string>) {
    forall k, m :: 0 <= k < |stops| && 0 <= m < |stops[k]| ==> !Overtaken(stops, stops[k][..m])
  }

  ghost predicate Overtaken(stops: seq<string>, prefix: string) {
    !HitAt(prefix, stops, 0) && exists i :: HitAt(prefix, stops, i)
  }

  lemma {:induction false} LengthsBounded(stops: seq<string>, k: nat)
    requires k < |stops|
    ensures |stops[k]| <= MaxLength(stops)
  {
    if k > 0 { LengthsBounded(stops[1..], k - 1); }
  }

  lemma HitInLonger(text: string, stops: seq<string>, i: int, tail: string)
    requires HitAt(text, stops, i)
    ensures HitAt(text + tail, stops, i)
  {
    var k :| 0 <= k < |stops| && OccursAt(text, stops[k], i);
  }

  lemma HitShifted(head: string, text: string, stops: seq<string>, i: int)
    requires i >= 0
    ensures HitAt(text, stops, i) <==> HitAt(head + text, stops, |head| + i)
  {
    forall k | 0 <= k < |stops|
      ensures OccursAt(text, stops[k], i) <==> OccursAt(head + text, stops[k], |head| + i)
    {
      OccursShifted(head, text, stops[k], i);
    }
    if HitAt(text, stops, i) {
      var k :| 0 <= k < |stops| && OccursAt(text, stops[k], i);
      assert OccursAt(head + text, stops[k], |head| + i);
    }
    if HitAt(head + text, stops, |head| + i) {
      var k :| 0 <= k < |stops| && OccursAt(head + text, stops[k], |head| + i);
      assert OccursAt(text, stops[k], i);
    }
  }

  /** Nothing that has been let go can still become the beginning of a stop string. */
  lemma NoHitBeforeHold(seen: string, delta: string, stops: seq<string>, i: int)
    requires forall j :: !HitAt(seen, stops, j)
    requires i < |seen| - HoldLimit(stops)
    ensures !HitAt(seen + delta, stops, i)
  {
    assert !HitAt(seen, stops, i);
    if HitAt(seen + delta, stops, i) {
      var k :| 0 <= k < |stops| && OccursAt(seen + delta, stops[k], i);
      LengthsBounded(stops, k);
      OccursInPrefix(seen, stops[k], i, delta);
    }
  }

  /** Once the first hit of what has been seen is known, nothing that follows moves it. */
  lemma FirstHitSettles(stops: seq<string>, seen: string, e: nat, tail: string)
    requires NeverOvertaken(stops) && IsFirstHit(seen, stops, Some(e))
    ensures IsFirstHit(seen + tail, stops, Some(e))
  {
    HitInLonger(seen, stops, e, tail);
    forall i | i < e ensures !HitAt(seen + tail, stops, i) {
      if HitAt(seen + tail, stops, i) {
        var k :| 0 <= k < |stops| && OccursAt(seen + tail, stops[k], i);
        if i + |stops[k]| <= |seen| {
          OccursInPrefix(seen, stops[k], i, tail);
          assert HitAt(seen, stops, i);
        } else {
          var m := |seen| - i;
          assert stops[k][..m] == seen[i..];
          assert seen == seen[..i] + seen[i..];
          HitShifted(seen[..i], seen[i..], stops, e - i);
          HitShifted(seen[..i], seen[i..], stops, 0);
          assert Overtaken(stops, stops[k][..m]);
        }
      }
    }
  }

  /** The filter's state in terms of the content it has been given so far. */
  ghost predicate Tracks(stops: seq<string>, f: Filter, seen: string) {
    if f.stopped then
      && |f.sent| <= |seen| && f.sent == seen[..|f.sent|] && IsFirstHit(seen, stops, Some(|f.sent|))
    else
      && seen == f.sent + f.hold
      && (forall i :: !HitAt(seen, stops, i))
      && (HoldLimit(stops) <= 0 ==> f.hold == "")
      && (HoldLimit(stops) > 0 ==> |f.hold| == HoldLimit(stops) || f.sent == "")
      && |f.hold| <= (if HoldLimit(stops) > 0 then HoldLimit(stops) else 0)
  }

  /** Hits in everything seen are the hits in the window that is searched. */
  lemma WindowHits(stops: seq<string>, f: Filter, seen: string, delta: string, i: int)
    requires stops != [] && !f.stopped && Tracks(stops, f, seen)
    ensures HitAt(seen + delta, stops, i) <==> i >= |f.sent| && HitAt(f.hold + delta, stops, i - |f.sent|)
  {
    assert seen + delta == f.sent + (f.hold + delta);
    if i >= |f.sent| { HitShifted(f.sent, f.hold + delta, stops, i - |f.sent|); }
    else if i >= 0 { NoHitBeforeHold(seen, delta, stops, i); }
  }

  lemma WindowFirstHit(stops: seq<string>, f: Filter, seen: string, delta: string)
    requires stops != [] && !f.stopped && Tracks(stops, f, seen)
    ensures match FirstHit(f.hold + delta, stops)
            case None => IsFirstHit(seen + delta, stops, None)
            case Some(e) => IsFirstHit(seen + delta, stops, Some(|f.sent| + e)) && e <= |f.hold + delta|
  {
    var first := FirstHit(f.hold + delta, stops);
    forall i ensures HitAt(seen + delta, stops, i) <==> i >= |f.sent| && HitAt(f.hold + delta, stops, i - |f.sent|) {
      WindowHits(stops, f, seen, delta, i);
    }
    if first.Some? { assert HitAt(seen + delta, stops, |f.sent| + first.value); }
  }

  lemma CutTracks(stops: seq<string>, f: Filter, seen: string, delta: string, e: nat)
    requires stops != [] && !f.stopped && Tracks(stops, f, seen)
    requires FirstHit(f.hold + delta, stops) == Some(e)
    ensures Tracks(stops, Fed(stops, f, delta), seen + delta)
  {
    hide IsFirstHit, FirstHit, Fed, Tracks;
    WindowFirstHit(stops, f, seen, delta);
    var combined := f.hold + delta;
    FedAtHit(stops, f, delta, e);
    SeenIsSentAndHeld(stops, f, seen, delta);
    CutIsPrefix(f.sent, combined, e);
    StoppedTracks(stops, f.sent + combined[..e], seen + delta);
  }

  lemma FedAtHit(stops: seq<string>, f: Filter, delta: string, e: nat)
    requires stops != [] && !f.stopped && e <= |f.hold + delta| && FirstHit(f.hold + delta, stops) == Some(e)
    ensures Fed(stops, f, delta) == Filter("", true, f.sent + (f.hold + delta)[..e])
  {
    hide FirstHit;
  }

  lemma SeenIsSentAndHeld(stops: seq<string>, f: Filter, seen: string, delta: string)
    requires !f.stopped && Tracks(stops, f, seen)
    ensures seen + delta == f.sent + (f.hold + delta)
  {
    assert seen == f.sent + f.hold;
    hide Tracks;
  }

  lemma StoppedTracks(stops: seq<string>, sent: string, seen: string)
    requires |sent| <= |seen| && sent == seen[..|sent|] && IsFirstHit(seen, stops, Some(|sent|))
    ensures Tracks(stops, Filter("", true, sent), seen)
  {
  }

  lemma CutIsPrefix(a: string, b: string, e: nat)
    requires e <= |b|
    ensures (a + b)[..|a| + e] == a + b[..e]
  {
  }

  lemma HoldTracks(stops: seq<string>, f: Filter, seen: string, delta: string)
    requires stops != [] && !f.stopped && Tracks(stops, f, seen)
    requires FirstHit(f.hold + delta, stops).None?
    ensures Tracks(stops, Fed(stops, f, delta), seen + delta)
  {
    WindowFirstHit(stops, f, seen, delta);
    assert forall i :: !HitAt(seen + delta, stops, i);
    hide HitAt, HoldLimit, FirstHit;
    var combined, limit := f.hold + delta, HoldLimit(stops);
    assert seen + delta == f.sent + combined;
    if limit > 0 {
      var cut := if |combined| > limit then |combined| - limit else 0;
      assert f.sent + combined == (f.sent + combined[..cut]) + combined[cut..];
      assert Fed(stops, f, delta) == Filter(combined[cut..], false, f.sent + combined[..cut]);
    } else {
      assert Fed(stops, f, delta) == Filter("", false, f.sent + combined);
    }
  }

  lemma FedTracks(stops: seq<string>, f: Filter, seen: string, delta: string)
    requires stops != [] && NeverOvertaken(stops) && Tracks(stops, f, seen)
    ensures Tracks(stops, Fed(stops, f, delta), seen + delta)
  {
    if f.stopped {
      FirstHitSettles(stops, seen, |f.sent|, delta);
      assert (seen + delta)[..|f.sent|] == seen[..|f.sent|];
    } else {
      match FirstHit(f.hold + delta, stops)
      case Some(e) => CutTracks(stops, f, seen, delta, e);
      case None => HoldTracks(stops, f, seen, delta);
    }
  }

  lemma {:induction false} AllTrack(stops: seq<string>, chunks: seq<string>)
    requires stops != [] && NeverOvertaken(stops) && forall i :: !HitAt("", stops, i)
    ensures Tracks(stops, FedAll(stops, Filter("", false, ""), chunks), Concat(chunks))
  {
    if chunks != [] {
      var init, last := chunks[..|chunks| - 1], chunks[|chunks| - 1];
      AllTrack(stops, init);
      FedTracks(stops, FedAll(stops, Filter("", false, ""), init), Concat(init), last);
      assert chunks == init + [last];
      ConcatAppend(init, [last]);
      assert Concat([last]) == last;
    }
  }

  lemma {:induction false} WithoutStops(chunks: seq<string>)
    ensures FedAll([], Filter("", false, ""), chunks) == Filter("", false, Concat(chunks))
  {
    if chunks != [] {
      var init, last := chunks[..|chunks| - 1], chunks[|chunks| - 1];
      WithoutStops(init);
      assert chunks == init + [last];
      ConcatAppend(init, [last]);
      assert Concat([last]) == last;
    }
  }

  /** An empty stop string cuts everything, in both forms. */
  lemma {:induction false} EmptyStop(stops: seq<string>, chunks: seq<string>)
    requires HitAt("", stops, 0)
    ensures var f := FedAll(stops, Filter("", false, ""), chunks); f.hold == "" && f.sent == ""
  {
    if chunks != [] {
      var last := chunks[|chunks| - 1];
      EmptyStop(stops, chunks[..|chunks| - 1]);
      HitInLonger("", stops, 0, last);
      assert "" + last == last;
    }
  }

  lemma OneShotOfHit(stops: seq<string>, content: string)
    requires HitAt(content, stops, 0)
    ensures OneShot(content, stops) == ""
  {
    assert forall i :: i < 0 ==> !HitAt(content, stops, i);
  }

  lemma StreamingIsOneShot(stops: seq<string>, chunks: seq<string>)
    requires NeverOvertaken(stops)
    ensures Streamed(stops, chunks) == OneShot(Concat(chunks), stops)
  {
    if stops == [] {
      WithoutStops(chunks);
    } else if HitAt("", stops, 0) {
      EmptyStop(stops, chunks);
      HitInLonger("", stops, 0, Concat(chunks));
      assert "" + Concat(chunks) == Concat(chunks);
      OneShotOfHit(stops, Concat(chunks));
    } else {
      assert forall i :: i != 0 ==> !HitAt("", stops, i);
      AllTrack(stops, chunks);
    }
  }

  /** A stop string overtaken inside its own prefix gives a content and a chunking on which the
      stream sends text that the one-shot cut removes. */
  lemma OvertakenDiffers(stops: seq<string>, k: nat, m: nat)
    requires k < |stops| && m < |stops[k]| && Overtaken(stops, stops[k][..m])
    ensures var chunks := [stops[k][..m], stops[k][m..]];
            Streamed(stops, chunks) != "" && OneShot(Concat(chunks), stops) == ""
  {
    var a, b := stops[k][..m], stops[k][m..];
    assert a + b == stops[k];
    OvertakenHit(stops, a);
    OpensWithHit(stops, k);
    hide FirstHit, HitAt, Overtaken, Streamed, OneShot;
    TwoChunks(stops, a, b);
    assert a[..FirstHit(a, stops).value] != "";
  }

  lemma OpensWithHit(stops: seq<string>, k: nat)
    requires k < |stops|
    ensures OneShot(stops[k], stops) == ""
  {
    assert OccursAt(stops[k], stops[k], 0);
    OneShotOfHit(stops, stops[k]);
  }

  lemma OvertakenHit(stops: seq<string>, s: string)
    requires Overtaken(stops, s)
    ensures stops != [] && FirstHit(s, stops).Some? && 0 < FirstHit(s, stops).value <= |s|
  {
    var e := FirstHit(s, stops);
    var j :| 0 <= j < |stops| && OccursAt(s, stops[j], e.value);
  }

  lemma TwoChunks(stops: seq<string>, a: string, b: string)
    ensures Concat([a, b]) == a + b
    ensures stops != [] && FirstHit(a, stops).Some? && FirstHit(a, stops).value <= |a| ==>
              Streamed(stops, [a, b]) == a[..FirstHit(a, stops).value]
  {
    var start := Filter("", false, "");
    assert [a, b][1..] == [b] && Concat([b]) == b + Concat([]) == b;
    assert [a, b][..1] == [a] && [a][..0] == [];
    assert "" + a == a;
    assert FedAll(stops, start, [a]) == Fed(stops, start, a);
  }

  /** The exact condition: streaming equals the one-shot cut for every content and every way of
      chopping it up if and only if no stop string can be overtaken. */
  lemma StreamingIsOneShotExactly(stops: seq<string>)
    ensures NeverOvertaken(stops) <==>
            forall chunks: seq<string> :: Streamed(stops, chunks) == OneShot(Concat(chunks), stops)
  {
    if NeverOvertaken(stops) {
      forall chunks: seq<string> ensures Streamed(stops, chunks) == OneShot(Concat(chunks), stops) {
        StreamingIsOneShot(stops, chunks);
      }
    } else {
      var k, m :| 0 <= k < |stops| && 0 <= m < |stops[k]| && Overtaken(stops, stops[k][..m]);
      OvertakenDiffers(stops, k, m);
      var chunks := [stops[k][..m], stops[k][m..]];
      assert Streamed(stops, chunks) != OneShot(Concat(chunks), stops);
    }
  }

  /** In particular stop strings of one common length are safe. */
  lemma CommonLengthIsSafe(stops: seq<string>, n: nat)
    requires forall k :: 0 <= k < |stops| ==> |stops[k]| == n
    ensures forall chunks: seq<string> :: Streamed(stops, chunks) == OneShot(Concat(chunks), stops)
  {
    forall k, m | 0 <= k < |stops| && 0 <= m < |stops[k]| ensures !Overtaken(stops, stops[k][..m]) {
      forall i ensures !HitAt(stops[k][..m], stops, i) {}
    }
    StreamingIsOneShotExactly(stops);
  }
}
