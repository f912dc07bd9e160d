/** The prefix snapshot cache: an ordered table of KV snapshots keyed by a hash of the tokens. Every
    method is one lock-held section, so any interleaving of callers is a sequence of these calls. */
module PrefixCache {
  import opened Multiples
  import opened Texts

  /** An entry under its key; `buffers` is the snapshot taken for exactly these tokens. */
  datatype Slot<K, B> = Slot(key: K, pos: nat, tokens: seq<int>, buffers: B, age: nat)

  /** What a capture stored. */
  datatype Capture<B> = Capture(tokens: seq<int>, buffers: B)

  /** What the first half of a capture finds. */
  datatype Probe = Refused | Known | Missing

  datatype Hint<K> = Hint(matchKey: Option<K>, matchPos: nat, capturePositions: seq<nat>)

  function IndexOf<K(==), B>(slots: seq<Slot<K, B>>, key: K): (i: int)
    ensures i == -1 || (0 <= i < |slots| && slots[i].key == key)
    ensures i == -1 ==> forall j :: 0 <= j < |slots| ==> slots[j].key != key
  {
    if slots == [] then -1
    else if slots[|slots| - 1].key == key then |slots| - 1
    else IndexOf(slots[..|slots| - 1], key)
  }

  /** move_to_end and a new age. */
  function Touch<K, B>(slots: seq<Slot<K, B>>, i: nat, age: nat): seq<Slot<K, B>>
    requires i < |slots|
  {
    slots[..i] + slots[i + 1..] + [slots[i].(age := age)]
  }

  /** Assigning to a key of an OrderedDict: an existing key keeps its place. */
  function Store<K(==), B>(slots: seq<Slot<K, B>>, s: Slot<K, B>): seq<Slot<K, B>> {
    var i := IndexOf(slots, s.key);
    if i == -1 then slots + [s] else slots[i := s]
  }

  /** The newest `most` slots by place. */
  function Trim<K, B>(slots: seq<Slot<K, B>>, most: nat): seq<Slot<K, B>> {
    if |slots| <= most then slots else slots[|slots| - most..]
  }

  // ----- the invariants -----

  ghost predicate DistinctKeys<K, B>(slots: seq<Slot<K, B>>) {
    forall i, j :: 0 <= i < j < |slots| ==> slots[i].key != slots[j].key
  }

  ghost predicate WellStored<K, B>(slots: seq<Slot<K, B>>, hash: seq<int> -> K, block: nat, least: nat)
    requires block > 0
  {
    forall i :: 0 <= i < |slots| ==>
      && slots[i].pos == |slots[i].tokens| >= least && slots[i].pos % block == 0
      && slots[i].key == hash(slots[i].tokens)
  }

  /** The order of the table is the order of last use. */
  ghost predicate ByAge<K, B>(slots: seq<Slot<K, B>>, tick: nat) {
    && (forall i :: 0 <= i < |slots| ==> slots[i].age <= tick)
    && forall i, j :: 0 <= i < j < |slots| ==> slots[i].age < slots[j].age
  }

  /** Every snapshot was taken for the tokens it is stored with. */
  ghost predicate CapturesIn<K, B>(slots: seq<Slot<K, B>>, captured: set<Capture<B>>) {
    forall i :: 0 <= i < |slots| ==> Capture(slots[i].tokens, slots[i].buffers) in captured
  }

  lemma KeyIsUnique<K, B>(slots: seq<Slot<K, B>>, key: K, i: nat)
    requires DistinctKeys(slots) && i < |slots| && slots[i].key == key
    ensures IndexOf(slots, key) == i
  {
  }

  /** The entry for these tokens has been used: it is last, with the new age, and the others have kept
      their order. */
  ghost predicate Used<K, B>(before: seq<Slot<K, B>>, after: seq<Slot<K, B>>, tokens: seq<int>, age: nat) {
    exists i :: 0 <= i < |before| && before[i].tokens == tokens && MovedLast(before, after, i, age)
  }

  ghost predicate MovedLast<K, B>(before: seq<Slot<K, B>>, after: seq<Slot<K, B>>, i: nat, age: nat)
    requires i < |before|
  {
    && |after| == |before| && after[|after| - 1] == before[i].(age := age)
    && (forall j :: 0 <= j < i ==> after[j] == before[j])
    && forall j :: i <= j < |after| - 1 ==> after[j] == before[j + 1]
  }

  lemma TouchUses<K, B>(slots: seq<Slot<K, B>>, i: nat, age: nat)
    requires i < |slots|
    ensures Used(slots, Touch(slots, i, age), slots[i].tokens, age)
  {
    assert MovedLast(slots, Touch(slots, i, age), i, age);
  }

  lemma TouchKeepsSize<K, B>(slots: seq<Slot<K, B>>, i: nat, age: nat)
    requires i < |slots|
    ensures |Touch(slots, i, age)| == |slots|
  {
  }

  lemma TouchKeeps<K, B>(slots: seq<Slot<K, B>>, hash: seq<int> -> K, block: nat, least: nat, i: nat, tick: nat)
    requires block > 0 && i < |slots| && DistinctKeys(slots) && WellStored(slots, hash, block, least)
    ensures DistinctKeys(Touch(slots, i, tick + 1)) && WellStored(Touch(slots, i, tick + 1), hash, block, least)
    ensures ByAge(slots, tick) ==> ByAge(Touch(slots, i, tick + 1), tick + 1)
  {
  }

  lemma TouchCaptures<K, B>(slots: seq<Slot<K, B>>, captured: set<Capture<B>>, i: nat, age: nat)
    requires i < |slots| && CapturesIn(slots, captured)
    ensures CapturesIn(Touch(slots, i, age), captured)
  {
  }

  /** Touching reorders and nothing else: every slot stays, with its tokens and its snapshot. */
  lemma TouchKeepsSlots<K, B>(slots: seq<Slot<K, B>>, i: nat, age: nat, j: nat)
    requires i < |slots| && j < |slots|
    ensures var k := if j < i then j else if j == i then |slots| - 1 else j - 1;
            |Touch(slots, i, age)| == |slots| && Touch(slots, i, age)[k].(age := slots[j].age) == slots[j]
  {
  }

  lemma StoreKeeps<K, B>(slots: seq<Slot<K, B>>, hash: seq<int> -> K, block: nat, least: nat, s: Slot<K, B>)
    requires block > 0 && DistinctKeys(slots)
    requires WellStored(slots, hash, block, least) && WellStored([s], hash, block, least)
    ensures DistinctKeys(Store(slots, s)) && WellStored(Store(slots, s), hash, block, least)
  {
    assert [s][0] == s;
  }

  lemma TrimKeeps<K, B>(slots: seq<Slot<K, B>>, hash: seq<int> -> K, block: nat, least: nat, most: nat)
    requires block > 0 && DistinctKeys(slots) && WellStored(slots, hash, block, least)
    ensures DistinctKeys(Trim(slots, most)) && WellStored(Trim(slots, most), hash, block, least)
    ensures |Trim(slots, most)| <= most
  {
  }

  lemma TrimByAge<K, B>(slots: seq<Slot<K, B>>, most: nat, tick: nat)
    requires ByAge(slots, tick)
    ensures ByAge(Trim(slots, most), tick)
  {
  }

  /** No entry but the newest holds the key: the guard of an assignment that keeps the order. */
  predicate KeepsOrder<K(==), B>(slots: seq<Slot<K, B>>, key: K) {
    IndexOf(slots, key) == -1 || IndexOf(slots, key) == |slots| - 1
  }

  /** Storing a newest entry keeps the order of last use if and only if no entry other than the
      newest holds its key. */
  lemma StoreKeepsOrderExactly<K, B>(slots: seq<Slot<K, B>>, s: Slot<K, B>, tick: nat)
    requires ByAge(slots, tick) && s.age == tick + 1
    ensures ByAge(Store(slots, s), tick + 1) <==> KeepsOrder(slots, s.key)
  {
    var i := IndexOf(slots, s.key);
    if 0 <= i < |slots| - 1 { assert Store(slots, s)[i].age > Store(slots, s)[i + 1].age; }
  }

  /** The entry that goes first is the least recently used one if and only if the new entry's key
      was not the first entry's. */
  lemma FirstToGoIsLeastRecentExactly<K, B>(slots: seq<Slot<K, B>>, s: Slot<K, B>, tick: nat)
    requires ByAge(slots, tick) && s.age == tick + 1 && |slots| >= 2
    ensures var all := Store(slots, s);
            (forall j :: 1 <= j < |all| ==> all[0].age < all[j].age) <==> IndexOf(slots, s.key) != 0
  {
    if IndexOf(slots, s.key) == 0 { assert Store(slots, s)[0].age > Store(slots, s)[1].age; }
  }

  lemma StoredLast<K, B>(slots: seq<Slot<K, B>>, s: Slot<K, B>)
    requires KeepsOrder(slots, s.key)
    ensures var all := Store(slots, s); |all| > 0 && all[|all| - 1] == s
  {
  }

  /** Storing under a key that no entry but the newest holds evicts only slots used less recently
      than every slot kept, and never the new one. */
  lemma EvictsLeastRecent<K, B>(slots: seq<Slot<K, B>>, s: Slot<K, B>, most: nat, tick: nat)
    requires ByAge(slots, tick) && s.age == tick + 1 && KeepsOrder(slots, s.key) && most > 0
    ensures var all := Store(slots, s); var cut := |all| - |Trim(all, most)|;
            && Trim(all, most) == all[cut..] && s in all[cut..]
            && forall i, j :: 0 <= i < cut <= j < |all| ==> all[i].age < all[j].age
  {
    StoreKeepsOrderExactly(slots, s, tick);
    StoredLast(slots, s);
    hide Store;
    var all := Store(slots, s);
    var cut := |all| - |Trim(all, most)|;
    assert Trim(all, most) == all[cut..];
    assert all[cut..][|all| - cut - 1] == s;
  }

  /** With a collision the new slot takes the place of the old one, and can be the next to go
      although it is the newest: four keys suffice. */
  lemma CollisionEvictsNewest()
    ensures var h: seq<int> -> nat := t => if |t| <= 2 then 1 else |t|;
            var a, b := Slot(1, 1, [7], 'a', 1), Slot(3, 3, [7, 7, 7], 'b', 2);
            var fresh1, next := Slot(1, 2, [8, 8], 'c', 3), Slot(4, 4, [9, 9, 9, 9], 'd', 4);
            var before := [a, b];
            && WellStored(before, h, 1, 1) && ByAge(before, 2)
            && var after := Trim(Store(before, fresh1), 2);
               && WellStored(after, h, 1, 1) && !ByAge(after, 3)
               && fresh1 in after && fresh1 !in Trim(Store(after, next), 2)
  {
    var a, b := Slot(1, 1, [7], 'a', 1), Slot(3, 3, [7, 7, 7], 'b', 2);
    var fresh1, next := Slot(1, 2, [8, 8], 'c', 3), Slot(4, 4, [9, 9, 9, 9], 'd', 4);
    var before := [a, b];
    assert before[..1] == [a] && IndexOf([a], 1) == 0 && IndexOf(before, 1) == 0;
    assert Store(before, fresh1) == [fresh1, b];
    var after := [fresh1, b];
    assert Trim(after, 2) == after && after[0] == fresh1;
    assert after[..1] == [fresh1] && [fresh1][..0] == [] && IndexOf([fresh1], 4) == -1 && IndexOf(after, 4) == -1;
    assert Store(after, next) == [fresh1, b, next];
    assert Trim([fresh1, b, next], 2) == [b, next];
    assert fresh1 != b && fresh1 != next;
  }

  // ----- lookups -----

  /** A hint can be restored: its entry is still there and holds the prompt's first tokens. */
  ghost predicate Restorable<K, B>(slots: seq<Slot<K, B>>, hint: Option<Hint<K>>, tokens: seq<int>) {
    && hint.Some? && hint.value.matchKey.Some? && 0 < hint.value.matchPos < |tokens|
    && exists i :: 0 <= i < |slots| && slots[i].key == hint.value.matchKey.value && slots[i].pos == hint.value.matchPos
                   && slots[i].tokens == tokens[..hint.value.matchPos]
  }

  ghost predicate Holds<K, B>(slots: seq<Slot<K, B>>, prefix: seq<int>) {
    exists i :: 0 <= i < |slots| && slots[i].tokens == prefix
  }

  lemma TouchStillHolds<K, B>(slots: seq<Slot<K, B>>, i: nat, age: nat)
    requires i < |slots|
    ensures Holds(Touch(slots, i, age), slots[i].tokens)
  {
    assert Touch(slots, i, age)[|slots| - 1].tokens == slots[i].tokens;
  }

  lemma StoreThenTrimHolds<K, B>(slots: seq<Slot<K, B>>, s: Slot<K, B>, most: nat)
    requires 0 < most && |slots| <= most
    ensures s in Trim(Store(slots, s), most)
  {
    var all := Store(slots, s);
    var i := IndexOf(slots, s.key);
    if i == -1 {
      assert Trim(all, most)[|Trim(all, most)| - 1] == s;
    } else {
      assert Trim(all, most)[i] == s;
    }
  }

  /** The position of a stored proper prefix of the prompt. */
  ghost predicate StoredPrefix<K, B>(slots: seq<Slot<K, B>>, prompt: seq<int>, n: nat) {
    n < |prompt| && exists i :: 0 <= i < |slots| && slots[i].tokens == prompt[..n]
  }

  /** The early answer loses nothing: a prompt too short to capture has no stored prefix. */
  lemma ShortPromptHasNoPrefix<K, B>(
      slots: seq<Slot<K, B>>, hash: seq<int> -> K, block: nat, least: nat, prompt: seq<int>, n: nat)
    requires block > 0 && WellStored(slots, hash, block, least)
    requires prompt == [] || RoundDown(|prompt|, block) < least
    ensures !StoredPrefix(slots, prompt, n)
  {
    if n < |prompt| && n % block == 0 { RoundDownIsGreatest(|prompt|, block, n); }
  }

  /** A stored prefix is found under the hash of the prompt's own tokens, so one probe at each block
      boundary decides. */
  lemma ProbeDecides<K, B>(
      slots: seq<Slot<K, B>>, hash: seq<int> -> K, block: nat, least: nat, prompt: seq<int>, n: nat)
    requires block > 0 && DistinctKeys(slots) && WellStored(slots, hash, block, least) && n < |prompt|
    ensures StoredPrefix(slots, prompt, n)
       <==> var i := IndexOf(slots, hash(prompt[..n])); i != -1 && slots[i].tokens == prompt[..n]
  {
    if StoredPrefix(slots, prompt, n) {
      var i :| 0 <= i < |slots| && slots[i].tokens == prompt[..n];
      KeyIsUnique(slots, hash(prompt[..n]), i);
    }
  }

  class Cache<K(==), B> {
    var slots: seq<Slot<K, B>>
    var tick: nat
    const block: nat
    const maxEntries: nat
    const minTokens: nat
    const hash: seq<int> -> K
    ghost var captured: set<Capture<B>>

    ghost predicate Valid()
      reads this
    {
      && 0 < block <= minTokens && maxEntries > 0 && |slots| <= maxEntries
      && DistinctKeys(slots) && WellStored(slots, hash, block, minTokens)
      && CapturesIn(slots, captured)
    }

    constructor (block: int, maxEntries: int, minTokens: int, hash: seq<int> -> K)
      ensures Valid() && slots == [] && ByAge(slots, tick)
    {
      this.block := if block > 1 then block else 1;
      this.maxEntries := if maxEntries > 1 then maxEntries else 1;
      var b := if block > 1 then block else 1;
      this.minTokens := if minTokens > b then minTokens else b;
      this.hash := hash;
      slots, tick, captured := [], 0, {};
    }

    /** The touch shared by all sections. */
    method TouchSlot(i: nat)
      requires Valid() && i < |slots|
      modifies this
      ensures Valid() && captured == old(captured) && tick == old(tick) + 1
      ensures slots == Touch(old(slots), i, tick) && Used(old(slots), slots, old(slots)[i].tokens, tick)
      ensures old(ByAge(slots, tick)) ==> ByAge(slots, tick)
    {
      hide Touch, Used, DistinctKeys, WellStored, CapturesIn, ByAge;
      TouchUses(slots, i, tick + 1);
      TouchKeeps(slots, hash, block, minTokens, i, tick);
      TouchKeepsSize(slots, i, tick + 1);
      ghost var before := slots;
      slots := Touch(slots, i, tick + 1);
      tick := tick + 1;
      TouchCaptures(before, captured, i, tick);
    }

    method LookupHint(tokens: seq<int>, captureAll: bool) returns (hint: Option<Hint<K>>)
      requires Valid()
      modifies this
      ensures Valid() && captured == old(captured)
      ensures hint.None? <==> tokens == [] || RoundDown(|tokens|, block) < minTokens
      ensures hint.None? ==> slots == old(slots) && tick == old(tick)
      ensures hint.None? ==> forall n: nat :: !StoredPrefix(old(slots), tokens, n)
      ensures hint.Some? ==> forall n: nat :: StoredPrefix(old(slots), tokens, n) ==> n <= hint.value.matchPos
      ensures hint.Some? && !captureAll ==> hint.value.capturePositions == [RoundDown(|tokens|, block)]
      ensures hint.Some? && captureAll ==>
                var ps := hint.value.capturePositions;
                && (forall p :: p in ps <==> 0 < p <= RoundDown(|tokens|, block) && p % block == 0)
                && forall i, j :: 0 <= i < j < |ps| ==> ps[i] < ps[j]
      ensures hint.Some? && hint.value.matchPos == 0 ==>
                hint.value.matchKey == None && slots == old(slots) && tick == old(tick)
      ensures hint.Some? && hint.value.matchPos > 0 ==>
                StoredPrefix(old(slots), tokens, hint.value.matchPos)
                  && hint.value.matchKey == Some(hash(tokens[..hint.value.matchPos]))
      ensures hint.Some? && hint.value.matchPos > 0 ==>
                tick == old(tick) + 1 && Used(old(slots), slots, tokens[..hint.value.matchPos], tick)
      ensures old(ByAge(slots, tick)) ==> ByAge(slots, tick)
    {
      hide RoundDown, StoredPrefix, ByAge, Used, Touch;
      if tokens == [] {
        forall n: nat ensures !StoredPrefix(slots, tokens, n) {
          ShortPromptHasNoPrefix(slots, hash, block, minTokens, tokens, n);
        }
        return None;
      }
      var capturePos := RoundDown(|tokens|, block);
      if capturePos < minTokens {
        forall n: nat ensures !StoredPrefix(slots, tokens, n) {
          ShortPromptHasNoPrefix(slots, hash, block, minTokens, tokens, n);
        }
        return None;
      }
      var matchPos, matchKey := LongestMatch(tokens);
      var positions := if captureAll then Positions(capturePos) else [capturePos];
      hint := Some(Hint(matchKey, matchPos, positions));
    }

    /** The block multiples up to the last one. */
    function Positions(last: nat): (ps: seq<nat>)
      requires block > 0 && last % block == 0
      ensures forall p :: p in ps <==> 0 < p <= last && p % block == 0
      ensures forall i, j :: 0 <= i < j < |ps| ==> ps[i] < ps[j]
      decreases last
    {
      if last == 0 then []
      else
        LastBlock(last);
        var before := Positions(last - block);
        assert forall i :: 0 <= i < |before| ==> before[i] in before;
        before + [last]
    }

    lemma LastBlock(last: nat)
      requires block > 0 && last > 0 && last % block == 0
      ensures last >= block && (last - block) % block == 0
      ensures forall p: nat :: p < last && p % block == 0 ==> p <= last - block
    {
      MultiplesApart(0, last, block);
      AddBlock(last - block, block);
      forall p: nat | p < last && p % block == 0 ensures p <= last - block { MultiplesApart(p, last, block); }
    }

    /** The scan under the lock, from the last block boundary in front of the prompt's end. */
    method LongestMatch(tokens: seq<int>) returns (matchPos: nat, matchKey: Option<K>)
      requires Valid() && tokens != []
      modifies this
      ensures Valid() && captured == old(captured)
      ensures forall n: nat :: StoredPrefix(old(slots), tokens, n) ==> n <= matchPos
      ensures matchPos == 0 ==> matchKey == None && slots == old(slots) && tick == old(tick)
      ensures matchPos > 0 ==>
                StoredPrefix(old(slots), tokens, matchPos) && matchKey == Some(hash(tokens[..matchPos]))
      ensures matchPos > 0 ==> tick == old(tick) + 1 && Used(old(slots), slots, tokens[..matchPos], tick)
      ensures old(ByAge(slots, tick)) ==> ByAge(slots, tick)
    {
      hide RoundDown, StoredPrefix, ByAge, Used, Touch;
      matchPos, matchKey := 0, None;
      var n := RoundDown(|tokens| - 1, block);
      BoundedByStart(tokens, n);
      while n >= block
        invariant 0 <= n < |tokens| && n % block == 0 && slots == old(slots) && tick == old(tick)
                  && captured == old(captured)
        invariant forall m: nat :: StoredPrefix(slots, tokens, m) ==> m <= n
      {
        var key := hash(tokens[..n]);
        var i := IndexOf(slots, key);
        ProbeDecides(slots, hash, block, minTokens, tokens, n);
        if i != -1 && slots[i].tokens == tokens[..n] {
          TouchSlot(i);
          return n, Some(key);
        }
        StepDown(tokens, n);
        n := n - block;
      }
      NothingLeft(tokens, n);
    }

    lemma BoundedByStart(tokens: seq<int>, start: nat)
      requires Valid() && tokens != [] && start == RoundDown(|tokens| - 1, block)
      ensures start % block == 0 && start < |tokens|
      ensures forall m: nat :: StoredPrefix(slots, tokens, m) ==> m <= start
    {
      forall m: nat | StoredPrefix(slots, tokens, m) ensures m <= start { RoundDownIsGreatest(|tokens| - 1, block, m); }
    }

    lemma StepDown(tokens: seq<int>, n: nat)
      requires Valid() && n >= block && n % block == 0 && n < |tokens|
      requires !StoredPrefix(slots, tokens, n) && forall m: nat :: StoredPrefix(slots, tokens, m) ==> m <= n
      ensures (n - block) % block == 0 && forall m: nat :: StoredPrefix(slots, tokens, m) ==> m <= n - block
    {
      AddBlock(n - block, block);
      forall m: nat | StoredPrefix(slots, tokens, m) ensures m <= n - block {
        MultiplesApart(m, n, block);
      }
    }

    lemma NothingLeft(tokens: seq<int>, n: nat)
      requires Valid() && n < block && forall m: nat :: StoredPrefix(slots, tokens, m) ==> m <= n
      ensures forall m: nat :: StoredPrefix(slots, tokens, m) ==> m <= 0
    {
    }

    /** `restore`'s section. The snapshot returned was captured for exactly the prompt's first p
        tokens, whatever happened since the hint was made. */
    method Restore(hint: Option<Hint<K>>, tokens: seq<int>) returns (p: nat, buffers: Option<B>)
      requires Valid()
      modifies this
      ensures Valid() && captured == old(captured)
      ensures p > 0 ==> p < |tokens| && buffers.Some? && Capture(tokens[..p], buffers.value) in captured
      ensures p > 0 <==> Restorable(old(slots), hint, tokens)
      ensures p > 0 ==> p == hint.value.matchPos
      ensures p > 0 ==> tick == old(tick) + 1 && Used(old(slots), slots, tokens[..p], tick)
      ensures p > 0 ==> slots != [] && buffers == Some(slots[|slots| - 1].buffers)
      ensures p == 0 ==> buffers == None && slots == old(slots) && tick == old(tick)
      ensures old(ByAge(slots, tick)) ==> ByAge(slots, tick)
    {
      hide ByAge, Restorable, DistinctKeys, WellStored, CapturesIn, Used, Store, Trim;
      if hint.None? || hint.value.matchKey.None? || hint.value.matchPos == 0 {
        NoHint(hint, tokens);
        return 0, None;
      }
      var i := IndexOf(slots, hint.value.matchKey.value);
      IsRestorable(hint, tokens, i);
      if i == -1 || slots[i].pos != hint.value.matchPos || slots[i].pos >= |tokens|
         || slots[i].tokens != tokens[..slots[i].pos] {
        return 0, None;
      }
      IsCaptured(i);
      buffers := Some(slots[i].buffers);
      p := slots[i].pos;
      TouchSlot(i);
    }

    lemma NoHint(hint: Option<Hint<K>>, tokens: seq<int>)
      requires hint.None? || hint.value.matchKey.None? || hint.value.matchPos == 0
      ensures !Restorable(slots, hint, tokens)
    {
    }

    lemma IsCaptured(i: nat)
      requires Valid() && i < |slots|
      ensures Capture(slots[i].tokens, slots[i].buffers) in captured
    {
    }

    /** The one entry under the hint's key decides. */
    lemma IsRestorable(hint: Option<Hint<K>>, tokens: seq<int>, i: int)
      requires Valid() && hint.Some? && hint.value.matchKey.Some? && hint.value.matchPos > 0
      requires i == IndexOf(slots, hint.value.matchKey.value)
      ensures Restorable(slots, hint, tokens)
         <==> i != -1 && slots[i].pos == hint.value.matchPos < |tokens|
              && slots[i].tokens == tokens[..slots[i].pos]
    {
      forall j | 0 <= j < |slots| && slots[j].key == hint.value.matchKey.value ensures j == i {
        KeyIsUnique(slots, hint.value.matchKey.value, j);
      }
    }

    predicate Capturable(tokens: seq<int>, pos: int)
      requires block > 0
    { 0 < pos <= |tokens| && pos % block == 0 && pos >= minTokens }

    /** `capture` up to the snapshot: positions it does not capture are refused, and there is
        nothing to do if the prefix is stored already. */
    method CaptureProbe(tokens: seq<int>, pos: int) returns (probe: Probe)
      requires Valid()
      modifies this
      ensures Valid() && captured == old(captured)
      ensures probe == Refused <==> !Capturable(tokens, pos)
      ensures probe == Known <==> Capturable(tokens, pos) && Holds(old(slots), tokens[..pos])
      ensures probe == Known ==>
                Holds(slots, tokens[..pos]) && tick == old(tick) + 1 && Used(old(slots), slots, tokens[..pos], tick)
      ensures probe != Known ==> slots == old(slots) && tick == old(tick)
      ensures old(ByAge(slots, tick)) ==> ByAge(slots, tick)
    {
      hide ByAge, Touch, DistinctKeys, WellStored, CapturesIn, Holds, Used;
      if pos <= 0 || pos > |tokens| || pos % block != 0 { return Refused; }
      if pos < minTokens { return Refused; }
      var key := hash(tokens[..pos]);
      var i := IndexOf(slots, key);
      StoredUnderHash(tokens[..pos]);
      if i != -1 && slots[i].tokens == tokens[..pos] {
        TouchStillHolds(slots, i, tick + 1);
        TouchSlot(i);
        return Known;
      }
      return Missing;
    }

    lemma StoredUnderHash(prefix: seq<int>)
      requires Valid()
      ensures Holds(slots, prefix) <==> var i := IndexOf(slots, hash(prefix)); i != -1 && slots[i].tokens == prefix
    {
      if i :| 0 <= i < |slots| && slots[i].tokens == prefix { KeyIsUnique(slots, hash(prefix), i); }
    }

    /** `capture`'s second section, after the snapshot was taken without the lock. */
    method CaptureCommit(tokens: seq<int>, pos: int, snapshot: B)
      requires Valid() && Capturable(tokens, pos)
      modifies this
      ensures Valid()
      ensures |slots| <= maxEntries
      ensures Holds(slots, tokens[..pos])
      ensures tick == old(tick) + 1
      ensures Holds(old(slots), tokens[..pos]) ==>
                captured == old(captured) && Used(old(slots), slots, tokens[..pos], tick)
      ensures !Holds(old(slots), tokens[..pos]) ==>
                && captured == old(captured) + {Capture(tokens[..pos], snapshot)}
                && slots == Trim(Store(old(slots), Slot(hash(tokens[..pos]), pos, tokens[..pos], snapshot, tick)),
                   maxEntries)
      ensures old(ByAge(slots, tick)) ==>
                (ByAge(slots, tick)
                 <==> Holds(old(slots), tokens[..pos]) || KeepsOrder(old(slots), hash(tokens[..pos])))
    {
      hide ByAge, Store, Trim, Touch, Holds, DistinctKeys, WellStored, CapturesIn, KeepsOrder, Used;
      var prefix := tokens[..pos];
      var probe := CaptureProbe(tokens, pos);
      if probe == Known { return; }
      var s := Slot(hash(prefix), pos, prefix, snapshot, tick + 1);
      CommitKeeps(s);
      slots := Trim(Store(slots, s), maxEntries);
      tick := tick + 1;
      captured := captured + {Capture(prefix, snapshot)};
    }

    lemma CommitKeeps(s: Slot<K, B>)
      requires Valid() && s.pos == |s.tokens| >= minTokens && s.pos % block == 0 && s.key == hash(s.tokens)
      requires s.age == tick + 1
      ensures var after := Trim(Store(slots, s), maxEntries);
              && |after| <= maxEntries && DistinctKeys(after) && WellStored(after, hash, block, minTokens)
              && Holds(after, s.tokens) && CapturesIn(after, captured + {Capture(s.tokens, s.buffers)})
              && (ByAge(slots, tick) ==> (ByAge(after, tick + 1) <==> KeepsOrder(slots, s.key)))
    {
      StoreKeeps(slots, hash, block, minTokens, s);
      TrimKeeps(Store(slots, s), hash, block, minTokens, maxEntries);
      StoreThenTrimHolds(slots, s, maxEntries);
      HoldsIn(Trim(Store(slots, s), maxEntries), s);
      CommitCaptures(s);
      hide ByAge, Trim, Store, DistinctKeys, WellStored, Holds, CapturesIn;
      if ByAge(slots, tick) { CommitOrder(s); }
    }

    /** A colliding entry replaces one, so nothing is evicted in its favour. */
    lemma CommitOrder(s: Slot<K, B>)
      requires Valid() && ByAge(slots, tick) && s.age == tick + 1
      ensures ByAge(Trim(Store(slots, s), maxEntries), tick + 1) <==> KeepsOrder(slots, s.key)
    {
      StoreKeepsOrderExactly(slots, s, tick);
      if KeepsOrder(slots, s.key) {
        TrimByAge(Store(slots, s), maxEntries, tick + 1);
      } else {
        assert Trim(Store(slots, s), maxEntries) == Store(slots, s);
      }
    }

    lemma HoldsIn(after: seq<Slot<K, B>>, s: Slot<K, B>)
      requires s in after
      ensures Holds(after, s.tokens)
    {
    }

    lemma CommitCaptures(s: Slot<K, B>)
      requires CapturesIn(slots, captured)
      ensures CapturesIn(Trim(Store(slots, s), maxEntries), captured + {Capture(s.tokens, s.buffers)})
    {
    }
  }
}
