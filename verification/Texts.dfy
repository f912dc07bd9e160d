/** Occurrences of one sequence in another, and `find` as Python's str and C++'s std::string have it. */
module Texts {

  datatype Option<+T> = None | Some(value: T)

  type Byte = b: int | 0 <= b < 256
  type Bytes = seq<Byte>

  predicate OccursAt<T(==)>(text: seq<T>, p: seq<T>, i: int) {
    0 <= i <= |text| - |p| && text[i..i + |p|] == p
  }

  ghost predicate Contains<T>(text: seq<T>, p: seq<T>) { exists i :: OccursAt(text, p, i) }

  /** The first occurrence at or after `from`, or -1. */
  function Find<T(==)>(text: seq<T>, p: seq<T>, from: nat): (r: int)
    ensures r == -1 || (from <= r && OccursAt(text, p, r))
    ensures forall i :: from <= i && (r == -1 || i < r) ==> !OccursAt(text, p, i)
    decreases |text| - from
  {
    if OccursAt(text, p, from) then from
    else if from + |p| >= |text| then -1
    else Find(text, p, from + 1)
  }

  /** Where the first occurrence is, from knowing one and ruling out the earlier ones. */
  lemma FindIs<T>(text: seq<T>, p: seq<T>, from: nat, at: nat)
    requires from <= at && OccursAt(text, p, at)
    requires forall i :: from <= i < at ==> !OccursAt(text, p, i)
    ensures Find(text, p, from) == at
  {
  }

  lemma OccursInPrefix<T>(text: seq<T>, p: seq<T>, i: int, tail: seq<T>)
    requires OccursAt(text + tail, p, i) && i + |p| <= |text|
    ensures OccursAt(text, p, i)
  {
    assert (text + tail)[i..i + |p|] == text[i..i + |p|];
  }

  lemma OccursShifted<T>(head: seq<T>, text: seq<T>, p: seq<T>, i: int)
    requires i >= 0
    ensures OccursAt(text, p, i) <==> OccursAt(head + text, p, |head| + i)
  {
    if i <= |text| - |p| {
      assert (head + text)[|head| + i..|head| + i + |p|] == text[i..i + |p|];
    }
  }

  function Concat<T>(parts: seq<seq<T>>): seq<T> {
    if parts == [] then [] else parts[0] + Concat(parts[1..])
  }

  lemma {:induction false} ConcatAppend<T>(a: seq<seq<T>>, b: seq<seq<T>>)
    ensures Concat(a + b) == Concat(a) + Concat(b)
  {
    if a == [] {
      assert a + b == b;
    } else {
      assert (a + b)[1..] == a[1..] + b;
      ConcatAppend(a[1..], b);
    }
  }
}
