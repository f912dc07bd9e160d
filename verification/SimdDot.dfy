/** int8 dot products on 256-bit vectors: two instruction sequences, wrapping and saturating as the
    instructions do, against the mathematical dot product. */
module SimdDot {

  type Int8 = x: int | -128 <= x <= 127

  const INT32_MAX := 0x7FFF_FFFF

  predicate InInt32(x: int) { -INT32_MAX - 1 <= x <= INT32_MAX }

  function Wrap32(x: int): (r: int)
    ensures InInt32(r)
  {
    (x + 0x8000_0000) % 0x1_0000_0000 - 0x8000_0000
  }

  function Wrap16(x: int): int { (x + 0x8000) % 0x1_0000 - 0x8000 }

  function Product(x: int, y: int): int { x * y }

  function Magnitude(x: int): int { if x < 0 then -x else x }

  function Negated(x: int): Int8 { Wrap8(-x) }

  function Wrap8(x: int): Int8 { (x + 0x80) % 0x100 - 0x80 }

  function Saturate16(x: int): int { if x > 0x7FFF then 0x7FFF else if x < -0x8000 then -0x8000 else x }

  lemma WrapSmall(x: int)
    ensures InInt32(x) ==> Wrap32(x) == x
    ensures -0x8000 <= x <= 0x7FFF ==> Wrap16(x) == x && Saturate16(x) == x
  {
  }

  lemma WrapAdd(x: int, y: int)
    ensures Wrap32(Wrap32(x) + y) == Wrap32(x + y)
  {
    var k := (x + 0x8000_0000) / 0x1_0000_0000;
    assert Wrap32(x) == x - k * 0x1_0000_0000;
  }

  // ----- the instructions -----

  /** _mm256_mullo_epi16 */
  function Mullo16(x: seq<int>, y: seq<int>): seq<int>
    requires |x| == |y|
  { seq(|x|, k requires 0 <= k < |x| => Wrap16(Product(x[k], y[k]))) }

  /** _mm256_madd_epi16 with ones: adjacent pairs summed. */
  function MaddOnes(x: seq<int>): seq<int>
    requires |x| == 16
  { seq(8, j requires 0 <= j < 8 => Wrap32(x[2 * j] + x[2 * j + 1])) }

  /** _mm256_add_epi32 */
  function Add32(x: seq<int>, y: seq<int>): seq<int>
    requires |x| == |y|
  { seq(|x|, j requires 0 <= j < |x| => Wrap32(x[j] + y[j])) }

  /** _mm256_abs_epi8, read as unsigned bytes. */
  function Abs8(x: seq<Int8>): seq<int> { seq(|x|, k requires 0 <= k < |x| => Magnitude(x[k])) }

  function SignOf(y: Int8, x: Int8): Int8 { if x < 0 then Negated(y) else if x == 0 then 0 else y }

  /** _mm256_sign_epi8 */
  function Sign8(y: seq<Int8>, x: seq<Int8>): seq<Int8>
    requires |x| == |y|
  { seq(|x|, k requires 0 <= k < |x| => SignOf(y[k], x[k])) }

  /** _mm256_maddubs_epi16 */
  function Maddubs(u: seq<int>, s: seq<Int8>): seq<int>
    requires |u| == |s| == 32
  { seq(16, k requires 0 <= k < 16 => Saturate16(Product(u[2 * k], s[2 * k]) + Product(u[2 * k + 1], s[2 * k + 1]))) }

  // ----- what the lanes add up -----

  function Sum(t: seq<int>, n: nat): int
    requires n <= |t|
  {
    if n == 0 then 0 else Sum(t, n - 1) + t[n - 1]
  }

  /** Which terms of a block of 32 go to lane j: two from each half, or four neighbours. */
  datatype Layout = Halves | Neighbours

  function BlockPart(l: Layout, t: seq<int>, i: nat, j: nat): int
    requires i + 32 <= |t| && j < 8
  {
    match l
    case Halves => (t[i + 2 * j] + t[i + 2 * j + 1]) + (t[i + 16 + 2 * j] + t[i + 17 + 2 * j])
    case Neighbours => (t[i + 4 * j] + t[i + 4 * j + 1]) + (t[i + 4 * j + 2] + t[i + 4 * j + 3])
  }

  /** Lane j after `blocks` blocks, were there no wrap-around. */
  function Lane(l: Layout, t: seq<int>, blocks: nat, j: nat): int
    requires 32 * blocks <= |t| && j < 8
  {
    if blocks == 0 then 0 else Lane(l, t, blocks - 1, j) + BlockPart(l, t, 32 * (blocks - 1), j)
  }

  /** The first m lanes together. */
  function LaneSum(l: Layout, t: seq<int>, blocks: nat, m: nat): int
    requires 32 * blocks <= |t| && m <= 8
  {
    if m == 0 then 0 else LaneSum(l, t, blocks, m - 1) + Lane(l, t, blocks, m - 1)
  }

  function BlockSum(l: Layout, t: seq<int>, i: nat, m: nat): int
    requires i + 32 <= |t| && m <= 8
  {
    if m == 0 then 0 else BlockSum(l, t, i, m - 1) + BlockPart(l, t, i, m - 1)
  }

  lemma {:induction false} LaneSumStep(l: Layout, t: seq<int>, blocks: nat, m: nat)
    requires 32 * (blocks + 1) <= |t| && m <= 8
    ensures LaneSum(l, t, blocks + 1, m) == LaneSum(l, t, blocks, m) + BlockSum(l, t, 32 * blocks, m)
    decreases m
  {
    if m > 0 { LaneSumStep(l, t, blocks, m - 1); }
  }

  lemma SumSteps(t: seq<int>, i: nat)
    requires i + 4 <= |t|
    ensures Sum(t, i + 4) == Sum(t, i) + t[i] + t[i + 1] + t[i + 2] + t[i + 3]
  {
    assert Sum(t, i + 1) == Sum(t, i) + t[i];
    assert Sum(t, i + 2) == Sum(t, i + 1) + t[i + 1];
    assert Sum(t, i + 3) == Sum(t, i + 2) + t[i + 2];
    assert Sum(t, i + 4) == Sum(t, i + 3) + t[i + 3];
  }

  lemma Sum32(t: seq<int>, i: nat)
    requires i + 32 <= |t|
    ensures Sum(t, i + 32) - Sum(t, i)
         == t[i] + t[i + 1] + t[i + 2] + t[i + 3] + t[i + 4] + t[i + 5] + t[i + 6] + t[i + 7]
            + t[i + 8] + t[i + 9] + t[i + 10] + t[i + 11] + t[i + 12] + t[i + 13] + t[i + 14] + t[i + 15]
            + t[i + 16] + t[i + 17] + t[i + 18] + t[i + 19] + t[i + 20] + t[i + 21] + t[i + 22] + t[i + 23]
            + t[i + 24] + t[i + 25] + t[i + 26] + t[i + 27] + t[i + 28] + t[i + 29] + t[i + 30] + t[i + 31]
  {
    hide Sum;
    SumSteps(t, i);
    SumSteps(t, i + 4);
    SumSteps(t, i + 8);
    SumSteps(t, i + 12);
    SumSteps(t, i + 16);
    SumSteps(t, i + 20);
    SumSteps(t, i + 24);
    SumSteps(t, i + 28);
  }

  /** Either layout deals every term of a block to exactly one lane. */
  lemma BlockSumIsSum(l: Layout, t: seq<int>, i: nat)
    requires i + 32 <= |t|
    ensures BlockSum(l, t, i, 8) == Sum(t, i + 32) - Sum(t, i)
  {
    hide Sum;
    Sum32(t, i);
    BlockSumParts(l, t, i);
  }

  lemma BlockSumParts(l: Layout, t: seq<int>, i: nat)
    requires i + 32 <= |t|
    ensures BlockSum(l, t, i, 8)
         == BlockPart(l, t, i, 0) + BlockPart(l, t, i, 1) + BlockPart(l, t, i, 2) + BlockPart(l, t, i, 3)
            + BlockPart(l, t, i, 4) + BlockPart(l, t, i, 5) + BlockPart(l, t, i, 6) + BlockPart(l, t, i, 7)
  {
    hide BlockPart;
    assert BlockSum(l, t, i, 1) == BlockSum(l, t, i, 0) + BlockPart(l, t, i, 0) == BlockPart(l, t, i, 0);
    assert BlockSum(l, t, i, 2) == BlockPart(l, t, i, 0) + BlockPart(l, t, i, 1);
    assert BlockSum(l, t, i, 4) == BlockSum(l, t, i, 3) + BlockPart(l, t, i, 3)
      == BlockSum(l, t, i, 2) + BlockPart(l, t, i, 2) + BlockPart(l, t, i, 3);
    assert BlockSum(l, t, i, 6) == BlockSum(l, t, i, 5) + BlockPart(l, t, i, 5)
      == BlockSum(l, t, i, 4) + BlockPart(l, t, i, 4) + BlockPart(l, t, i, 5);
    assert BlockSum(l, t, i, 8) == BlockSum(l, t, i, 7) + BlockPart(l, t, i, 7)
      == BlockSum(l, t, i, 6) + BlockPart(l, t, i, 6) + BlockPart(l, t, i, 7);
  }

  lemma {:induction false} LanesAreTheSum(l: Layout, t: seq<int>, blocks: nat)
    requires 32 * blocks <= |t|
    ensures LaneSum(l, t, blocks, 8) == Sum(t, 32 * blocks)
    decreases blocks
  {
    hide BlockPart;
    if blocks == 0 {
      NoLanes(l, t, 8);
    } else {
      LanesAreTheSum(l, t, blocks - 1);
      LaneSumStep(l, t, blocks - 1, 8);
      BlockSumIsSum(l, t, 32 * (blocks - 1));
    }
  }

  lemma {:induction false} NoLanes(l: Layout, t: seq<int>, m: nat)
    requires m <= 8
    ensures LaneSum(l, t, 0, m) == 0
    decreases m
  {
    if m > 0 { NoLanes(l, t, m - 1); }
  }

  // ----- terms -----

  function Products(a: seq<Int8>, b: seq<Int8>): (t: seq<int>)
    requires |a| == |b|
    ensures |t| == |a|
  { seq(|a|, k requires 0 <= k < |a| => Product(a[k], b[k])) }

  /** The mathematical dot product. */
  function Dot(a: seq<Int8>, b: seq<Int8>): int
    requires |a| == |b|
  { Sum(Products(a, b), |a|) }

  lemma ProductBound(x: int, y: int)
    requires -128 <= x <= 127 && -128 <= y <= 127
    ensures -16256 <= Product(x, y) <= 16384
    ensures -127 <= x && -127 <= y ==> -16129 <= Product(x, y) <= 16129
  {
    if x >= 0 {
      MulLe(x, y, 127);
      MulLe(x, -128, y);
      if y >= -127 { MulLe(x, -127, y); }
    } else {
      MulLe(-x, y, 127);
      MulLe(-x, -128, y);
      if y >= -127 { MulLe(-x, -127, y); }
      assert x * y == -(-x * y);
    }
  }

  lemma MulLe(x: nat, y: int, z: int)
    requires y <= z
    ensures x * y <= x * z
  {
    assert x * (z - y) >= 0;
  }

  // ----- the widening baseline -----

  /** The lanes hold the wrapped lane sums of the first blocks. */
  predicate LanesHold(acc: seq<int>, l: Layout, t: seq<int>, blocks: nat)
    requires 32 * blocks <= |t|
  {
    |acc| == 8 && forall j :: 0 <= j < 8 ==> acc[j] == Wrap32(Lane(l, t, blocks, j))
  }

  lemma NoBlocksHeld(l: Layout, t: seq<int>)
    ensures LanesHold([0, 0, 0, 0, 0, 0, 0, 0], l, t, 0)
  {
  }

  lemma WrapAddTwice(x: int, y: int, z: int)
    ensures Wrap32(Wrap32(Wrap32(x) + y) + z) == Wrap32(x + (y + z))
  {
    WrapAdd(x, y);
    WrapAdd(x + y, z);
  }

  /** int8 products fit 16 bits, so neither the low half nor the pair sums lose anything. */
  lemma MulloPairs(a: seq<Int8>, b: seq<Int8>, j: nat)
    requires |a| == |b| == 16 && j < 8
    ensures MaddOnes(Mullo16(a, b))[j] == Product(a[2 * j], b[2 * j]) + Product(a[2 * j + 1], b[2 * j + 1])
  {
    hide Product, Wrap16, Wrap32;
    ProductBound(a[2 * j], b[2 * j]);
    ProductBound(a[2 * j + 1], b[2 * j + 1]);
    WrapSmall(Product(a[2 * j], b[2 * j]));
    WrapSmall(Product(a[2 * j + 1], b[2 * j + 1]));
    WrapSmall(Product(a[2 * j], b[2 * j]) + Product(a[2 * j + 1], b[2 * j + 1]));
  }

  function BaselineStep(acc: seq<int>, va: seq<Int8>, vb: seq<Int8>): seq<int>
    requires |acc| == 8 && |va| == |vb| == 32
  {
    var lo := MaddOnes(Mullo16(va[..16], vb[..16]));
    var hi := MaddOnes(Mullo16(va[16..], vb[16..]));
    Add32(Add32(acc, lo), hi)
  }

  lemma BaselineStepHolds(acc: seq<int>, a: seq<Int8>, b: seq<Int8>, blocks: nat)
    requires |a| == |b| && 32 * blocks + 32 <= |a| && LanesHold(acc, Halves, Products(a, b), blocks)
    ensures var i := 32 * blocks;
            LanesHold(BaselineStep(acc, a[i..i + 32], b[i..i + 32]), Halves, Products(a, b), blocks + 1)
  {
    hide Product, Mullo16, MaddOnes, Wrap32;
    var i, t := 32 * blocks, Products(a, b);
    var va, vb := a[i..i + 32], b[i..i + 32];
    forall j | 0 <= j < 8 ensures BaselineStep(acc, va, vb)[j] == Wrap32(Lane(Halves, t, blocks + 1, j)) {
      MulloPairs(va[..16], vb[..16], j);
      MulloPairs(va[16..], vb[16..], j);
      WrapAddTwice(Lane(Halves, t, blocks, j), t[i + 2 * j] + t[i + 2 * j + 1], t[i + 16 + 2 * j] + t[i + 17 + 2 * j]);
    }
  }

  method Reduce(tmp: seq<int>, l: Layout, ghost t: seq<int>, ghost blocks: nat) returns (s: int)
    requires 32 * blocks <= |t| && LanesHold(tmp, l, t, blocks)
    ensures s == Wrap32(Sum(t, 32 * blocks))
  {
    hide Lane, Wrap32;
    WrapSmall(0);
    s := 0;
    for j := 0 to 8
      invariant s == Wrap32(LaneSum(l, t, blocks, j))
    {
      WrapLane(LaneSum(l, t, blocks, j), Lane(l, t, blocks, j));
      s := Wrap32(s + tmp[j]);
    }
    LanesAreTheSum(l, t, blocks);
  }

  lemma WrapLane(x: int, y: int)
    ensures Wrap32(Wrap32(x) + Wrap32(y)) == Wrap32(x + y)
  {
    WrapAdd(y, Wrap32(x));
    WrapAdd(x, y);
  }

  /** The scalar loop over what no block covers. */
  method AddTail(start: int, a: seq<Int8>, b: seq<Int8>, from: nat, ghost t: seq<int>) returns (s: int)
    requires from <= |a| == |b| == |t| && start == Wrap32(Sum(t, from))
    requires forall k :: from <= k < |a| ==> t[k] == Product(a[k], b[k])
    ensures s == Wrap32(Sum(t, |a|))
  {
    hide Wrap32, Product;
    s := start;
    for i := from to |a|
      invariant s == Wrap32(Sum(t, i))
    {
      WrapAdd(Sum(t, i), Product(a[i], b[i]));
      s := Wrap32(s + Product(a[i], b[i]));
    }
  }

  /** `dot_baseline` and `dot_i8_avx2`: the dot product as a 32-bit integer, for all inputs. */
  method DotBaseline(a: seq<Int8>, b: seq<Int8>) returns (s: int)
    requires |a| == |b|
    ensures s == Wrap32(Dot(a, b))
  {
    hide BaselineStep, Wrap32, LanesHold, Products;
    var acc := [0, 0, 0, 0, 0, 0, 0, 0];
    NoBlocksHeld(Halves, Products(a, b));
    HeldSize(acc, Halves, Products(a, b), 0);
    var i := 0;
    ghost var blocks := 0;
    while i + 31 < |a|
      invariant i == 32 * blocks <= |a| && LanesHold(acc, Halves, Products(a, b), blocks) && |acc| == 8
    {
      BaselineStepHolds(acc, a, b, blocks);
      acc := BaselineStep(acc, a[i..i + 32], b[i..i + 32]);
      HeldSize(acc, Halves, Products(a, b), blocks + 1);
      i := i + 32;
      blocks := blocks + 1;
    }
    s := Reduce(acc, Halves, Products(a, b), blocks);
    ProductsAre(a, b);
    s := AddTail(s, a, b, i, Products(a, b));
  }

  lemma HeldSize(acc: seq<int>, l: Layout, t: seq<int>, blocks: nat)
    requires 32 * blocks <= |t| && LanesHold(acc, l, t, blocks)
    ensures |acc| == 8
  {
  }

  lemma ProductsAre(a: seq<Int8>, b: seq<Int8>)
    requires |a| == |b|
    ensures forall k :: 0 <= k < |a| ==> Products(a, b)[k] == Product(a[k], b[k])
  {
  }

  // ----- the sign trick -----

  /** -128 cannot be negated in eight bits: the one product the sign trick gets wrong. */
  predicate Flips(x: int, y: int) { x < 0 && y == -128 }

  function SignTerm(x: int, y: int): int { if Flips(x, y) then -Product(x, y) else Product(x, y) }

  lemma SignTrick(x: Int8, y: Int8)
    ensures Product(Magnitude(x), SignOf(y, x)) == SignTerm(x, y)
    ensures -16384 <= SignTerm(x, y) <= 16256
  {
    ProductBound(x, y);
    if x < 0 {
      assert SignOf(y, x) == if y == -128 then -128 else -y;
      NegatedTwice(x, y);
      if y == -128 { ProductOfMin(x); }
    } else if x > 0 {
      MulLe(x, y, 127);
      MulLe(x, -128, y);
    }
  }

  lemma NegatedTwice(x: int, y: int)
    ensures Product(-x, -y) == Product(x, y) && Product(-x, y) == -Product(x, y)
  {
  }

  lemma ProductOfMin(x: int)
    requires -128 <= x < 0
    ensures 0 < Product(x, -128) <= 16384
  {
  }

  function SignTerms(a: seq<Int8>, b: seq<Int8>): (t: seq<int>)
    requires |a| == |b|
    ensures |t| == |a|
  { seq(|a|, k requires 0 <= k < |a| => if k < |a| / 32 * 32 then SignTerm(a[k], b[k]) else Product(a[k], b[k])) }

  function SignProducts(va: seq<Int8>, vb: seq<Int8>): (p: seq<int>)
    requires |va| == |vb| == 32
    ensures |p| == 16
  {
    Maddubs(Abs8(va), Sign8(vb, va))
  }

  function SignStep(acc: seq<int>, va: seq<Int8>, vb: seq<Int8>): (s: seq<int>)
    requires |acc| == 8 && |va| == |vb| == 32
    ensures |s| == 8
  {
    Add32(acc, MaddOnes(SignProducts(va, vb)))
  }

  /** No pair sum reaches the saturation bounds. */
  lemma NeverSaturates(va: seq<Int8>, vb: seq<Int8>, k: nat)
    requires |va| == |vb| == 32 && k < 16
    ensures SignProducts(va, vb)[k] == SignTerm(va[2 * k], vb[2 * k]) + SignTerm(va[2 * k + 1], vb[2 * k + 1])
    ensures -0x8000 <= SignProducts(va, vb)[k] <= 0x7FFF
  {
    hide Product, SignTerm, SignOf, Magnitude;
    SignTrick(va[2 * k], vb[2 * k]);
    SignTrick(va[2 * k + 1], vb[2 * k + 1]);
    WrapSmall(SignTerm(va[2 * k], vb[2 * k]) + SignTerm(va[2 * k + 1], vb[2 * k + 1]));
  }

  lemma SignStepHolds(acc: seq<int>, a: seq<Int8>, b: seq<Int8>, blocks: nat)
    requires |a| == |b| && 32 * blocks + 32 <= |a| && LanesHold(acc, Neighbours, SignTerms(a, b), blocks)
    ensures var i := 32 * blocks;
            LanesHold(SignStep(acc, a[i..i + 32], b[i..i + 32]), Neighbours, SignTerms(a, b), blocks + 1)
  {
    hide SignTerm, SignTerms, SignStep, BlockPart, Wrap32;
    var i, t := 32 * blocks, SignTerms(a, b);
    var va, vb := a[i..i + 32], b[i..i + 32];
    forall j | 0 <= j < 8 ensures SignStep(acc, va, vb)[j] == Wrap32(Lane(Neighbours, t, blocks + 1, j)) {
      SignStepLane(acc, va, vb, j);
      SignBlock(a, b, blocks, j);
      WrapAdd(Lane(Neighbours, t, blocks, j), BlockPart(Neighbours, t, i, j));
    }
  }

  lemma SignStepLane(acc: seq<int>, va: seq<Int8>, vb: seq<Int8>, j: nat)
    requires |acc| == 8 && |va| == |vb| == 32 && j < 8
    ensures SignStep(acc, va, vb)[j]
         == Wrap32(acc[j] + ((SignTerm(va[4 * j], vb[4 * j]) + SignTerm(va[4 * j + 1], vb[4 * j + 1]))
                             + (SignTerm(va[4 * j + 2], vb[4 * j + 2]) + SignTerm(va[4 * j + 3], vb[4 * j + 3]))))
  {
    hide SignTerm, SignProducts, Wrap32;
    var m := SignProducts(va, vb);
    NeverSaturates(va, vb, 2 * j);
    NeverSaturates(va, vb, 2 * j + 1);
    WrapSmall(m[2 * j] + m[2 * j + 1]);
  }

  lemma SignBlock(a: seq<Int8>, b: seq<Int8>, blocks: nat, j: nat)
    requires |a| == |b| && 32 * blocks + 32 <= |a| && j < 8
    ensures var i := 32 * blocks; var va, vb := a[i..i + 32], b[i..i + 32];
            BlockPart(Neighbours, SignTerms(a, b), i, j)
              == (SignTerm(va[4 * j], vb[4 * j]) + SignTerm(va[4 * j + 1], vb[4 * j + 1]))
                 + (SignTerm(va[4 * j + 2], vb[4 * j + 2]) + SignTerm(va[4 * j + 3], vb[4 * j + 3]))
  {
    hide SignTerm, Product;
  }

  method DotPmaddubsw(a: seq<Int8>, b: seq<Int8>) returns (s: int)
    requires |a| == |b|
    ensures s == Wrap32(Sum(SignTerms(a, b), |a|))
  {
    hide SignStep, Wrap32, LanesHold, SignTerms;
    var acc := [0, 0, 0, 0, 0, 0, 0, 0];
    NoBlocksHeld(Neighbours, SignTerms(a, b));
    HeldSize(acc, Neighbours, SignTerms(a, b), 0);
    var i := 0;
    ghost var blocks := 0;
    while i + 31 < |a|
      invariant i == 32 * blocks <= |a| && LanesHold(acc, Neighbours, SignTerms(a, b), blocks) && |acc| == 8
    {
      SignStepHolds(acc, a, b, blocks);
      acc := SignStep(acc, a[i..i + 32], b[i..i + 32]);
      HeldSize(acc, Neighbours, SignTerms(a, b), blocks + 1);
      i := i + 32;
      blocks := blocks + 1;
    }
    s := Reduce(acc, Neighbours, SignTerms(a, b), blocks);
    SignTermsTail(a, b, i);
    s := AddTail(s, a, b, i, SignTerms(a, b));
  }

  lemma SignTermsTail(a: seq<Int8>, b: seq<Int8>, i: nat)
    requires |a| == |b| && i % 32 == 0 && i <= |a| < i + 32
    ensures forall k :: i <= k < |a| ==> SignTerms(a, b)[k] == Product(a[k], b[k])
  {
    assert |a| / 32 * 32 == i;
  }

  // ----- what it means -----

  /** Twice the products that the sign trick turns round, over the blocks. */
  function Turned(a: seq<Int8>, b: seq<Int8>, n: nat): int
    requires n <= |a| == |b|
  {
    if n == 0 then 0
    else
      Turned(a, b, n - 1)
      + if n - 1 < |a| / 32 * 32 && Flips(a[n - 1], b[n - 1]) then 2 * Product(a[n - 1], b[n - 1]) else 0
  }

  lemma {:induction false} SignTermsSum(a: seq<Int8>, b: seq<Int8>, n: nat)
    requires n <= |a| == |b|
    ensures Sum(SignTerms(a, b), n) == Sum(Products(a, b), n) - Turned(a, b, n)
    decreases n
  {
    hide Product;
    if n > 0 { SignTermsSum(a, b, n - 1); }
  }

  lemma {:induction false} TurnedBounds(a: seq<Int8>, b: seq<Int8>, n: nat)
    requires n <= |a| == |b|
    ensures 0 <= Turned(a, b, n) <= 32768 * n
    ensures Turned(a, b, n) == 0 <==> forall k :: 0 <= k < n && k < |a| / 32 * 32 ==> !Flips(a[k], b[k])
    decreases n
  {
    hide Product;
    if n > 0 {
      TurnedBounds(a, b, n - 1);
      if Flips(a[n - 1], b[n - 1]) { ProductOfMin(a[n - 1]); }
    }
  }

  lemma WrapEqual(x: int, d: int)
    ensures Wrap32(x - d) == Wrap32(x) <==> d % 0x1_0000_0000 == 0
  {
    var m, k := 0x1_0000_0000, d / 0x1_0000_0000;
    assert d == k * m + d % m;
  }

  /** The two instruction sequences agree exactly when the products turned round add up to nothing
      modulo 2^32; for rows of fewer than 131072 entries, when no weight -128 meets a negative
      activation in the vectorised part. */
  lemma SequencesAgreeExactly(a: seq<Int8>, b: seq<Int8>)
    requires |a| == |b|
    ensures Wrap32(Sum(SignTerms(a, b), |a|)) == Wrap32(Dot(a, b)) <==> Turned(a, b, |a|) % 0x1_0000_0000 == 0
    ensures |a| < 131072 ==>
              (Wrap32(Sum(SignTerms(a, b), |a|)) == Wrap32(Dot(a, b))
               <==> forall k :: 0 <= k < |a| / 32 * 32 ==> !Flips(a[k], b[k]))
  {
    hide SignTerms, Products, Flips, Wrap32;
    SignTermsSum(a, b, |a|);
    WrapEqual(Dot(a, b), Turned(a, b, |a|));
    TurnedBounds(a, b, |a|);
  }

  lemma {:induction false} AllTurned(a: seq<Int8>, n: nat)
    requires n <= |a| && |a| % 32 == 0 && forall k :: 0 <= k < |a| ==> a[k] == -128
    ensures Turned(a, a, n) == 32768 * n
    decreases n
  {
    if n > 0 {
      AllTurned(a, n - 1);
      assert n - 1 < |a| / 32 * 32 && Flips(a[n - 1], a[n - 1]);
    }
  }

  /** That bound on the length is sharp: in a row of 131072 entries -128 against itself every product
      is turned round, and the results agree all the same. */
  lemma LongRowsCancel(a: seq<Int8>)
    requires |a| == 131072 && forall k :: 0 <= k < |a| ==> a[k] == -128
    ensures Flips(a[0], a[0]) && Wrap32(Sum(SignTerms(a, a), |a|)) == Wrap32(Dot(a, a))
  {
    hide Wrap32, SignTerms, Turned, Dot;
    AllTurned(a, |a|);
    SequencesAgreeExactly(a, a);
  }

  /** All terms within ±127·127. */
  ghost predicate Small(t: seq<int>) { forall k :: 0 <= k < |t| ==> -16129 <= t[k] <= 16129 }

  lemma {:induction false} LaneBound(l: Layout, t: seq<int>, blocks: nat, j: nat)
    requires Small(t) && 32 * blocks <= |t| && j < 8
    ensures -64516 * blocks <= Lane(l, t, blocks, j) <= 64516 * blocks
    decreases blocks
  {
    if blocks > 0 { LaneBound(l, t, blocks - 1, j); }
  }

  lemma {:induction false} LaneSumBound(l: Layout, t: seq<int>, blocks: nat, m: nat)
    requires Small(t) && 32 * blocks <= |t| && m <= 8
    ensures -64516 * (blocks * m) <= LaneSum(l, t, blocks, m) <= 64516 * (blocks * m)
    decreases m
  {
    hide Lane;
    if m > 0 {
      LaneBound(l, t, blocks, m - 1);
      LaneSumBound(l, t, blocks, m - 1);
      assert blocks * m == blocks * (m - 1) + blocks;
    }
  }

  lemma {:induction false} SumBound(t: seq<int>, n: nat)
    requires Small(t) && n <= |t|
    ensures -16129 * n <= Sum(t, n) <= 16129 * n
    decreases n
  {
    if n > 0 { SumBound(t, n - 1); }
  }

  /** No intermediate value leaves 32 bits: not a lane, not the sum of the first lanes, not the
      running sum of the tail. */
  ghost predicate NeverWraps(l: Layout, t: seq<int>) {
    && (forall blocks, j :: 0 <= blocks && 32 * blocks <= |t| && 0 <= j < 8 ==> InInt32(Lane(l, t, blocks, j)))
    && (forall blocks, m :: 0 <= blocks && 32 * blocks <= |t| && 0 <= m <= 8 ==> InInt32(LaneSum(l, t, blocks, m)))
    && forall n :: 0 <= n <= |t| ==> InInt32(Sum(t, n))
  }

  lemma SmallNeverWraps(l: Layout, t: seq<int>)
    requires Small(t) && |t| <= 133144
    ensures NeverWraps(l, t)
  {
    hide Lane, LaneSum, Sum, Small;
    forall blocks, j | 0 <= blocks && 32 * blocks <= |t| && 0 <= j < 8 ensures InInt32(Lane(l, t, blocks, j)) {
      LaneBound(l, t, blocks, j);
    }
    forall blocks, m | 0 <= blocks && 32 * blocks <= |t| && 0 <= m <= 8 ensures InInt32(LaneSum(l, t, blocks, m)) {
      LaneSumBound(l, t, blocks, m);
      MulLe(blocks, m, 8);
    }
    forall n | 0 <= n <= |t| ensures InInt32(Sum(t, n)) { SumBound(t, n); }
  }

  predicate Symmetric(a: seq<Int8>) { forall k :: 0 <= k < |a| ==> a[k] >= -127 }

  /** For entries in [-127, 127] and rows up to 133144, both sequences give the mathematical dot
      product, and nothing wraps on the way. */
  lemma DotsAreExact(a: seq<Int8>, b: seq<Int8>)
    requires |a| == |b| <= 133144 && Symmetric(a) && Symmetric(b)
    ensures Wrap32(Dot(a, b)) == Dot(a, b) == Wrap32(Sum(SignTerms(a, b), |a|))
    ensures NeverWraps(Halves, Products(a, b)) && NeverWraps(Neighbours, SignTerms(a, b))
  {
    hide Sum, Product, NeverWraps, Wrap32;
    forall k | 0 <= k < |a| ensures -16129 <= Products(a, b)[k] <= 16129 { ProductBound(a[k], b[k]); }
    assert SignTerms(a, b) == Products(a, b);
    SmallNeverWraps(Halves, Products(a, b));
    SmallNeverWraps(Neighbours, Products(a, b));
    SumBound(Products(a, b), |a|);
    WrapSmall(Dot(a, b));
  }

  /** `dot_pmaddubsw_pair`: one row against two, sharing the loads of a. */
  method DotPmaddubswPair(a: seq<Int8>, b0: seq<Int8>, b1: seq<Int8>) returns (s0: int, s1: int)
    requires |a| == |b0| == |b1|
    ensures s0 == Wrap32(Sum(SignTerms(a, b0), |a|)) && s1 == Wrap32(Sum(SignTerms(a, b1), |a|))
  {
    hide SignStep, Wrap32, LanesHold, SignTerms;
    var acc0, acc1 := [0, 0, 0, 0, 0, 0, 0, 0], [0, 0, 0, 0, 0, 0, 0, 0];
    NoBlocksHeld(Neighbours, SignTerms(a, b0));
    NoBlocksHeld(Neighbours, SignTerms(a, b1));
    HeldSize(acc0, Neighbours, SignTerms(a, b0), 0);
    HeldSize(acc1, Neighbours, SignTerms(a, b1), 0);
    var i := 0;
    ghost var blocks := 0;
    while i + 31 < |a|
      invariant i == 32 * blocks <= |a| && |acc0| == |acc1| == 8
      invariant LanesHold(acc0, Neighbours, SignTerms(a, b0), blocks)
      invariant LanesHold(acc1, Neighbours, SignTerms(a, b1), blocks)
    {
      SignStepHolds(acc0, a, b0, blocks);
      SignStepHolds(acc1, a, b1, blocks);
      acc0 := SignStep(acc0, a[i..i + 32], b0[i..i + 32]);
      acc1 := SignStep(acc1, a[i..i + 32], b1[i..i + 32]);
      HeldSize(acc0, Neighbours, SignTerms(a, b0), blocks + 1);
      HeldSize(acc1, Neighbours, SignTerms(a, b1), blocks + 1);
      i := i + 32;
      blocks := blocks + 1;
    }
    s0 := Reduce(acc0, Neighbours, SignTerms(a, b0), blocks);
    s1 := Reduce(acc1, Neighbours, SignTerms(a, b1), blocks);
    SignTermsTail(a, b0, i);
    SignTermsTail(a, b1, i);
    s0 := AddTail(s0, a, b0, i, SignTerms(a, b0));
    s1 := AddTail(s1, a, b1, i, SignTerms(a, b1));
  }
}
