/** The density-weighted average that `fill_oct` (src/asset/oct_dag.rs) bakes
    into an interior octant: every child's unpacked colour and normal,
    weighted by the child's density channel, summed and divided by the total
    density. */
module Aggregation {
  import opened Codec
  import opened Octants

  /** The seven sums the source accumulates besides the total density. */
  datatype Channel = Red | Green | Blue | Alpha | NormalX | NormalY | NormalZ

  /** A child's unpacked colour and unpacked normal. */
  type Unpacked = (Vec4, Vec4)

  /** The unpacked colour and normal of every child, in order. */
  function UnpackAll(s: seq<Octant>): (ps: seq<Unpacked>)
    ensures |ps| == |s|
  {
    seq(|s|, k requires 0 <= k < |s| => (UnpackF32(s[k].colour), UnpackF32(s[k].normal)))
  }

  /** The component a channel sums. */
  function Pick(p: Unpacked, c: Channel): real
  {
    match c
    case Red => p.0.x
    case Green => p.0.y
    case Blue => p.0.z
    case Alpha => p.0.w
    case NormalX => p.1.x
    case NormalY => p.1.y
    case NormalZ => p.1.z
  }

  /** A child's weight: the density channel of its unpacked normal. */
  function Weight(p: Unpacked): real
  {
    p.1.w
  }

  /** The total weight of the first n children, summed in order. */
  function Sum(ps: seq<Unpacked>, n: nat): real
    requires n <= |ps|
  {
    if n == 0 then 0.0 else Sum(ps, n - 1) + Weight(ps[n - 1])
  }

  /** The weighted sum of one channel over the first n children, in order. */
  function Dot(ps: seq<Unpacked>, n: nat, c: Channel): real
    requires n <= |ps|
  {
    if n == 0 then 0.0 else Dot(ps, n - 1, c) + Pick(ps[n - 1], c) * Weight(ps[n - 1])
  }

  /** The total density of the first n children. */
  function TotalWeight(s: seq<Octant>, n: nat): real
    requires n <= |s|
  {
    Sum(UnpackAll(s), n)
  }

  /** The weighted sum of one channel over the first n children. */
  function WeightedSum(s: seq<Octant>, n: nat, c: Channel): real
    requires n <= |s|
  {
    Dot(UnpackAll(s), n, c)
  }

  /** Every unpacked channel is in [0, 1]. */
  predicate UnitChannels(ps: seq<Unpacked>)
  {
    forall k :: 0 <= k < |ps| ==>
      && 0.0 <= ps[k].0.x <= 1.0 && 0.0 <= ps[k].0.y <= 1.0 && 0.0 <= ps[k].0.z <= 1.0 && 0.0 <= ps[k].0.w <= 1.0
      && 0.0 <= ps[k].1.x <= 1.0 && 0.0 <= ps[k].1.y <= 1.0 && 0.0 <= ps[k].1.z <= 1.0 && 0.0 <= ps[k].1.w <= 1.0
  }

  lemma UnpackAllUnit(s: seq<Octant>)
    ensures UnitChannels(UnpackAll(s))
  {
  }

  /** The packed colour of the average: each colour channel's weighted sum
      divided by the total density. */
  function AverageColour(s: Octants): u32
  {
    var t := TotalWeight(s, 8);
    PackFloats(Quot(WeightedSum(s, 8, Red), t), Quot(WeightedSum(s, 8, Green), t),
               Quot(WeightedSum(s, 8, Blue), t), Quot(WeightedSum(s, 8, Alpha), t))
  }

  /** The packed normal of the average, with the given density as its last
      channel. */
  function AverageNormal(s: Octants, density: real): u32
  {
    var t := TotalWeight(s, 8);
    PackFloats(Quot(WeightedSum(s, 8, NormalX), t), Quot(WeightedSum(s, 8, NormalY), t),
               Quot(WeightedSum(s, 8, NormalZ), t), Finite(density))
  }

  /** The accumulation loop over the eight children and the two packs that
      follow it. */
  method Aggregate(children: Octants, density: real) returns (colour: u32, normal: u32)
    ensures colour == AverageColour(children)
    ensures normal == AverageNormal(children, density)
  {
    ghost var ps := UnpackAll(children);
    var cumulative, r, g, b, a, x, y, z := 0.0, 0.0, 0.0, 0.0, 0.0, 0.0, 0.0, 0.0;
    for i := 0 to 8
      invariant cumulative == Sum(ps, i)
      invariant r == Dot(ps, i, Red) && g == Dot(ps, i, Green)
      invariant b == Dot(ps, i, Blue) && a == Dot(ps, i, Alpha)
      invariant x == Dot(ps, i, NormalX) && y == Dot(ps, i, NormalY)
      invariant z == Dot(ps, i, NormalZ)
    {
      var c := UnpackF32(children[i].colour);
      var n := UnpackF32(children[i].normal);
      SumStep(ps, i, n.w);
      ColourStep(ps, i, c, n);
      NormalStep(ps, i, n);
      cumulative := cumulative + n.w;
      r := r + c.x * n.w;
      g := g + c.y * n.w;
      b := b + c.z * n.w;
      a := a + c.w * n.w;
      x := x + n.x * n.w;
      y := y + n.y * n.w;
      z := z + n.z * n.w;
    }
    colour := PackFloats(Quot(r, cumulative), Quot(g, cumulative), Quot(b, cumulative), Quot(a, cumulative));
    normal := PackFloats(Quot(x, cumulative), Quot(y, cumulative), Quot(z, cumulative), Finite(density));
  }

  /** The four colour sums grow by the next pair's terms. */
  lemma ColourStep(ps: seq<Unpacked>, i: nat, colour: Vec4, normal: Vec4)
    requires i < |ps| && ps[i].0 == colour && ps[i].1 == normal
    ensures Dot(ps, i + 1, Red) == Dot(ps, i, Red) + colour.x * normal.w
    ensures Dot(ps, i + 1, Green) == Dot(ps, i, Green) + colour.y * normal.w
    ensures Dot(ps, i + 1, Blue) == Dot(ps, i, Blue) + colour.z * normal.w
    ensures Dot(ps, i + 1, Alpha) == Dot(ps, i, Alpha) + colour.w * normal.w
  {
    ChannelStep(ps, i, Red, colour.x, normal.w);
    ChannelStep(ps, i, Green, colour.y, normal.w);
    ChannelStep(ps, i, Blue, colour.z, normal.w);
    ChannelStep(ps, i, Alpha, colour.w, normal.w);
  }

  /** The three direction sums grow by the next pair's terms. */
  lemma NormalStep(ps: seq<Unpacked>, i: nat, normal: Vec4)
    requires i < |ps| && ps[i].1 == normal
    ensures Dot(ps, i + 1, NormalX) == Dot(ps, i, NormalX) + normal.x * normal.w
    ensures Dot(ps, i + 1, NormalY) == Dot(ps, i, NormalY) + normal.y * normal.w
    ensures Dot(ps, i + 1, NormalZ) == Dot(ps, i, NormalZ) + normal.z * normal.w
  {
    ChannelStep(ps, i, NormalX, normal.x, normal.w);
    ChannelStep(ps, i, NormalY, normal.y, normal.w);
    ChannelStep(ps, i, NormalZ, normal.z, normal.w);
  }

  /** One more child adds its weight to the total. */
  lemma SumStep(ps: seq<Unpacked>, i: nat, w: real)
    requires i < |ps| && w == Weight(ps[i])
    ensures Sum(ps, i + 1) == Sum(ps, i) + w
  {
  }

  /** One more child adds its channel value times its weight to the
      channel's sum. */
  lemma ChannelStep(ps: seq<Unpacked>, i: nat, c: Channel, v: real, w: real)
    requires i < |ps| && v == Pick(ps[i], c) && w == Weight(ps[i])
    ensures Dot(ps, i + 1, c) == Dot(ps, i, c) + v * w
  {
  }

  /** Weights are never negative, so a zero total means every weight, and
      with it every weighted sum, is zero. */
  lemma {:induction false} ZeroSumZeroDot(ps: seq<Unpacked>, n: nat, c: Channel)
    requires n <= |ps| && UnitChannels(ps) && Sum(ps, n) == 0.0
    ensures Dot(ps, n, c) == 0.0
    ensures forall k :: 0 <= k < n ==> Weight(ps[k]) == 0.0
  {
    if n > 0 {
      SumNonNegative(ps, n - 1);
      ZeroSumZeroDot(ps, n - 1, c);
    }
  }

  lemma {:induction false} ZeroSum(ps: seq<Unpacked>, n: nat)
    requires n <= |ps|
    requires forall k :: 0 <= k < n ==> Weight(ps[k]) == 0.0
    ensures Sum(ps, n) == 0.0
  {
    if n > 0 {
      ZeroSum(ps, n - 1);
    }
  }

  lemma {:induction false} SumNonNegative(ps: seq<Unpacked>, n: nat)
    requires n <= |ps| && UnitChannels(ps)
    ensures Sum(ps, n) >= 0.0
  {
    if n > 0 {
      SumNonNegative(ps, n - 1);
    }
  }

  /** When every value lies in [0, 1] and the weights are not negative,
      the weighted sum lies between 0 and the total weight. */
  lemma {:induction false} DotWithin(ps: seq<Unpacked>, n: nat, c: Channel)
    requires n <= |ps|
    requires forall k :: 0 <= k < n ==> 0.0 <= Pick(ps[k], c) <= 1.0 && 0.0 <= Weight(ps[k])
    ensures 0.0 <= Dot(ps, n, c) <= Sum(ps, n)
  {
    if n > 0 {
      DotWithin(ps, n - 1, c);
      var w, v := Weight(ps[n - 1]), Pick(ps[n - 1], c);
      var dot, total := Dot(ps, n - 1, c), Sum(ps, n - 1);
      assert Sum(ps, n) == total + w;
      assert Dot(ps, n, c) == dot + v * w;
      ScaleNonNegative(0.0, v, w);
      ScaleNonNegative(v, 1.0, w);
      assert 0.0 <= v * w <= w;
    }
  }

  lemma ScaleNonNegative(a: real, b: real, w: real)
    requires a <= b && 0.0 <= w
    ensures a * w <= b * w
  {
    assert (b - a) * w >= 0.0;
  }

  /** When every value is v, the weighted sum is v times the total weight. */
  lemma {:induction false} UniformDot(ps: seq<Unpacked>, n: nat, c: Channel, v: real)
    requires n <= |ps|
    requires forall k :: 0 <= k < n ==> Pick(ps[k], c) == v
    ensures Dot(ps, n, c) == v * Sum(ps, n)
  {
    if n > 0 {
      UniformDot(ps, n - 1, c, v);
      assert v * Sum(ps, n) == v * Sum(ps, n - 1) + v * Weight(ps[n - 1]);
    }
  }

  /** A child's weight is its density byte over 255. */
  lemma WeightIsDensity(s: seq<Octant>, k: nat)
    requires k < |s|
    ensures Weight(UnpackAll(s)[k]) == Density(s[k]) as real / 255.0
  {
  }

  /** A zero total density means every child has density zero, and then
      every weighted sum is zero. */
  lemma ZeroTotalZeroSums(s: Octants, c: Channel)
    requires TotalWeight(s, 8) == 0.0
    ensures WeightedSum(s, 8, c) == 0.0
    ensures forall k :: 0 <= k < 8 ==> Density(s[k]) == 0
  {
    UnpackAllUnit(s);
    ZeroSumZeroDot(UnpackAll(s), 8, c);
    forall k | 0 <= k < 8
      ensures Density(s[k]) == 0
    {
      WeightIsDensity(s, k);
    }
  }

  /** The weighted sum of a channel is at most the total density, so no
      averaged channel exceeds 1. */
  lemma WeightedSumWithin(s: Octants, c: Channel)
    ensures 0.0 <= WeightedSum(s, 8, c) <= TotalWeight(s, 8)
  {
    var ps := UnpackAll(s);
    UnpackAllUnit(s);
    UnitPick(ps, c);
    DotWithin(ps, |ps|, c);
    var d, t := Dot(ps, |ps|, c), Sum(ps, |ps|);
    assert WeightedSum(s, 8, c) == d && TotalWeight(s, 8) == t;
  }

  /** Every channel of a unit child, and its weight, is in [0, 1]. */
  lemma UnitPick(ps: seq<Unpacked>, c: Channel)
    requires UnitChannels(ps)
    ensures forall k :: 0 <= k < |ps| ==> 0.0 <= Pick(ps[k], c) <= 1.0 && 0.0 <= Weight(ps[k])
  {
  }

  /** With a positive total density, eight children of one colour average
      to that colour. */
  lemma UniformColourKept(s: Octants, colour: u32)
    requires forall k :: 0 <= k < 8 ==> s[k].colour == colour
    requires TotalWeight(s, 8) > 0.0
    ensures AverageColour(s) == colour
  {
    var v := UnpackF32(colour);
    var t := TotalWeight(s, 8);
    UniformAverage(s, Red, v.x);
    UniformAverage(s, Green, v.y);
    UniformAverage(s, Blue, v.z);
    UniformAverage(s, Alpha, v.w);
    assert AverageColour(s) == PackF32(v);
    PackUnpackF32(colour);
  }

  /** When every child has component v in channel c, the channel's average
      is v. */
  lemma UniformAverage(s: Octants, c: Channel, v: real)
    requires forall k :: 0 <= k < 8 ==> Pick(UnpackAll(s)[k], c) == v
    requires TotalWeight(s, 8) > 0.0
    ensures Quot(WeightedSum(s, 8, c), TotalWeight(s, 8)) == Finite(v)
  {
    UniformQuot(UnpackAll(s), c, v);
  }

  /** The same over unpacked children: a uniform channel divided by a
      positive total weight gives the channel's value back. */
  lemma UniformQuot(ps: seq<Unpacked>, c: Channel, v: real)
    requires |ps| == 8
    requires forall k :: 0 <= k < 8 ==> Pick(ps[k], c) == v
    requires Sum(ps, 8) > 0.0
    ensures Quot(Dot(ps, 8, c), Sum(ps, 8)) == Finite(v)
  {
    UniformDot(ps, 8, c, v);
    Cancel(Dot(ps, 8, c), v, Sum(ps, 8));
  }

  /** Dividing v times t by a non-zero t gives v. */
  lemma Cancel(q: real, v: real, t: real)
    requires t != 0.0 && q == v * t
    ensures Quot(q, t) == Finite(v)
  {
  }

  /** When every child has zero density the divisions are 0/0, whose
      not-a-number casts to 0: the colour is 0 and the normal's three
      direction bytes are 0. */
  lemma ZeroDensityBlack(s: Octants, density: real)
    requires forall k :: 0 <= k < 8 ==> Density(s[k]) == 0
    ensures AverageColour(s) == 0
    ensures UnpackU8(AverageNormal(s, density)).0 == 0
    ensures UnpackU8(AverageNormal(s, density)).1 == 0
    ensures UnpackU8(AverageNormal(s, density)).2 == 0
  {
    forall k | 0 <= k < 8
      ensures Weight(UnpackAll(s)[k]) == 0.0
    {
      WeightIsDensity(s, k);
    }
    ZeroSum(UnpackAll(s), 8);
    ZeroTotalZeroSums(s, Red);
    ZeroTotalZeroSums(s, Green);
    ZeroTotalZeroSums(s, Blue);
    ZeroTotalZeroSums(s, Alpha);
    ZeroTotalZeroSums(s, NormalX);
    ZeroTotalZeroSums(s, NormalY);
    ZeroTotalZeroSums(s, NormalZ);
    var d := CastU8(Times255(Finite(density)));
    UnpackPackU8((0, 0, 0, d));
  }

  /** With a positive total density the averaged colour's channels are
      weighted averages in [0, 1]: no channel saturates. */
  lemma AverageWithinUnit(s: Octants, c: Channel)
    requires TotalWeight(s, 8) > 0.0
    ensures var q := WeightedSum(s, 8, c) / TotalWeight(s, 8); 0.0 <= q <= 1.0
  {
    WeightedSumWithin(s, c);
    var t := TotalWeight(s, 8);
    var w := WeightedSum(s, 8, c);
    assert w / t <= 1.0 by {
      assert w <= t;
    }
  }

  /** The density a node reports is the sum of the four density bytes the
      network leaves in positions 2, 3, 6 and 7, saturated at 255. */
  lemma DensityByte(colour: (Float, Float, Float), d2: u8, d3: u8, d6: u8, d7: u8)
    ensures var density := (d2 + d3 + d6 + d7) as real / 255.0;
      var w := PackFloats(colour.0, colour.1, colour.2, Finite(density));
      UnpackU8(w).3 == (if d2 + d3 + d6 + d7 >= 255 then 255 else d2 + d3 + d6 + d7)
  {
    var density := (d2 + d3 + d6 + d7) as real / 255.0;
    var b := (CastU8(Times255(colour.0)), CastU8(Times255(colour.1)), CastU8(Times255(colour.2)),
              CastU8(Times255(Finite(density))));
    UnpackPackU8(b);
    assert density * 255.0 == (d2 + d3 + d6 + d7) as real;
  }
}
