/** The compare-exchange network of `fill_oct` (src/asset/oct_dag.rs): a copy
    of a node's eight octants is partly sorted by density, and the densities
    that end up in positions 2, 3, 6 and 7 are summed. */
module SortingNetwork {
  import opened Codec
  import opened Octants

  /** What `filter(a, b, arr)` does to the array's contents: the two entries
      are exchanged when the first is denser than the second. */
  function CompareExchange(s: seq<Octant>, a: nat, b: nat): (r: seq<Octant>)
    requires a < |s| && b < |s|
    ensures |r| == |s|
  {
    if Density(s[a]) > Density(s[b]) then s[a := s[b]][b := s[a]] else s
  }

  /** A compare-exchange leaves the denser of the two entries at b, exchanges
      them or leaves them in place, and touches nothing else. */
  lemma CompareExchangeOrders(s: seq<Octant>, a: nat, b: nat)
    requires a < |s| && b < |s| && a != b
    ensures var r := CompareExchange(s, a, b);
      && Density(r[a]) <= Density(r[b])
      && (Density(r[a]) == Density(s[a]) || Density(r[a]) == Density(s[b]))
      && (Density(r[b]) == Density(s[a]) || Density(r[b]) == Density(s[b]))
      && ((r[a] == s[a] && r[b] == s[b]) || (r[a] == s[b] && r[b] == s[a]))
      && (forall k :: 0 <= k < |s| && k != a && k != b ==> r[k] == s[k])
      && multiset(r) == multiset(s)
  {
    if Density(s[a]) > Density(s[b]) {
      var t := s[a := s[b]];
      assert multiset(t) == multiset(s) - multiset{s[a]} + multiset{s[b]};
      assert multiset(t[b := s[a]]) == multiset(t) - multiset{s[b]} + multiset{s[a]};
    }
  }

  /** The j-th exchange of the network's loop number `stage`. */
  function StagePair(stage: nat, j: nat): (p: (nat, nat))
    requires stage < 4 && j < StageLength(stage)
    ensures p.0 < 8 && p.1 < 8 && p.0 != p.1
  {
    match stage
    case 0 => (j * 2, j * 2 + 1)
    case 1 => (j * 4, j * 4 + 2)
    case 2 => (j * 4 + 1, j * 4 + 3)
    case 3 => (j * 4 + 2, j * 4 + 3)
  }

  function StageLength(stage: nat): nat
    requires stage < 4
  {
    if stage == 0 then 4 else 2
  }

  /** The first n compare-exchanges of one `for` loop of the network. */
  function Sweep(s: seq<Octant>, stage: nat, n: nat): (r: seq<Octant>)
    requires |s| == 8 && stage < 4 && n <= StageLength(stage)
    ensures |r| == 8
  {
    if n == 0 then s
    else CompareExchange(Sweep(s, stage, n - 1), StagePair(stage, n - 1).0, StagePair(stage, n - 1).1)
  }

  /** The whole network, loop by loop: (0,1) (2,3) (4,5) (6,7), then (0,2)
      (4,6), then (1,3) (5,7), then (2,3) (6,7). */
  function Network(s: Octants): (r: Octants)
  {
    Sweep(Sweep(Sweep(Sweep(s, 0, 4), 1, 2), 2, 2), 3, 2)
  }

  /** The network as a chain of ten compare-exchanges, one per step. */
  lemma NetworkChain(s: Octants)
    returns (t1: seq<Octant>, t2: seq<Octant>, t3: seq<Octant>, t4: seq<Octant>, t5: seq<Octant>,
             t6: seq<Octant>, t7: seq<Octant>, t8: seq<Octant>, t9: seq<Octant>, r: seq<Octant>)
    ensures |t1| == |t2| == |t3| == |t4| == |t5| == |t6| == |t7| == |t8| == |t9| == 8
    ensures t1 == CompareExchange(s, 0, 1) && t2 == CompareExchange(t1, 2, 3)
    ensures t3 == CompareExchange(t2, 4, 5) && t4 == CompareExchange(t3, 6, 7)
    ensures t5 == CompareExchange(t4, 0, 2) && t6 == CompareExchange(t5, 4, 6)
    ensures t7 == CompareExchange(t6, 1, 3) && t8 == CompareExchange(t7, 5, 7)
    ensures t9 == CompareExchange(t8, 2, 3) && r == CompareExchange(t9, 6, 7)
    ensures r == Network(s)
  {
    assert Sweep(s, 0, 0) == s;
    t1 := Sweep(s, 0, 1);
    t2 := Sweep(s, 0, 2);
    t3 := Sweep(s, 0, 3);
    t4 := Sweep(s, 0, 4);
    assert Sweep(t4, 1, 0) == t4;
    t5 := Sweep(t4, 1, 1);
    t6 := Sweep(t4, 1, 2);
    assert Sweep(t6, 2, 0) == t6;
    t7 := Sweep(t6, 2, 1);
    t8 := Sweep(t6, 2, 2);
    assert Sweep(t8, 3, 0) == t8;
    t9 := Sweep(t8, 3, 1);
    r := Sweep(t8, 3, 2);
  }

  /** The density the source accumulates: the density bytes in positions 2,
      3, 6 and 7 after the network, each divided by 255. */
  function PairDensity(s: seq<Octant>, j: nat): real
    requires 4 * j + 3 < |s|
  {
    Density(s[4 * j + 2]) as real / 255.0 + Density(s[4 * j + 3]) as real / 255.0
  }

  function AccumulatedDensity(s: seq<Octant>, n: nat): real
    requires 4 * n <= |s|
  {
    if n == 0 then 0.0 else AccumulatedDensity(s, n - 1) + PairDensity(s, n - 1)
  }

  /** The accumulated density reads only the first n groups of four. */
  lemma AccumulatedFrame(s: seq<Octant>, t: seq<Octant>, n: nat)
    requires 4 * n <= |s| && 4 * n <= |t|
    requires forall k :: 0 <= k < 4 * n ==> s[k] == t[k]
    ensures AccumulatedDensity(s, n) == AccumulatedDensity(t, n)
  {
    if n > 0 {
      AccumulatedFrame(s, t, n - 1);
      assert s[4 * (n - 1) + 2] == t[4 * (n - 1) + 2] && s[4 * (n - 1) + 3] == t[4 * (n - 1) + 3];
    }
  }

  /** The density an interior octant records: the density bytes that the
      network leaves in positions 2, 3, 6 and 7, each over 255. */
  function SortedDensity(s: Octants): real
  {
    var r := Network(s);
    (Density(r[2]) + Density(r[3]) + Density(r[6]) + Density(r[7])) as real / 255.0
  }

  /** `filter`: one compare-exchange, in place. */
  method Filter(a: nat, b: nat, arr: array<Octant>)
    requires a < arr.Length && b < arr.Length
    modifies arr
    ensures arr[..] == CompareExchange(old(arr[..]), a, b)
  {
    if Density(arr[a]) > Density(arr[b]) {
      var temp := arr[a];
      arr[a] := arr[b];
      arr[b] := temp;
    }
  }

  /** One of the first three `for` loops of the network, in place: loop
      `stage` runs `filter` on each of its pairs in turn. */
  method RunStage(stage: nat, copy: array<Octant>)
    requires stage < 3 && copy.Length == 8
    modifies copy
    ensures copy[..] == Sweep(old(copy[..]), stage, StageLength(stage))
  {
    ghost var s0: Octants := copy[..];
    for i := 0 to StageLength(stage)
      invariant copy[..] == Sweep(s0, stage, i)
    {
      Filter(StagePair(stage, i).0, StagePair(stage, i).1, copy);
    }
  }

  /** The network and the density sum of `fill_oct`, run on a fresh copy of
      the node's octants. The density reads positions 2, 3, 6 and 7 of the
      network's output and nothing else. */
  method NetworkDensity(octants: Octants) returns (density: real)
    ensures density == SortedDensity(octants)
  {
    var copy := new Octant[8](i requires 0 <= i < 8 => octants[i]);
    assert copy[..] == octants;
    RunStage(0, copy);
    RunStage(1, copy);
    RunStage(2, copy);
    ghost var s3: Octants := copy[..];
    density := 0.0;
    for i := 0 to 2
      invariant copy[..] == Sweep(s3, 3, i)
      invariant density == AccumulatedDensity(copy[..], i)
    {
      ghost var before := copy[..];
      Filter(i * 4 + 2, i * 4 + 3, copy);
      CompareExchangeOrders(before, i * 4 + 2, i * 4 + 3);
      AccumulatedFrame(copy[..], before, i);
      density := density + Density(copy[i * 4 + 2]) as real / 255.0 + Density(copy[i * 4 + 3]) as real / 255.0;
    }
    assert copy[..] == Network(octants);
    assert density == AccumulatedDensity(copy[..], 0) + PairDensity(copy[..], 0) + PairDensity(copy[..], 1);
  }

  /** A compare-exchange inside one half keeps each half's octants. */
  lemma CompareExchangeInHalf(s: seq<Octant>, a: nat, b: nat)
    requires |s| == 8 && a != b && ((a < 4 && b < 4) || (4 <= a < 8 && 4 <= b < 8))
    ensures var r := CompareExchange(s, a, b);
      multiset(r[..4]) == multiset(s[..4]) && multiset(r[4..]) == multiset(s[4..])
  {
    var r := CompareExchange(s, a, b);
    if a < 4 {
      assert r[..4] == CompareExchange(s[..4], a, b);
      assert r[4..] == s[4..];
      CompareExchangeOrders(s[..4], a, b);
    } else {
      assert r[4..] == CompareExchange(s[4..], a - 4, b - 4);
      assert r[..4] == s[..4];
      CompareExchangeOrders(s[4..], a - 4, b - 4);
    }
  }

  /** One compare-exchange of the network permutes the whole and each half. */
  lemma PermutationStep(s: seq<Octant>, a: nat, b: nat)
    requires |s| == 8 && a != b && ((a < 4 && b < 4) || (4 <= a < 8 && 4 <= b < 8))
    ensures var r := CompareExchange(s, a, b);
      multiset(r) == multiset(s) && multiset(r[..4]) == multiset(s[..4]) && multiset(r[4..]) == multiset(s[4..])
  {
    CompareExchangeOrders(s, a, b);
    CompareExchangeInHalf(s, a, b);
  }

  /** The network only permutes the octants, and never moves one across the
      halves 0..3 and 4..7. */
  lemma NetworkPermutes(s: Octants)
    ensures multiset(Network(s)) == multiset(s)
    ensures multiset(Network(s)[..4]) == multiset(s[..4])
    ensures multiset(Network(s)[4..]) == multiset(s[4..])
  {
    var t1, t2, t3, t4, t5, t6, t7, t8, t9, r := NetworkChain(s);
    PermutationStep(s, 0, 1);
    PermutationStep(t1, 2, 3);
    PermutationStep(t2, 4, 5);
    PermutationStep(t3, 6, 7);
    PermutationStep(t4, 0, 2);
    PermutationStep(t5, 4, 6);
    PermutationStep(t6, 1, 3);
    PermutationStep(t7, 5, 7);
    PermutationStep(t8, 2, 3);
    PermutationStep(t9, 6, 7);
  }

  function MinD(a: u8, b: u8): u8 { if a <= b then a else b }
  function MaxD(a: u8, b: u8): u8 { if a <= b then b else a }

  /** One compare-exchange of the network, as densities: the smaller density
      goes to a, the larger to b, nothing else moves. */
  lemma DensityStep(s: seq<Octant>, a: nat, b: nat) returns (r: seq<Octant>)
    requires |s| == 8 && a < 8 && b < 8 && a != b
    ensures r == CompareExchange(s, a, b)
    ensures |r| == 8 && r == s[a := r[a]][b := r[b]]
    ensures Density(r[a]) == MinD(Density(s[a]), Density(s[b]))
    ensures Density(r[b]) == MaxD(Density(s[a]), Density(s[b]))
  {
    r := CompareExchange(s, a, b);
  }

  type Quad = (u8, u8, u8, u8)

  /** The densities of the four octants of one half, from position o. */
  function HalfOf(s: seq<Octant>, o: nat): Quad
    requires o + 4 <= |s|
  {
    (Density(s[o]), Density(s[o + 1]), Density(s[o + 2]), Density(s[o + 3]))
  }

  /** One loop of the network on the densities of one half. */
  function QuadStage(stage: nat, d: Quad): Quad
    requires stage < 4
  {
    match stage
    case 0 => (MinD(d.0, d.1), MaxD(d.0, d.1), MinD(d.2, d.3), MaxD(d.2, d.3))
    case 1 => (MinD(d.0, d.2), d.1, MaxD(d.0, d.2), d.3)
    case 2 => (d.0, MinD(d.1, d.3), d.2, MaxD(d.1, d.3))
    case 3 => (d.0, d.1, MinD(d.2, d.3), MaxD(d.2, d.3))
  }

  /** What the network does to the four densities of one half. */
  function Net4(d: Quad): Quad
  {
    QuadStage(3, QuadStage(2, QuadStage(1, QuadStage(0, d))))
  }

  /** Each loop of the network acts on each half's densities alone. */
  lemma StageHalf(s: Octants, stage: nat, o: nat)
    requires stage < 4 && (o == 0 || o == 4)
    ensures HalfOf(Sweep(s, stage, StageLength(stage)), o) == QuadStage(stage, HalfOf(s, o))
  {
    assert Sweep(s, stage, 0) == s;
    var t1 := DensityStep(s, StagePair(stage, 0).0, StagePair(stage, 0).1);
    var t2 := DensityStep(t1, StagePair(stage, 1).0, StagePair(stage, 1).1);
    assert t2 == Sweep(s, stage, 2);
    if stage == 0 {
      var t3 := DensityStep(t2, 4, 5);
      var t4 := DensityStep(t3, 6, 7);
      assert t4 == Sweep(s, stage, 4);
    }
  }

  /** The network acts on each half's densities alone, as Net4. */
  lemma NetworkHalf(s: Octants, o: nat)
    requires o == 0 || o == 4
    ensures HalfOf(Network(s), o) == Net4(HalfOf(s, o))
  {
    var s1 := Sweep(s, 0, 4);
    var s2 := Sweep(s1, 1, 2);
    var s3 := Sweep(s2, 2, 2);
    StageHalf(s, 0, o);
    StageHalf(s1, 1, o);
    StageHalf(s2, 2, o);
    StageHalf(s3, 3, o);
  }

  /** Within one half, the first position ends least dense and the last
      densest. */
  lemma Net4Extremes(d: Quad)
    ensures var e := Net4(d);
      e.0 <= e.1 <= e.3 && e.0 <= e.2 <= e.3
  {
  }

  /** Bounds on the four densities of a half bound every density in it. */
  lemma HalfBetween(s: seq<Octant>, o: nat, lo: int, hi: int)
    requires o + 4 <= |s|
    requires var d := HalfOf(s, o);
      lo <= d.0 <= hi && lo <= d.1 <= hi && lo <= d.2 <= hi && lo <= d.3 <= hi
    ensures forall k :: o <= k < o + 4 ==> lo <= Density(s[k]) <= hi
  {
    forall k | o <= k < o + 4
      ensures lo <= Density(s[k]) <= hi
    {
      if k == o {
      } else if k == o + 1 {
      } else if k == o + 2 {
      } else {
      }
    }
  }

  /** In each half the densest octant ends in the last position (3 or 7) and
      the least dense in the first (0 or 4). */
  lemma NetworkExtremes(s: Octants)
    ensures var r := Network(s);
      (forall k :: 0 <= k < 4 ==> Density(r[0]) <= Density(r[k]) <= Density(r[3])) &&
      (forall k :: 4 <= k < 8 ==> Density(r[4]) <= Density(r[k]) <= Density(r[7]))
  {
    var r := Network(s);
    NetworkHalf(s, 0);
    NetworkHalf(s, 4);
    Net4Extremes(HalfOf(s, 0));
    Net4Extremes(HalfOf(s, 4));
    HalfBetween(r, 0, Density(r[0]), Density(r[3]));
    HalfBetween(r, 4, Density(r[4]), Density(r[7]));
  }

  /** The last exchanges (2,3) and (6,7) come after the maximum has already
      reached 3 and 7, so position 2 need not hold the second densest octant:
      densities (0, 5, 1, 2) leave 1 in position 2 and 2 in position 1. */
  lemma NetworkSecondNotSorted(s: Octants)
    requires HalfOf(s, 0) == (0, 5, 1, 2)
    ensures var r := Network(s);
      Density(r[1]) == 2 && Density(r[2]) == 1 && Density(r[3]) == 5
  {
    NetworkHalf(s, 0);
  }

  /** The last position of each half holds the half's densest octant. */
  lemma Net4Max(d: Quad)
    ensures d.0 <= Net4(d).3 && d.1 <= Net4(d).3 && d.2 <= Net4(d).3 && d.3 <= Net4(d).3
  {
  }

  /** The recorded density counts each half's densest octant, so it is at
      least any one child's density, and it is at most 4. */
  lemma SortedDensityBounds(s: Octants)
    ensures forall k :: 0 <= k < 8 ==> Density(s[k]) as real / 255.0 <= SortedDensity(s)
    ensures SortedDensity(s) <= 4.0
  {
    var r := Network(s);
    NetworkHalf(s, 0);
    NetworkHalf(s, 4);
    Net4Max(HalfOf(s, 0));
    Net4Max(HalfOf(s, 4));
    var m0, m1 := Density(r[3]), Density(r[7]);
    HalfBetween(s, 0, 0, m0);
    HalfBetween(s, 4, 0, m1);
    var total := Density(r[2]) + Density(r[3]) + Density(r[6]) + Density(r[7]);
    assert SortedDensity(s) == total as real / 255.0;
    assert m0 <= total && m1 <= total && total <= 1020;
    forall k | 0 <= k < 8
      ensures Density(s[k]) as real / 255.0 <= SortedDensity(s)
    {
      assert Density(s[k]) <= total;
    }
  }
}
