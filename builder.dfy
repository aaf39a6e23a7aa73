/** `OctDag::new_test` and `OctDag::fill_oct` (src/asset/oct_dag.rs): the
    recursive subdivision that evaluates the scene at each cell, bakes leaves,
    recurses into cells that straddle a surface, deduplicates the nodes it
    builds per depth and aggregates their attributes. */
module OctDagBuilder {
  import opened Wrappers
  import opened Codec
  import opened Octants
  import opened Volumes
  import opened Colours
  import opened Presets
  import opened SortingNetwork
  import opened Aggregation
  import opened Dedup

  /** `i32::pow(2, n)`, for the depths the builder accepts (at most 16). */
  function Pow2(n: nat): (p: nat)
    ensures p >= 1
  {
    if n == 0 then 1 else 2 * Pow2(n - 1)
  }

  /** How the builder sees the volumes: each volume's distance and direction
      at a cell position. */
  type Evaluator = (VolumeType, Pos) -> Vec4

  /** `volume.0.evaluate(pos, max_level_size)`: the scene's own evaluation at
      the full grid size `2^maxDepth`, with `sqrt` for the square root. */
  function SceneEvaluator(maxDepth: nat, sqrt: real -> real): Evaluator
  {
    (v: VolumeType, p: Pos) => Evaluate(v, p, Pow2(maxDepth) as real, sqrt)
  }

  /** The signed distance of every volume of the scene at a position. */
  function Distances(volumes: Scene, pos: Pos, eval: Evaluator): (xs: seq<real>)
    ensures |xs| == |volumes|
  {
    seq(|volumes|, j requires 0 <= j < |volumes| => eval(volumes[j].0, pos).x)
  }

  /** The position of the first smallest value: every value is at least as
      large, and every earlier value is strictly larger. */
  function FirstMinimum(xs: seq<real>): (k: nat)
    requires |xs| > 0
    ensures k < |xs|
  {
    if |xs| == 1 then 0
    else
      var k := FirstMinimum(xs[..|xs| - 1]);
      if xs[|xs| - 1] < xs[k] then |xs| - 1 else k
  }

  /** The first minimum is a minimum, and every earlier value is strictly
      larger: ties go to the earliest position. */
  lemma {:induction false} FirstMinimumSpec(xs: seq<real>)
    requires |xs| > 0
    ensures forall j :: 0 <= j < |xs| ==> xs[FirstMinimum(xs)] <= xs[j]
    ensures forall j :: 0 <= j < FirstMinimum(xs) ==> xs[FirstMinimum(xs)] < xs[j]
  {
    if |xs| > 1 {
      var init := xs[..|xs| - 1];
      FirstMinimumSpec(init);
      assert forall j :: 0 <= j < |init| ==> init[j] == xs[j];
    }
  }

  /** The volume `fill_oct` picks at a position. */
  function Select(volumes: Scene, pos: Pos, eval: Evaluator): (k: nat)
    requires |volumes| > 0
    ensures k < |volumes|
  {
    FirstMinimum(Distances(volumes, pos, eval))
  }

  /** The picked volume's distance and direction at a position. */
  function Probe(volumes: Scene, pos: Pos, eval: Evaluator): Vec4
    requires |volumes| > 0
  {
    eval(volumes[Select(volumes, pos, eval)].0, pos)
  }

  /** What `fill_oct` makes of a cell. */
  datatype Kind = Leaf | Interior | Empty

  /** The cell test on the distance scaled by the level size: deep inside
      (below -1), or anywhere not outside at the last depth, is a leaf;
      within one level of the surface above the last depth is interior;
      outside (above 1) is empty. */
  function Classify(x: real, atMaxDepth: bool): (kind: Kind)
  {
    if x < -1.0 || (atMaxDepth && x <= 1.0) then Leaf
    else if x <= 1.0 then Interior
    else Empty
  }

  /** The classification of a cell at a depth. */
  function KindAt(volumes: Scene, pos: Pos, depth: nat, maxDepth: nat, eval: Evaluator): Kind
    requires |volumes| > 0 && depth <= maxDepth
  {
    Classify(Probe(volumes, pos, eval).x / Pow2(maxDepth - depth) as real, depth == maxDepth)
  }

  /** Solid before surface before empty. */
  function Rank(k: Kind): nat
  {
    match k
    case Leaf => 0
    case Interior => 1
    case Empty => 2
  }

  /** `Vec3::length` of a volume's direction (the last three channels). */
  function DirectionLength(vol: Vec4, sqrt: real -> real): real
  {
    sqrt(vol.y * vol.y + vol.z * vol.z + vol.w * vol.w)
  }

  /** The packed leaf normal: the direction divided by its length (`sqrt`
      stands for `Vec3::length`'s square root) and a full density of 1. */
  function LeafNormal(vol: Vec4, sqrt: real -> real): u32
  {
    var len := DirectionLength(vol, sqrt);
    PackFloats(Quot(vol.y, len), Quot(vol.z, len), Quot(vol.w, len), Finite(1.0))
  }

  /** A leaf: the material's colour at the cell, the packed unit direction,
      and no child. */
  function LeafOctant(t: ColourType, pos: Pos, maxDepth: nat, vol: Vec4, sqrt: real -> real): Octant
  {
    ColourOf(t, pos, Pow2(maxDepth)).(normal := LeafNormal(vol, sqrt))
  }

  /** A packed byte approximates a direction component over the length,
      clamped to [0, 1]: never above it and less than one step of 1/255
      below it. */
  predicate Quantised(b: u8, c: real, len: real)
    requires len > 0.0
  {
    if c <= 0.0 then b == 0
    else if c >= len then b == 255
    else b as real <= 255.0 * (c / len) < b as real + 1.0
  }

  /** One component of a leaf normal: the component divided by the length,
      times 255, cast to a byte. A zero length gives an infinity of the
      component's sign, or not-a-number for a zero component. */
  lemma LeafChannel(c: real, len: real)
    ensures len > 0.0 ==> Quantised(CastU8(Times255(Quot(c, len))), c, len)
    ensures len == 0.0 ==> CastU8(Times255(Quot(c, len))) == if c > 0.0 then 255 else 0
  {
    QuotSpec(c, len);
    if len > 0.0 {
      QuotientBounds(c, len);
      CastU8Spec(Times255(Quot(c, len)));
    }
  }

  /** Scaling by a positive value keeps a strict order. */
  lemma ScalePositive(a: real, b: real, w: real)
    requires a < b && 0.0 < w
    ensures a * w < b * w
  {
    assert (b - a) * w > 0.0;
  }

  /** Over a positive length, a component is at most 0, at least 1 or in
      between exactly when the component is at most 0, at least the length
      or in between. */
  lemma QuotientBounds(c: real, len: real)
    requires 0.0 < len
    ensures c <= 0.0 ==> c / len <= 0.0
    ensures c >= len ==> c / len >= 1.0
    ensures c < len ==> c / len < 1.0
  {
    var q := c / len;
    assert q * len == c;
    if 0.0 < q {
      ScalePositive(0.0, q, len);
    }
    if q < 1.0 {
      ScalePositive(q, 1.0, len);
    } else if 1.0 < q {
      ScalePositive(1.0, q, len);
    }
  }

  /** A direction over a length, packed with a density of 1: the first
      three bytes are the quantised components and the last is 255. */
  lemma PackedDirection(y: real, z: real, w: real, len: real)
    ensures var n := UnpackU8(PackFloats(Quot(y, len), Quot(z, len), Quot(w, len), Finite(1.0)));
      && n.3 == 255
      && (len > 0.0 ==> Quantised(n.0, y, len) && Quantised(n.1, z, len) && Quantised(n.2, w, len))
      && (len == 0.0 ==>
            n.0 == (if y > 0.0 then 255 else 0) && n.1 == (if z > 0.0 then 255 else 0) &&
            n.2 == (if w > 0.0 then 255 else 0))
  {
    LeafChannel(y, len);
    LeafChannel(z, len);
    LeafChannel(w, len);
    UnpackPackFloats(Quot(y, len), Quot(z, len), Quot(w, len), Finite(1.0));
  }

  /** The leaf normal carries a full density of 255 and each direction
      component divided by the length, clamped to [0, 1] and quantised; for a
      zero length each component saturates to 255 when positive and is 0
      otherwise. */
  lemma LeafNormalSpec(vol: Vec4, sqrt: real -> real)
    ensures var len := DirectionLength(vol, sqrt);
      var n := UnpackU8(LeafNormal(vol, sqrt));
      && n.3 == 255
      && (len > 0.0 ==> Quantised(n.0, vol.y, len) && Quantised(n.1, vol.z, len) && Quantised(n.2, vol.w, len))
      && (len == 0.0 ==>
            n.0 == (if vol.y > 0.0 then 255 else 0) && n.1 == (if vol.z > 0.0 then 255 else 0) &&
            n.2 == (if vol.w > 0.0 then 255 else 0))
  {
    PackedDirection(vol.y, vol.z, vol.w, DirectionLength(vol, sqrt));
  }

  /** A leaf has no child and no spare word, takes its colour from the
      volume's material at the cell, and is fully dense. */
  lemma LeafOctantSpec(t: ColourType, pos: Pos, maxDepth: nat, vol: Vec4, sqrt: real -> real)
    ensures var o := LeafOctant(t, pos, maxDepth, vol, sqrt);
      && o.index.Null? && o.extra == 0
      && o.colour == ColourOf(t, pos, Pow2(maxDepth)).colour
      && Density(o) == 255
  {
    ColourOfSpec(t, pos, Pow2(maxDepth));
    LeafNormalSpec(vol, sqrt);
    PackU8Ends(UnpackU8(LeafNormal(vol, sqrt)));
  }

  /** The facts about one octant that follow from its cell's classification
      alone. */
  predicate FilledAs(o: Octant, volumes: Scene, pos: Pos, depth: nat, maxDepth: nat, eval: Evaluator, sqrt: real -> real)
    requires |volumes| > 0 && depth <= maxDepth
  {
    match KindAt(volumes, pos, depth, maxDepth, eval)
    case Leaf =>
      o == LeafOctant(volumes[Select(volumes, pos, eval)].1, pos, maxDepth,
                      Probe(volumes, pos, eval), sqrt)
    case Empty => o == NewOctant()
    case Interior => o.index.Ref? && o.extra == 0
  }

  /** The eight children of an interior cell, each filled as its own cell
      requires: child i at `pos + OCTANT_LIST[i] * 2^(max_depth - depth - 1)`,
      one depth down. */
  predicate ChildrenFilled(children: Octants, volumes: Scene, pos: Pos, depth: nat, maxDepth: nat, eval: Evaluator, sqrt: real -> real)
    requires |volumes| > 0 && depth < maxDepth
  {
    forall i {:trigger children[i]} :: 0 <= i < 8 ==>
      FilledAs(children[i], volumes, pos.Plus(OCTANT_LIST[i].Times(Pow2(maxDepth - depth - 1))), depth + 1, maxDepth, eval, sqrt)
  }

  /** An interior octant carries its children's attributes: the
      density-weighted average colour, and the density-weighted average
      direction with the density the sorting network leaves. */
  predicate Aggregated(o: Octant, children: Octants)
  {
    o.colour == AverageColour(children) && o.normal == AverageNormal(children, SortedDensity(children))
  }

  /** Every child a node names lies in [1, bound): never the root. */
  predicate RefsWithin(n: Node, bound: nat)
  {
    forall i :: 0 <= i < 8 && n.octants[i].index.Ref? ==> 1 <= n.octants[i].index.index < bound
  }

  /** A dedup list of the graph: it names non-root nodes, none twice. */
  predicate LevelOk(nodes: seq<Node>, list: seq<nat>)
  {
    InGraph(nodes, list) && (forall j :: 0 <= j < |list| ==> 1 <= list[j]) && Distinct(nodes, list)
  }

  predicate LevelsOk(nodes: seq<Node>, levels: seq<seq<nat>>)
  {
    forall d :: 0 <= d < |levels| ==> LevelOk(nodes, levels[d])
  }

  /** The most nodes a call at h levels above the last depth can append:
      one for its own cell and as many for each of its eight children. */
  function MaxNewNodes(h: nat): nat
  {
    if h == 0 then 0 else 1 + 8 * MaxNewNodes(h - 1)
  }

  /** i copies of b, added up. */
  function Repeat(i: nat, b: nat): (r: nat)
    ensures r == i * b
  {
    if i == 0 then 0 else Repeat(i - 1, b) + b
  }

  function Pow8(h: nat): nat
  {
    if h == 0 then 1 else 8 * Pow8(h - 1)
  }

  /** The bound is the size of a full octree of height h,
      1 + 8 + ... + 8^(h-1) = (8^h - 1) / 7. */
  lemma {:induction false} MaxNewNodesClosed(h: nat)
    ensures 7 * MaxNewNodes(h) + 1 == Pow8(h)
  {
    if h > 0 {
      MaxNewNodesClosed(h - 1);
    }
  }

  /** Appending a node leaves every dedup list valid. */
  lemma LevelsOkAppend(nodes: seq<Node>, levels: seq<seq<nat>>, n: Node)
    requires LevelsOk(nodes, levels)
    ensures LevelsOk(nodes + [n], levels)
  {
    var nodes' := nodes + [n];
    forall d | 0 <= d < |levels|
      ensures LevelOk(nodes', levels[d])
    {
      var list := levels[d];
      assert LevelOk(nodes, list);
      forall a, b | 0 <= a < b < |list|
        ensures !Matches(nodes'[list[a]], nodes'[list[b]].octants)
      {
        assert nodes'[list[a]] == nodes[list[a]] && nodes'[list[b]] == nodes[list[b]];
      }
    }
  }

  /** Appending a node that matches no listed node of its depth, and listing
      it there, keeps that list free of agreeing entries. */
  lemma LevelsOkPush(nodes: seq<Node>, levels: seq<seq<nat>>, depth: nat, n: Node)
    requires |nodes| >= 1 && LevelsOk(nodes, levels) && depth < |levels|
    requires forall j :: 0 <= j < |levels[depth]| ==> !Matches(nodes[levels[depth][j]], n.octants)
    ensures LevelsOk(nodes + [n], levels[depth := levels[depth] + [|nodes|]])
  {
    LevelsOkAppend(nodes, levels, n);
    var nodes' := nodes + [n];
    var list := levels[depth] + [|nodes|];
    assert LevelOk(nodes', levels[depth]);
    forall j | 0 <= j < |list|
      ensures 1 <= list[j] < |nodes'|
    {
      if j < |list| - 1 {
        assert list[j] == levels[depth][j];
      }
    }
    forall a, b | 0 <= a < b < |list|
      ensures !Matches(nodes'[list[a]], nodes'[list[b]].octants)
    {
      if b == |list| - 1 {
        assert nodes'[list[a]] == nodes[levels[depth][a]];
      } else {
        assert list[a] == levels[depth][a] && list[b] == levels[depth][b];
      }
    }
    assert LevelOk(nodes', list);
  }

  /** The graph is acyclic: every node but the root names only nodes
      appended before it, and no node names the root. */
  predicate Acyclic(nodes: seq<Node>)
  {
    |nodes| >= 1 && RefsWithin(nodes[0], |nodes|) &&
    forall k :: 1 <= k < |nodes| ==> RefsWithin(nodes[k], k)
  }

  /** Writing an octant of the root that names an existing non-root node
      keeps the graph acyclic and the dedup lists valid. */
  lemma SetRootOctant(nodes: seq<Node>, levels: seq<seq<nat>>, i: nat, o: Octant)
    requires Acyclic(nodes) && LevelsOk(nodes, levels) && i < 8
    requires o.index.Ref? ==> 1 <= o.index.index < |nodes|
    ensures Acyclic(nodes[0 := Node(nodes[0].octants[i := o])])
    ensures LevelsOk(nodes[0 := Node(nodes[0].octants[i := o])], levels)
  {
    var nodes' := nodes[0 := Node(nodes[0].octants[i := o])];
    forall d | 0 <= d < |levels|
      ensures LevelOk(nodes', levels[d])
    {
      var list := levels[d];
      assert LevelOk(nodes, list);
      forall a, b | 0 <= a < b < |list|
        ensures !Matches(nodes'[list[a]], nodes'[list[b]].octants)
      {
        assert nodes'[list[a]] == nodes[list[a]] && nodes'[list[b]] == nodes[list[b]];
      }
    }
  }

  /** Root octant i, when its cell is interior, names a non-root node that
      matches `children`, and those children are each filled as their own
      cell at depth 2. */
  predicate RootChildBuilt(nodes: seq<Node>, o: Octant, children: Octants, volumes: Scene, i: nat, maxDepth: nat,
                           eval: Evaluator, sqrt: real -> real)
    requires |volumes| > 0 && i < 8 && maxDepth >= 1
  {
    KindAt(volumes, RootChild(i, maxDepth), 1, maxDepth, eval) == Interior ==>
      && 1 < maxDepth && o.index.Ref? && 1 <= o.index.index < |nodes|
      && Matches(nodes[o.index.index], children)
      && ChildrenFilled(children, volumes, RootChild(i, maxDepth), 1, maxDepth, eval, sqrt)
  }

  /** Appending nodes and rewriting the root keeps what a root octant's
      node says about its children. */
  lemma RootChildBuiltKept(nodes: seq<Node>, nodes': seq<Node>, o: Octant, children: Octants, volumes: Scene, i: nat,
                           maxDepth: nat, eval: Evaluator, sqrt: real -> real)
    requires |volumes| > 0 && i < 8 && maxDepth >= 1
    requires 1 <= |nodes| <= |nodes'| && nodes'[1..|nodes|] == nodes[1..]
    requires RootChildBuilt(nodes, o, children, volumes, i, maxDepth, eval, sqrt)
    ensures RootChildBuilt(nodes', o, children, volumes, i, maxDepth, eval, sqrt)
  {
    if KindAt(volumes, RootChild(i, maxDepth), 1, maxDepth, eval) == Interior {
      var k := o.index.index;
      assert nodes'[1..|nodes|][k - 1] == nodes[1..][k - 1];
    }
  }

  /** `OctDag`: the node array; node 0 is the root. */
  class OctDag {
    var nodes: seq<Node>

    /** The graph is acyclic: every node but the root names only nodes
        appended before it, and no node names the root. */
    predicate Valid()
      reads this
    {
      Acyclic(nodes)
    }

    /** `OctDag { nodes: Vec::new() }`. */
    constructor()
      ensures nodes == []
    {
      nodes := [];
    }

    /** `OctDag::new_test`: rejects depths above 16 first, then depths below
        the preset's minimum; otherwise a root whose eight octants are filled
        at the eight corners of the half-size grid, at depth 1. */
    static method NewTest(t: TestDagType, maxDepth: nat, sqrt: real -> real)
      returns (r: Result<OctDag, BuildError>, ghost children: seq<Octants>)
      ensures r.Err? <==> maxDepth > 16 || maxDepth < MinDepth(t)
      ensures r.Err? ==> r.error == (if maxDepth > 16 then DepthOutOfBounds else DepthBelowPreset)
      ensures r.Ok? ==> fresh(r.value) && r.value.Valid()
      ensures r.Ok? ==> |r.value.nodes| <= MaxNewNodes(maxDepth)
      ensures r.Ok? ==> forall i :: 0 <= i < 8 ==>
        FilledAs(r.value.nodes[0].octants[i], SceneOf(t, maxDepth).value, RootChild(i, maxDepth), 1, maxDepth,
                 SceneEvaluator(maxDepth, sqrt), sqrt)
      ensures r.Ok? ==> |children| == 8 && forall i :: 0 <= i < 8 ==>
        RootChildBuilt(r.value.nodes, r.value.nodes[0].octants[i], children[i], SceneOf(t, maxDepth).value, i, maxDepth,
                       SceneEvaluator(maxDepth, sqrt), sqrt)
    {
      children := [];
      if maxDepth > 16 {
        return Err(DepthOutOfBounds), children;
      }
      var scene := SceneOf(t, maxDepth);
      if scene.Err? {
        return Err(DepthBelowPreset), children;
      }
      var dag := new OctDag();
      dag.nodes := dag.nodes + [NewNode()];
      children := dag.FillRoot(scene.value, maxDepth, SceneEvaluator(maxDepth, sqrt), sqrt);
      return Ok(dag), children;
    }

    /** The loop of `new_test` over the root's octants, with one empty dedup
        list per depth. */
    method FillRoot(volumes: Scene, maxDepth: nat, eval: Evaluator, sqrt: real -> real) returns (ghost children: seq<Octants>)
      requires |volumes| > 0 && maxDepth >= 1
      requires nodes == [NewNode()]
      modifies this
      ensures Valid() && |nodes| <= MaxNewNodes(maxDepth)
      ensures forall i :: 0 <= i < 8 ==> FilledAs(nodes[0].octants[i], volumes, RootChild(i, maxDepth), 1, maxDepth, eval, sqrt)
      ensures |children| == 8 && forall i :: 0 <= i < 8 ==>
        RootChildBuilt(nodes, nodes[0].octants[i], children[i], volumes, i, maxDepth, eval, sqrt)
    {
      var levels: seq<seq<nat>> := seq(maxDepth, _ => []);
      children := seq(8, _ => EmptyEight());
      for i := 0 to 8
        invariant Valid() && LevelsOk(nodes, levels) && |levels| == maxDepth
        invariant |nodes| <= 1 + Repeat(i, MaxNewNodes(maxDepth - 1))
        invariant forall j :: 0 <= j < i ==> FilledAs(nodes[0].octants[j], volumes, RootChild(j, maxDepth), 1, maxDepth, eval, sqrt)
        invariant |children| == 8
        invariant forall j :: 0 <= j < i ==>
          RootChildBuilt(nodes, nodes[0].octants[j], children[j], volumes, j, maxDepth, eval, sqrt)
      {
        ghost var before := nodes;
        ghost var built;
        levels, built := FillRootOctant(volumes, levels, i, maxDepth, eval, sqrt);
        forall j | 0 <= j < i
          ensures RootChildBuilt(nodes, nodes[0].octants[j], children[j], volumes, j, maxDepth, eval, sqrt)
        {
          RootChildBuiltKept(before, nodes, before[0].octants[j], children[j], volumes, j, maxDepth, eval, sqrt);
        }
        children := children[i := built];
      }
    }

    /** One pass of the loop of `new_test`: octant i of the root, filled at
        depth 1 and written into the root. */
    method FillRootOctant(volumes: Scene, levels: seq<seq<nat>>, i: nat, maxDepth: nat, eval: Evaluator, sqrt: real -> real)
      returns (levels': seq<seq<nat>>, ghost children: Octants)
      requires Valid() && |volumes| > 0 && maxDepth >= 1 && i < 8
      requires |levels| == maxDepth && LevelsOk(nodes, levels)
      modifies this
      ensures Valid() && LevelsOk(nodes, levels') && |levels'| == maxDepth
      ensures |old(nodes)| <= |nodes| <= |old(nodes)| + MaxNewNodes(maxDepth - 1)
      ensures nodes[1..|old(nodes)|] == old(nodes)[1..]
      ensures forall j :: 0 <= j < 8 && j != i ==> nodes[0].octants[j] == old(nodes[0].octants[j])
      ensures FilledAs(nodes[0].octants[i], volumes, RootChild(i, maxDepth), 1, maxDepth, eval, sqrt)
      ensures RootChildBuilt(nodes, nodes[0].octants[i], children, volumes, i, maxDepth, eval, sqrt)
    {
      var nextLevelSize := Pow2(maxDepth - 1);
      var o;
      ghost var before := nodes;
      o, levels', children := FillOct(volumes, levels, OCTANT_LIST[i].Times(nextLevelSize), 1, maxDepth, eval, sqrt);
      assert nodes[0] == before[0];
      SetRootOctant(nodes, levels', i, o);
      nodes := nodes[0 := Node(nodes[0].octants[i := o])];
    }

    /** `fill_oct`: the octant for the cell at `pos` and `depth`. Leaves and
        empty cells change nothing; an interior cell builds its eight
        children first, each filled as its own cell, then names an agreeing
        node of its depth or appends its own, and carries its children's
        aggregated attributes (stated on BuildInterior). `children` is the
        interior cell's eight children. */
    method FillOct(volumes: Scene, levels: seq<seq<nat>>, pos: Pos, depth: nat, maxDepth: nat, eval: Evaluator, sqrt: real -> real)
      returns (o: Octant, levels': seq<seq<nat>>, ghost children: Octants)
      requires Valid() && |volumes| > 0 && 1 <= depth <= maxDepth
      requires |levels| == maxDepth && LevelsOk(nodes, levels)
      modifies this
      decreases maxDepth - depth, 3
      ensures Valid() && LevelsOk(nodes, levels') && |levels'| == |levels|
      ensures forall d :: 0 <= d < |levels| ==> levels[d] <= levels'[d]
      ensures |old(nodes)| <= |nodes| <= |old(nodes)| + MaxNewNodes(maxDepth - depth)
      ensures nodes[..|old(nodes)|] == old(nodes)
      ensures o.index.Ref? ==> 1 <= o.index.index < |nodes|
      ensures FilledAs(o, volumes, pos, depth, maxDepth, eval, sqrt)
      ensures KindAt(volumes, pos, depth, maxDepth, eval) != Interior ==> nodes == old(nodes) && levels' == levels
      ensures KindAt(volumes, pos, depth, maxDepth, eval) == Interior ==>
        && depth < maxDepth && Matches(nodes[o.index.index], children)
        && ChildrenFilled(children, volumes, pos, depth, maxDepth, eval, sqrt)
    {
      children := EmptyEight();
      var levelSize := Pow2(maxDepth - depth);
      o := NewOctant();
      levels' := levels;
      var k, vol := SelectVolume(volumes, pos, eval);
      var x := vol.x / levelSize as real;
      if x < -1.0 || (depth == maxDepth && x <= 1.0) {
        o := LeafOctant(volumes[k].1, pos, maxDepth, vol, sqrt);
      } else if x <= 1.0 {
        o, levels', children := BuildInterior(volumes, levels, pos, depth, maxDepth, eval, sqrt);
      }
    }

    /** The interior branch of `fill_oct`: the eight children, the dedup
        step, and the children's aggregated attributes. */
    method BuildInterior(volumes: Scene, levels: seq<seq<nat>>, pos: Pos, depth: nat, maxDepth: nat, eval: Evaluator, sqrt: real -> real)
      returns (o: Octant, levels': seq<seq<nat>>, ghost children: Octants)
      requires Valid() && |volumes| > 0 && 1 <= depth < maxDepth
      requires |levels| == maxDepth && LevelsOk(nodes, levels)
      modifies this
      decreases maxDepth - depth, 2
      ensures Valid() && LevelsOk(nodes, levels') && |levels'| == |levels|
      ensures forall d :: 0 <= d < |levels| ==> levels[d] <= levels'[d]
      ensures |old(nodes)| <= |nodes| <= |old(nodes)| + MaxNewNodes(maxDepth - depth)
      ensures nodes[..|old(nodes)|] == old(nodes)
      ensures o.index.Ref? && 1 <= o.index.index < |nodes| && o.extra == 0
      ensures o.index.index in levels'[depth] && Matches(nodes[o.index.index], children)
      ensures Aggregated(o, children)
      ensures ChildrenFilled(children, volumes, pos, depth, maxDepth, eval, sqrt)
    {
      var node;
      node, levels' := FillChildren(volumes, levels, pos, depth, maxDepth, eval, sqrt);
      var index;
      ghost var levels1 := levels';
      index, levels' := Deduplicate(node, levels', depth);
      forall d | 0 <= d < |levels|
        ensures levels[d] <= levels'[d]
      {
        assert levels[d] <= levels1[d] <= levels'[d];
      }
      var colour, normal := Attributes(node);
      o := Octant(Ref(index), colour, normal, 0);
      children := node;
    }

    /** The network density and the weighted averages of `fill_oct`. */
    static method Attributes(node: Octants) returns (colour: u32, normal: u32)
      ensures colour == AverageColour(node) && normal == AverageNormal(node, SortedDensity(node))
    {
      var density := NetworkDensity(node);
      colour, normal := Aggregate(node, density);
    }

    /** The selection loop of `fill_oct`: the first volume with the smallest
        distance at `pos`, and its evaluation. */
    method SelectVolume(volumes: Scene, pos: Pos, eval: Evaluator) returns (k: nat, vol: Vec4)
      requires |volumes| > 0
      ensures k == Select(volumes, pos, eval)
      ensures vol == eval(volumes[k].0, pos)
    {
      ghost var xs := Distances(volumes, pos, eval);
      k := 0;
      vol := eval(volumes[0].0, pos);
      for i := 0 to |volumes|
        invariant k < |volumes| && vol == eval(volumes[k].0, pos)
        invariant k == FirstMinimum(xs[..if i == 0 then 1 else i])
      {
        var v := eval(volumes[i].0, pos);
        if i > 0 {
          assert xs[..i + 1][..i] == xs[..i];
        }
        if v.x < vol.x {
          k := i;
          vol := v;
        }
      }
      assert xs[..|volumes|] == xs;
    }

    /** The eight recursive calls of an interior cell, one per direction of
        `OCTANT_LIST`, at half the level size. */
    method FillChildren(volumes: Scene, levels: seq<seq<nat>>, pos: Pos, depth: nat, maxDepth: nat, eval: Evaluator, sqrt: real -> real)
      returns (node: Octants, levels': seq<seq<nat>>)
      requires Valid() && |volumes| > 0 && 1 <= depth < maxDepth
      requires |levels| == maxDepth && LevelsOk(nodes, levels)
      modifies this
      decreases maxDepth - depth, 1
      ensures Valid() && LevelsOk(nodes, levels') && |levels'| == |levels|
      ensures forall d :: 0 <= d < |levels| ==> levels[d] <= levels'[d]
      ensures |old(nodes)| <= |nodes| <= |old(nodes)| + 8 * MaxNewNodes(maxDepth - depth - 1)
      ensures nodes[..|old(nodes)|] == old(nodes)
      ensures RefsWithin(Node(node), |nodes|)
      ensures forall i :: 0 <= i < 8 ==>
        FilledAs(node[i], volumes, pos.Plus(OCTANT_LIST[i].Times(Pow2(maxDepth - depth - 1))), depth + 1, maxDepth, eval, sqrt)
    {
      node := EmptyEight();
      levels' := levels;
      for i := 0 to 8
        invariant Valid() && LevelsOk(nodes, levels') && |levels'| == |levels|
        invariant forall d :: 0 <= d < |levels| ==> levels[d] <= levels'[d]
        invariant |old(nodes)| <= |nodes| <= |old(nodes)| + Repeat(i, MaxNewNodes(maxDepth - depth - 1))
        invariant nodes[..|old(nodes)|] == old(nodes)
        invariant RefsWithin(Node(node), |nodes|)
        invariant forall j :: 0 <= j < i ==>
          FilledAs(node[j], volumes, pos.Plus(OCTANT_LIST[j].Times(Pow2(maxDepth - depth - 1))), depth + 1, maxDepth, eval, sqrt)
      {
        ghost var before := nodes;
        ghost var levelsBefore := levels';
        node, levels' := FillChild(volumes, levels', pos, depth, maxDepth, eval, sqrt, node, i);
        assert before <= nodes;
        forall d | 0 <= d < |levels|
          ensures levels[d] <= levels'[d]
        {
          assert levels[d] <= levelsBefore[d] <= levels'[d];
        }
      }
    }

    /** One pass of the loop over an interior cell's children: the recursive
        call for child i, stored in slot i. */
    method FillChild(volumes: Scene, levels: seq<seq<nat>>, pos: Pos, depth: nat, maxDepth: nat, eval: Evaluator,
                     sqrt: real -> real, node: Octants, i: nat)
      returns (node': Octants, levels': seq<seq<nat>>)
      requires Valid() && |volumes| > 0 && 1 <= depth < maxDepth && i < 8
      requires |levels| == maxDepth && LevelsOk(nodes, levels) && RefsWithin(Node(node), |nodes|)
      modifies this
      decreases maxDepth - depth, 0
      ensures Valid() && LevelsOk(nodes, levels') && |levels'| == |levels|
      ensures forall d :: 0 <= d < |levels| ==> levels[d] <= levels'[d]
      ensures |old(nodes)| <= |nodes| <= |old(nodes)| + MaxNewNodes(maxDepth - depth - 1)
      ensures nodes[..|old(nodes)|] == old(nodes)
      ensures RefsWithin(Node(node'), |nodes|)
      ensures forall j :: 0 <= j < 8 && j != i ==> node'[j] == node[j]
      ensures FilledAs(node'[i], volumes, pos.Plus(OCTANT_LIST[i].Times(Pow2(maxDepth - depth - 1))), depth + 1, maxDepth, eval, sqrt)
    {
      var nextLevelSize := Pow2(maxDepth - (depth + 1));
      var child;
      ghost var children;
      child, levels', children := FillOct(volumes, levels, pos.Plus(OCTANT_LIST[i].Times(nextLevelSize)), depth + 1, maxDepth, eval, sqrt);
      node' := node[i := child];
    }

    /** The dedup step: the first node listed at this depth that agrees with
        the candidate, or else the candidate appended to the graph and
        listed. */
    method Deduplicate(node: Octants, levels: seq<seq<nat>>, depth: nat) returns (index: nat, levels': seq<seq<nat>>)
      requires Valid() && RefsWithin(Node(node), |nodes|)
      requires depth < |levels| && LevelsOk(nodes, levels)
      modifies this
      ensures Valid() && LevelsOk(nodes, levels') && |levels'| == |levels|
      ensures forall d :: 0 <= d < |levels| ==> levels[d] <= levels'[d]
      ensures 1 <= index < |nodes| && index in levels'[depth] && Matches(nodes[index], node)
      ensures |old(nodes)| <= |nodes| <= |old(nodes)| + 1 && nodes[..|old(nodes)|] == old(nodes)
      ensures (exists j :: 0 <= j < |levels[depth]| && Matches(old(nodes)[levels[depth][j]], node)) ==>
        nodes == old(nodes) && levels' == levels
      ensures (forall j :: 0 <= j < |levels[depth]| ==> !Matches(old(nodes)[levels[depth][j]], node)) ==>
        nodes == old(nodes) + [Node(node)] && levels' == levels[depth := levels[depth] + [index]]
    {
      var found, at := FindMatch(nodes, levels[depth], node);
      match found
      case Some(x) =>
        index := x;
        levels' := levels;
        assert levels'[depth][at] == index;
      case None =>
        LevelsOkPush(nodes, levels, depth, Node(node));
        nodes := nodes + [Node(node)];
        levels' := levels[depth := levels[depth] + [|nodes| - 1]];
        index := |nodes| - 1;
        MatchesReflexive(Node(node));
        assert levels'[depth][|levels'[depth]| - 1] == index;
    }
  }

  /** Where `new_test` fails (the source panics). */
  datatype BuildError = DepthOutOfBounds | DepthBelowPreset

  /** The cell of the root's octant i: `OCTANT_LIST[i]` times half the scene. */
  function RootChild(i: nat, maxDepth: nat): Pos
    requires i < 8 && maxDepth >= 1
  {
    OCTANT_LIST[i].Times(Pow2(maxDepth - 1))
  }

  /** A cell deeper inside than another is never less solid. */
  lemma ClassifyMonotone(x1: real, x2: real, atMaxDepth: bool)
    requires x1 <= x2
    ensures Rank(Classify(x1, atMaxDepth)) <= Rank(Classify(x2, atMaxDepth))
  {
  }

  /** A cell at the last depth is never subdivided, and a cell is empty
      exactly when it lies more than one level outside. */
  lemma ClassifyEnds(x: real, atMaxDepth: bool)
    ensures atMaxDepth ==> Classify(x, atMaxDepth) != Interior
    ensures Classify(x, atMaxDepth) == Empty <==> x > 1.0
    ensures Classify(x, atMaxDepth) == Interior <==> !atMaxDepth && -1.0 <= x <= 1.0
  {
  }
}
