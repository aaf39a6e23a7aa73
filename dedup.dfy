/** The per-depth deduplication of `fill_oct` (src/asset/oct_dag.rs): a
    freshly built node is replaced by an earlier node of the same depth whose
    eight slots agree with it, which turns the octree into a graph. */
module Dedup {
  import opened Wrappers
  import opened Codec
  import opened Octants
  import Colours

  /** The slot test of the dedup closure: a candidate slot without a child
      agrees with an existing slot without a child and of the same colour; a
      slot with a child agrees with a slot pointing at the same node. Normals
      and the colours of slots with a child are never compared. */
  predicate SlotMatches(existing: Octant, candidate: Octant)
  {
    if candidate.index.Null? then existing.index.Null? && existing.colour == candidate.colour
    else existing.index == candidate.index
  }

  /** An existing node agrees with a candidate node slot by slot. */
  predicate Matches(node: Node, candidate: Octants)
  {
    forall i :: 0 <= i < 8 ==> SlotMatches(node.octants[i], candidate[i])
  }

  /** Every entry of a dedup list names a node of the graph. */
  predicate InGraph(nodes: seq<Node>, list: seq<nat>)
  {
    forall j :: 0 <= j < |list| ==> list[j] < |nodes|
  }

  /** No two entries of a dedup list name agreeing nodes. */
  predicate Distinct(nodes: seq<Node>, list: seq<nat>)
    requires InGraph(nodes, list)
  {
    forall a, b {:trigger Matches(nodes[list[a]], nodes[list[b]].octants)} ::
      0 <= a < b < |list| ==> !Matches(nodes[list[a]], nodes[list[b]].octants)
  }

  /** The body of the `find` closure: a flag that starts true and is cleared
      by the first slot that disagrees; all eight slots are visited. */
  method SameNode(nodes: seq<Node>, x: nat, candidate: Octants) returns (same: bool)
    requires x < |nodes|
    ensures same <==> Matches(nodes[x], candidate)
  {
    same := true;
    for i := 0 to OCTANT_COUNT
      invariant same <==> forall j :: 0 <= j < i ==> SlotMatches(nodes[x].octants[j], candidate[j])
    {
      if candidate[i].index.Null? {
        if same && !(nodes[x].octants[i].index.Null? && nodes[x].octants[i].colour == candidate[i].colour) {
          same := false;
        }
      } else {
        if same && !(nodes[x].octants[i].index == candidate[i].index) {
          same := false;
        }
      }
    }
  }

  /** `level_list[depth].iter().find(..)`: the first listed node that agrees
      with the candidate, or None when no listed node does. */
  method FindMatch(nodes: seq<Node>, list: seq<nat>, candidate: Octants) returns (r: Option<nat>, ghost at: nat)
    requires InGraph(nodes, list)
    ensures r.None? <==> forall j :: 0 <= j < |list| ==> !Matches(nodes[list[j]], candidate)
    ensures r.Some? ==> at < |list| && r.value == list[at] && Matches(nodes[r.value], candidate)
    ensures r.Some? ==> forall j :: 0 <= j < at ==> !Matches(nodes[list[j]], candidate)
  {
    var i := 0;
    while i < |list|
      invariant i <= |list|
      invariant forall j :: 0 <= j < i ==> !Matches(nodes[list[j]], candidate)
    {
      var same := SameNode(nodes, list[i], candidate);
      if same {
        return Some(list[i]), i;
      }
      i := i + 1;
    }
    return None, 0;
  }

  /** Every node agrees with itself. */
  lemma MatchesReflexive(node: Node)
    ensures Matches(node, node.octants)
  {
    forall i | 0 <= i < 8
      ensures SlotMatches(node.octants[i], node.octants[i])
    {
    }
  }

  /** Agreement does not depend on which node is the candidate. */
  lemma MatchesSymmetric(a: Node, b: Node)
    requires Matches(a, b.octants)
    ensures Matches(b, a.octants)
  {
    forall i | 0 <= i < 8
      ensures SlotMatches(b.octants[i], a.octants[i])
    {
      assert SlotMatches(a.octants[i], b.octants[i]);
    }
  }

  /** Two nodes that agree with a third agree with each other. */
  lemma MatchesTransitive(a: Node, b: Node, c: Octants)
    requires Matches(a, c) && Matches(b, c)
    ensures Matches(a, b.octants)
  {
    forall i | 0 <= i < 8
      ensures SlotMatches(a.octants[i], b.octants[i])
    {
      assert SlotMatches(a.octants[i], c[i]) && SlotMatches(b.octants[i], c[i]);
    }
  }

  /** In a list without agreeing entries, at most one entry agrees with any
      candidate: equal subtrees at one depth share one node. */
  lemma SharedIndex(nodes: seq<Node>, list: seq<nat>, candidate: Octants, a: nat, b: nat)
    requires InGraph(nodes, list) && Distinct(nodes, list)
    requires a < |list| && b < |list|
    requires Matches(nodes[list[a]], candidate) && Matches(nodes[list[b]], candidate)
    ensures a == b
  {
    if a < b {
      MatchesTransitive(nodes[list[a]], nodes[list[b]], candidate);
    } else if b < a {
      MatchesTransitive(nodes[list[b]], nodes[list[a]], candidate);
    }
  }

  /** Changing the normal or the spare word of any slot, or the colour of a
      slot with a child, keeps agreement. */
  lemma MatchIgnoresNormals(node: Node, candidate: Octants, i: nat, colour: u32, normal: u32, extra: u32)
    requires i < 8 && Matches(node, candidate)
    ensures Matches(node, candidate[i := candidate[i].(normal := normal, extra := extra)])
    ensures candidate[i].index.Ref? ==> Matches(node, candidate[i := candidate[i].(colour := colour)])
  {
    var c1 := candidate[i := candidate[i].(normal := normal, extra := extra)];
    forall j | 0 <= j < 8
      ensures SlotMatches(node.octants[j], c1[j])
    {
      assert SlotMatches(node.octants[j], candidate[j]);
    }
    if candidate[i].index.Ref? {
      var c2 := candidate[i := candidate[i].(colour := colour)];
      forall j | 0 <= j < 8
        ensures SlotMatches(node.octants[j], c2[j])
      {
        assert SlotMatches(node.octants[j], candidate[j]);
      }
    }
  }

  /** Two nodes of childless slots with equal colours but different normals
      agree, so one stands for both and the other's normals are lost. */
  lemma LeafNormalsMerged()
    ensures var a := Node(seq(8, _ => Octant(Null, Colours.RED, 0x00FF_00FF, 0)));
      var b := Node(seq(8, _ => Octant(Null, Colours.RED, 0xFF00_00FF, 0)));
      Matches(a, b.octants) && a != b
  {
    var a := Node(seq(8, _ => Octant(Null, Colours.RED, 0x00FF_00FF, 0)));
    var b := Node(seq(8, _ => Octant(Null, Colours.RED, 0xFF00_00FF, 0)));
    assert a.octants[0] != b.octants[0];
  }
}
