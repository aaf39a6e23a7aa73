/** The records of the graph in `src/asset/oct_dag.rs`: octants, nodes and the
    eight octant directions. */
module Octants {
  import opened Codec

  const POSITIVE_X: nat := 1
  const POSITIVE_Y: nat := 2
  const POSITIVE_Z: nat := 4
  const OCTANT_COUNT: nat := 8

  /** An integer position (glam's `IVec3`). */
  datatype Pos = Pos(x: int, y: int, z: int)
  {
    function Plus(o: Pos): Pos { Pos(x + o.x, y + o.y, z + o.z) }
    function Times(k: int): Pos { Pos(x * k, y * k, z * k) }
  }

  /** `OCTANT_LIST`: the direction of octant i has a positive x exactly when
      bit `POSITIVE_X` of i is set, and so on for y and z. */
  const OCTANT_LIST: seq<Pos> :=
    [Pos(-1, -1, -1), Pos(1, -1, -1), Pos(-1, 1, -1), Pos(1, 1, -1),
     Pos(-1, -1, 1), Pos(1, -1, 1), Pos(-1, 1, 1), Pos(1, 1, 1)]

  /** The child field of an octant: `Null` is the source's `NULL_INDEX`. */
  datatype Child = Null | Ref(index: nat)

  /** An octant: its child node, its packed colour, its packed normal (whose
      low byte is its density) and an unused word. */
  datatype Octant = Octant(index: Child, colour: u32, normal: u32, extra: u32)

  /** A node is exactly eight octants. */
  type Octants = s: seq<Octant> | |s| == 8 witness EmptyEight()

  datatype Node = Node(octants: Octants)

  function EmptyEight(): (s: seq<Octant>)
    ensures |s| == 8
  {
    seq(8, _ => NewOctant())
  }

  /** `Octant::new`: no child and all-zero attributes. */
  function NewOctant(): (o: Octant)
    ensures o.index.Null? && o.colour == 0 && o.normal == 0 && o.extra == 0
  {
    Octant(Null, 0, 0, 0)
  }

  /** `Node::new`: eight empty octants. */
  function NewNode(): (n: Node)
    ensures forall i :: 0 <= i < 8 ==> n.octants[i] == NewOctant()
  {
    Node(EmptyEight())
  }

  /** The low byte of an octant's normal word (`normal & MASK_8BIT`). */
  function Density(o: Octant): u8
  {
    o.normal % 0x100
  }

  /** Bit k of n. */
  function Bit(n: nat, k: nat): bool
    requires k == POSITIVE_X || k == POSITIVE_Y || k == POSITIVE_Z
  {
    (n / k) % 2 == 1
  }

  /** Each axis of an octant direction is +1 exactly when its bit is set, and
      -1 otherwise. */
  lemma OctantListBits(i: nat)
    requires i < OCTANT_COUNT
    ensures |OCTANT_LIST| == OCTANT_COUNT
    ensures OCTANT_LIST[i].x == (if Bit(i, POSITIVE_X) then 1 else -1)
    ensures OCTANT_LIST[i].y == (if Bit(i, POSITIVE_Y) then 1 else -1)
    ensures OCTANT_LIST[i].z == (if Bit(i, POSITIVE_Z) then 1 else -1)
  {
  }
}
