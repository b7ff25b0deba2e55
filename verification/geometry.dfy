/**
 Block positions and the six axis-aligned facings of the voxel grid.
 */
module Geometry {

  /** A block position: an integer triple, compared by value. */
  datatype Pos = Pos(x: int, y: int, z: int)

  /** The six facings, in the order in which the game enumerates them. */
  datatype Facing = Down | Up | North | South | West | East

  /** The facings in enumeration order (DOWN, UP, NORTH, SOUTH, WEST, EAST). */
  const Facings: seq<Facing> := [Down, Up, North, South, West, East]

  function Abs(n: int): nat
  {
    if n < 0 then -n else n
  }

  /** Number of axis-aligned unit steps between two positions. */
  function Manhattan(a: Pos, b: Pos): nat
  {
    Abs(a.x - b.x) + Abs(a.y - b.y) + Abs(a.z - b.z)
  }

  /** The position one step from `p` towards `f`. */
  function Offset(p: Pos, f: Facing): Pos
  {
    match f
    case Down => Pos(p.x, p.y - 1, p.z)
    case Up => Pos(p.x, p.y + 1, p.z)
    case North => Pos(p.x, p.y, p.z - 1)
    case South => Pos(p.x, p.y, p.z + 1)
    case West => Pos(p.x - 1, p.y, p.z)
    case East => Pos(p.x + 1, p.y, p.z)
  }

  /** The six neighbours of `p`, in facing order. */
  function Neighbours(p: Pos): seq<Pos>
  {
    [Offset(p, Down), Offset(p, Up), Offset(p, North), Offset(p, South), Offset(p, West), Offset(p, East)]
  }

  /** Each offset is one step away. */
  lemma OffsetAdjacent(p: Pos, f: Facing)
    ensures Manhattan(p, Offset(p, f)) == 1
  {
  }

  /** The neighbours of `p` are exactly the positions one step away from it. */
  lemma NeighboursAdjacent(p: Pos)
    ensures forall q :: q in Neighbours(p) <==> Manhattan(p, q) == 1
  {
    forall q | Manhattan(p, q) == 1 ensures q in Neighbours(p) {
      var i := AdjacentIsOffset(p, q);
      assert Neighbours(p)[i] == q;
    }
  }

  /** The `i`-th neighbour lies towards the `i`-th facing. */
  lemma NeighbourFacing(p: Pos, i: nat)
    requires i < 6
    ensures Neighbours(p)[i] == Offset(p, Facings[i]) && |Neighbours(p)| == 6
  {
  }

  /** The six neighbours are pairwise distinct. */
  lemma NeighboursDistinct(p: Pos)
    ensures forall i, j :: 0 <= i < j < |Neighbours(p)| ==> Neighbours(p)[i] != Neighbours(p)[j]
  {
  }

  /** The offset towards each facing, found by comparing coordinates. */
  lemma AdjacentIsOffset(p: Pos, q: Pos) returns (i: nat)
    requires Manhattan(p, q) == 1
    ensures i < 6 && Offset(p, Facings[i]) == q
  {
    if q.y < p.y { i := 0; }
    else if q.y > p.y { i := 1; }
    else if q.z < p.z { i := 2; }
    else if q.z > p.z { i := 3; }
    else if q.x < p.x { i := 4; }
    else { i := 5; }
  }

  /** Manhattan distance obeys the triangle inequality. */
  lemma Triangle(a: Pos, b: Pos, c: Pos)
    ensures Manhattan(a, c) <= Manhattan(a, b) + Manhattan(b, c)
  {
  }

  /** Stepping to a neighbour moves each coordinate by at most one. */
  lemma AdjacentCoordinates(p: Pos, q: Pos)
    requires Manhattan(p, q) == 1
    ensures Abs(p.x - q.x) <= 1 && Abs(p.y - q.y) <= 1 && Abs(p.z - q.z) <= 1
  {
  }
}
