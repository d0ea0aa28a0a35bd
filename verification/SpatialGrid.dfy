/** The grid that puts near peers first. Positions are real numbers; cells are cubes whose side is
    the low-quality distance. */
module SpatialGrid {

  datatype Position = Position(x: real, y: real, z: real)
  type Cell = (int, int, int)

  function CellOf(p: Position, size: real): Cell
    requires size > 0.0
  {
    ((p.x / size).Floor, (p.y / size).Floor, (p.z / size).Floor)
  }

  function DistanceSq(p: Position, q: Position): real {
    (p.x - q.x) * (p.x - q.x) + (p.y - q.y) * (p.y - q.y) + (p.z - q.z) * (p.z - q.z)
  }

  predicate Adjacent(a: Cell, b: Cell) {
    -1 <= a.0 - b.0 <= 1 && -1 <= a.1 - b.1 <= 1 && -1 <= a.2 - b.2 <= 1
  }

  lemma SquareBound(d: real, s: real)
    requires s > 0.0 && d * d <= s * s
    ensures -s <= d <= s
  {
    if d > s {
      SquareGrows(s, d);
    } else if d < -s {
      var e := -d;
      NegatedSquare(d);
      SquareGrows(s, e);
    }
  }

  lemma SquareGrows(a: real, b: real)
    requires 0.0 < a < b
    ensures a * a < b * b
  {}

  lemma NegatedSquare(d: real)
    ensures (-d) * (-d) == d * d
  {}

  lemma Distributes(p: real, q: real, s: real)
    ensures (p - q) * s == p * s - q * s
  {}

  lemma FloorsClose(x: real, y: real, s: real)
    requires s > 0.0 && -s <= x - y <= s
    ensures -1 <= (x / s).Floor - (y / s).Floor <= 1
  {
    var p, q := x / s, y / s;
    assert x == p * s && y == q * s;
    var d := p - q;
    Distributes(p, q, s);
    assert d * s == x - y;
    ProductBound(d, s);
  }

  lemma ProductBound(d: real, s: real)
    requires s > 0.0 && -s <= d * s <= s
    ensures -1.0 <= d <= 1.0
  {}

  lemma SquaresNonNegative(d: real)
    ensures d * d >= 0.0
  {}

  /** Peers no further apart than the side of a cell are in the same cell or in adjacent ones. */
  lemma NearIsAdjacent(p: Position, q: Position, size: real)
    requires size > 0.0 && DistanceSq(p, q) <= size * size
    ensures Adjacent(CellOf(p, size), CellOf(q, size))
  {
    SquaresNonNegative(p.x - q.x);
    SquaresNonNegative(p.y - q.y);
    SquaresNonNegative(p.z - q.z);
    SquareBound(p.x - q.x, size);
    SquareBound(p.y - q.y, size);
    SquareBound(p.z - q.z, size);
    FloorsClose(p.x, q.x, size);
    FloorsClose(p.y, q.y, size);
    FloorsClose(p.z, q.z, size);
  }

  lemma CloseFloors(x: real, y: real, s: real)
    requires s > 0.0 && -1 <= (x / s).Floor - (y / s).Floor <= 1
    ensures -2.0 * s < x - y < 2.0 * s
  {
    var p, q := x / s, y / s;
    assert x == p * s && y == q * s;
    var d := p - q;
    Distributes(p, q, s);
    assert d * s == x - y;
    StrictBound(d, s);
  }

  lemma StrictBound(d: real, s: real)
    requires s > 0.0 && -2.0 < d < 2.0
    ensures -2.0 * s < d * s < 2.0 * s
  {}

  /** In each direction the two are less than two cells apart. */
  predicate Close(p: Position, q: Position, size: real) {
    -2.0 * size < p.x - q.x < 2.0 * size && -2.0 * size < p.y - q.y < 2.0 * size && -2.0 * size < p.z - q.z < 2.0 * size
  }

  /** And the other way round: peers in the same or adjacent cells are not far apart. */
  lemma AdjacentIsClose(p: Position, q: Position, size: real)
    requires size > 0.0 && Adjacent(CellOf(p, size), CellOf(q, size))
    ensures Close(p, q, size)
  {
    CloseFloors(p.x, q.x, size);
    CloseFloors(p.y, q.y, size);
    CloseFloors(p.z, q.z, size);
  }

  predicate Distinct(indices: seq<nat>) { forall i, j :: 0 <= i < j < |indices| ==> indices[i] != indices[j] }

  /** The indices in a list, and those marked in an array, are the same. */
  predicate Marked(included: array<bool>, indices: seq<nat>)
    reads included
  {
    && Distinct(indices)
    && (forall k :: 0 <= k < |indices| ==> indices[k] < included.Length)
    && (forall i :: 0 <= i < included.Length ==> (included[i] <==> i in indices))
  }

  /** A cell that the walk over the cells around `c` has passed when it is about to look at `(x, y, z)`. */
  predicate Passed(a: Cell, c: Cell, x: int, y: int, z: int) {
    Adjacent(a, c) && (a.0 < x || (a.0 == x && (a.1 < y || (a.1 == y && a.2 < z))))
  }

  predicate Listed(cells: map<Cell, seq<nat>>, cell: Cell, i: nat) { cell in cells && i in cells[cell] }

  lemma ListedOneMore(cells: map<Cell, seq<nat>>, cell: Cell, index: nat, other: Cell, i: nat)
    ensures var list := if cell in cells then cells[cell] else [];
            Listed(cells[cell := list + [index]], other, i) <==>
              Listed(cells, other, i) || (other == cell && i == index)
  {}

  class SpatialGrid {
    const cellSize: real
    var cells: map<Cell, seq<nat>>

    /** Every peer is in the list of its own cell, and in no other. */
    ghost predicate Holds(positions: seq<Position>)
      reads this
    {
      cellSize > 0.0
      && forall i: nat, cell: Cell ::
            Listed(cells, cell, i) <==> i < |positions| && CellOf(positions[i], cellSize) == cell
    }

    constructor (positions: seq<Position>, cellSize: real)
      requires cellSize > 0.0
      ensures this.cellSize == cellSize && Holds(positions)
    {
      this.cellSize := cellSize;
      cells := map[];
      new;
      for index := 0 to |positions|
        invariant forall i: nat, cell: Cell ::
                    Listed(cells, cell, i) <==> i < index && CellOf(positions[i], cellSize) == cell
      {
        var cell := CellOf(positions[index], cellSize);
        var list := if cell in cells then cells[cell] else [];
        ghost var before := cells;
        cells := cells[cell := list + [index]];
        forall i: nat, other: Cell
          ensures Listed(cells, other, i) <==> i < index + 1 && CellOf(positions[i], cellSize) == other
        {
          ListedOneMore(before, cell, index, other, i);
          assert Listed(before, other, i) <==> i < index && CellOf(positions[i], cellSize) == other;
        }
      }
    }

    /** Appends the peers of one cell that are not there yet. */
    method TakeCell(cell: Cell, included: array<bool>, indices: seq<nat>) returns (more: seq<nat>)
      requires Marked(included, indices)
      modifies included
      ensures Marked(included, more)
      ensures forall i: nat :: i in more <==> i in indices || (Listed(cells, cell, i) && i < included.Length)
    {
      more := indices;
      if cell !in cells { return; }
      var list := cells[cell];
      for k := 0 to |list|
        invariant Marked(included, more)
        invariant forall i: nat :: i in more <==> i in indices || (i in list[..k] && i < included.Length)
      {
        var index := list[k];
        assert list[..k + 1] == list[..k] + [index];
        if index < included.Length && !included[index] {
          included[index] := true;
          more := more + [index];
        }
      }
      assert list[..|list|] == list;
    }

    /** All peers, each once, with those of the cells around `position` first. */
    method OrderedIndices(position: Position, ghost positions: seq<Position>, peerCount: nat)
      returns (indices: seq<nat>, ghost near: seq<nat>)
      requires Holds(positions) && peerCount == |positions|
      ensures Distinct(indices) && forall i: nat :: i in indices <==> i < peerCount
      ensures near <= indices
      ensures forall i: nat ::
                i in near <==> i < peerCount && Adjacent(CellOf(positions[i], cellSize), CellOf(position, cellSize))
      ensures forall i: nat :: i < peerCount && DistanceSq(positions[i], position) <= cellSize * cellSize ==> i in near
      ensures forall i: nat :: i in near ==> i < peerCount && Close(positions[i], position, cellSize)
    {
      hide CellOf, DistanceSq, Close;
      var c := CellOf(position, cellSize);
      var included := new bool[peerCount](_ => false);
      indices := [];
      for x := c.0 - 1 to c.0 + 2
        invariant Marked(included, indices)
        invariant forall i: nat ::
                    i in indices <==> i < peerCount && Passed(CellOf(positions[i], cellSize), c, x, c.1 - 1, c.2 - 1)
      {
        for y := c.1 - 1 to c.1 + 2
          invariant Marked(included, indices)
          invariant forall i: nat ::
                      i in indices <==> i < peerCount && Passed(CellOf(positions[i], cellSize), c, x, y, c.2 - 1)
        {
          for z := c.2 - 1 to c.2 + 2
            invariant Marked(included, indices)
            invariant forall i: nat ::
                        i in indices <==> i < peerCount && Passed(CellOf(positions[i], cellSize), c, x, y, z)
          {
            indices := TakeCell((x, y, z), included, indices);
          }
        }
      }
      near := indices;
      for index := 0 to peerCount
        invariant Distinct(indices) && near <= indices
        invariant forall i: nat :: i in indices <==> i in near || i < index
        invariant forall i: nat :: i < peerCount ==> (included[i] <==> i in near)
      {
        if !included[index] {
          indices := indices + [index];
        }
      }
      forall i: nat | i < peerCount && DistanceSq(positions[i], position) <= cellSize * cellSize ensures i in near {
        NearIsAdjacent(positions[i], position, cellSize);
      }
      forall i: nat | i in near ensures Close(positions[i], position, cellSize) {
        AdjacentIsClose(positions[i], position, cellSize);
      }
    }
  }
}
