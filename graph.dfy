/**
 * The search graph (src/graph.rs): one vertex per cell, stored in a flat
 * array of 81 in row-major order, and the conversion back to a puzzle
 * (`From<Graph> for Sudoku`, src/sudoku/mod.rs).
 */
module Graphs {
  import opened Numbers
  import opened Sudokus

  /**
   * `Vertex`: a cell's coordinates, its `fixed` flag and its current value.
   * As in the source, `fixed` is set on the cells that are EMPTY in the
   * puzzle, the ones the solver fills in.
   */
  datatype Vertex = Vertex(x: nat, y: nat, fixed: bool, value: Number)
  {
    /** `is_fixed`. */
    function IsFixed(): (b: bool)
      ensures b <==> fixed
    {
      fixed
    }

    /** `value`. */
    function Value(): (n: Number)
      ensures n == value
    {
      value
    }

    /** `coords`. */
    function Coords(): (c: (nat, nat))
      ensures c.0 == x && c.1 == y
    {
      (x, y)
    }

    /** `set_value`: the value becomes `n`; coordinates and flag are kept. */
    function SetValue(n: Number): (v: Vertex)
      ensures v.Value() == n
      ensures v.Coords() == Coords() && v.IsFixed() == IsFixed()
    {
      this.(value := n)
    }

    /** `inc`: the value becomes the next digit; coordinates and flag are kept. */
    function Inc(): (v: Vertex)
      requires value != Nine
      ensures v.Value().ToByte() == Value().ToByte() + 1
      ensures v.Coords() == Coords() && v.IsFixed() == IsFixed()
    {
      this.(value := value.Inc())
    }
  }

  /** The values of a sequence of vertices. */
  function ValuesOf(vs: seq<Vertex>): (ns: seq<Number>)
    ensures |ns| == |vs| && forall k | 0 <= k < |vs| :: ns[k] == vs[k].value
  {
    seq(|vs|, k requires 0 <= k < |vs| => vs[k].value)
  }

  /** `Graph`: the 81 vertices, vertex `k` at row `k / 9`, column `k % 9`. */
  class Graph {
    const grid: array<Vertex>

    ghost predicate Valid()
      reads this, grid
    {
      grid.Length == 81 && forall k | 0 <= k < 81 :: grid[k].x == k / 9 && grid[k].y == k % 9
    }

    /** The current value of every cell, row by row. */
    ghost function Values(): (v: Grid)
      reads this, grid
      requires Valid()
    {
      ValuesOf(grid[..])
    }

    /**
     * `Graph::new`: vertex `(i, j)` gets the puzzle's cell `(i, j)` as its
     * value and is flagged `fixed` exactly when that cell is empty.
     */
    constructor (puzzle: Sudoku)
      ensures Valid() && fresh(grid)
      ensures Values() == puzzle.grid
      ensures forall k | 0 <= k < 81 :: grid[k].fixed <==> puzzle.grid[k] == Empty
    {
      var vs := new Vertex[81];
      for i := 0 to 9
        invariant forall k | 0 <= k < 9 * i :: vs[k] == Vertex(k / 9, k % 9, puzzle.grid[k] == Empty, puzzle.grid[k])
      {
        for j := 0 to 9
          invariant forall k | 0 <= k < 9 * i + j :: vs[k] == Vertex(k / 9, k % 9, puzzle.grid[k] == Empty, puzzle.grid[k])
        {
          var idx := 9 * i + j;
          var num := puzzle.At(i, j);
          var fixed := num == Empty;
          vs[idx] := Vertex(i, j, fixed, num);
        }
      }
      grid := vs;
    }

    /** `graph[(x, y)]`: the vertex at flat index `x * 9 + y`. */
    function At(x: nat, y: nat): (v: Vertex)
      reads this, grid
      requires Valid() && x * 9 + y < 81
      ensures y < 9 ==> v.Coords() == (x, y)
    {
      grid[x * 9 + y]
    }

    /** `graph[(x, y)].set_value(n)`: only that cell's value changes. */
    method SetValue(x: nat, y: nat, n: Number)
      modifies grid
      requires Valid() && x * 9 + y < 81
      ensures Valid()
      ensures Values() == old(Values())[x * 9 + y := n]
      ensures forall k | 0 <= k < 81 :: grid[k].fixed == old(grid[k].fixed)
    {
      var idx := x * 9 + y;
      grid[idx] := grid[idx].SetValue(n);
    }

    /** `graph[(x, y)].inc()`: only that cell's value changes, to the next digit. */
    method Inc(x: nat, y: nat)
      modifies grid
      requires Valid() && x * 9 + y < 81 && grid[x * 9 + y].value != Nine
      ensures Valid()
      ensures Values() == old(Values())[x * 9 + y := old(Values())[x * 9 + y].Inc()]
      ensures forall k | 0 <= k < 81 :: grid[k].fixed == old(grid[k].fixed)
    {
      var idx := x * 9 + y;
      grid[idx] := grid[idx].Inc();
    }
  }

  /**
   * `From<Graph> for Sudoku`: the graph's values, with `solved` set exactly
   * when no value is empty.
   */
  method FromGraph(graph: Graph) returns (s: Sudoku)
    requires graph.Valid()
    ensures s.grid == graph.Values()
    ensures s.solved <==> Complete(s.grid)
  {
    var grid := new Number[81](_ => Empty);
    var solved := true;
    for i := 0 to 9
      invariant forall k | 0 <= k < 9 * i :: grid[k] == graph.grid[k].value
      invariant solved <==> forall k | 0 <= k < 9 * i :: graph.grid[k].value != Empty
    {
      for j := 0 to 9
        invariant forall k | 0 <= k < 9 * i + j :: grid[k] == graph.grid[k].value
        invariant solved <==> forall k | 0 <= k < 9 * i + j :: graph.grid[k].value != Empty
      {
        var idx := i * 9 + j;
        var value := graph.At(i, j).Value();
        if value == Empty {
          solved := false;
        }
        grid[idx] := value;
      }
    }
    s := Sudoku(solved, grid[..]);
  }
}
