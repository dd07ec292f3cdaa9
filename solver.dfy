/**
 * The backtracking solver (src/solver.rs): the conflict table, the graph of
 * cell values, the consistency test for one cell and the search itself.
 */
module Solvers {
  import opened Wrappers
  import opened Numbers
  import opened Sudokus
  import opened AdjMat
  import opened Graphs
  import opened SearchSpec

  /**
   * What `solve` ends in: its `Option<Sudoku>` result, or the panic of
   * `stack[0]` on an empty stack (a puzzle with no empty cell).
   */
  datatype Outcome = Finished(answer: Option<Sudoku>) | StackIndexPanic

  /** The cells named by the stack's `(row, column)` pairs. */
  function StackCells(stack: seq<(nat, nat)>): seq<int>
  {
    seq(|stack|, j requires 0 <= j < |stack| => stack[j].0 * 9 + stack[j].1)
  }

  /** Every given cell below `n` fits. */
  predicate GivensFitBelow(g: Grid, n: nat)
  {
    forall k | 0 <= k < n && k < 81 :: g[k] != Empty ==> CellFits(g, k)
  }

  lemma GivensFitStep(g: Grid, n: nat)
    requires n < 81 && GivensFitBelow(g, n) && (g[n] != Empty ==> CellFits(g, n))
    ensures GivensFitBelow(g, n + 1)
  {
  }

  lemma NoClash(g: Grid)
    requires GivensFitBelow(g, 81)
    ensures !GivenClash(g)
  {
  }

  lemma Clash(g: Grid, k: Cell)
    requires g[k] != Empty && !CellFits(g, k)
    ensures GivenClash(g)
  {
  }

  /** Pushing cell `(i, j)` exactly when it is empty extends the stack of free cells by one cell. */
  lemma PushStep(stack: seq<(nat, nat)>, g: Grid, i: nat, j: nat, pushed: seq<(nat, nat)>)
    requires i < 9 && j < 9 && StackCells(stack) == FreeCellsBelow(g, 9 * i + j)
    requires pushed == if g[9 * i + j] == Empty then stack + [(i, j)] else stack
    ensures StackCells(pushed) == FreeCellsBelow(g, 9 * i + j + 1)
  {
    assert FreeCellsBelow(g, 9 * i + j + 1) == FreeCellsBelow(g, 9 * i + j) + (if g[9 * i + j] == Empty then [9 * i + j] else []);
  }

  /** `Solver`: the conflict table and the graph built from `puzzle`. */
  class Solver {
    const matrix: AdjacencyMatrix
    const graph: Graph
    /** The puzzle the solver was built from. */
    ghost const puzzle: Grid

    ghost predicate Valid()
      reads this, matrix, matrix.matrix, graph, graph.grid
    {
      matrix.IsConflictTable() && graph.Valid() &&
      forall k | 0 <= k < 81 :: graph.grid[k].fixed <==> puzzle[k] == Empty
    }

    /** `Solver::new`: the conflict table and the graph of `p`. */
    constructor (p: Sudoku)
      ensures Valid() && puzzle == p.grid && graph.Values() == p.grid
      ensures fresh(matrix) && fresh(matrix.matrix) && fresh(graph) && fresh(graph.grid)
    {
      matrix := new AdjacencyMatrix();
      graph := new Graph(p);
      puzzle := p.grid;
    }

    /**
     * `num_works(x, y)`: no cell that the table marks as conflicting with
     * `(x, y)` currently holds the same value.
     */
    method NumWorks(x: nat, y: nat) returns (r: bool)
      requires matrix.IsConflictTable() && graph.Valid() && x < 9 && y < 9
      ensures r <==> CellFits(graph.Values(), 9 * x + y)
    {
      ghost var v := graph.Values();
      var idx := 9 * x + y;
      for i := 0 to 81
        invariant forall i' | 0 <= i' < i :: Conflicts(idx, i') ==> v[i'] != v[idx]
      {
        if !matrix.Get(idx, i) {
          continue;
        }
        var x2, y2 := i / 9, i % 9;
        if graph.At(x2, y2).Value() == graph.At(x, y).Value() {
          return false;
        }
      }
      return true;
    }

    /**
     * The first half of `solve` (src/solver.rs:38-49): push every empty cell
     * on the stack, in row-major order, and test every given cell with
     * `num_works`, stopping at the first that clashes.
     */
    method CollectFreeCells() returns (stack: seq<(nat, nat)>, ok: bool)
      requires Valid() && graph.Values() == puzzle
      ensures ok <==> !GivenClash(puzzle)
      ensures ok ==> StackCells(stack) == FreeCells(puzzle)
      ensures forall j | 0 <= j < |stack| :: stack[j].0 < 9 && stack[j].1 < 9
    {
      ghost var g := puzzle;
      stack := [];
      for i := 0 to 9
        invariant forall j | 0 <= j < |stack| :: stack[j].0 < 9 && stack[j].1 < 9
        invariant StackCells(stack) == FreeCellsBelow(g, 9 * i)
        invariant GivensFitBelow(g, 9 * i)
      {
        for j := 0 to 9
          invariant forall j' | 0 <= j' < |stack| :: stack[j'].0 < 9 && stack[j'].1 < 9
          invariant StackCells(stack) == FreeCellsBelow(g, 9 * i + j)
          invariant GivensFitBelow(g, 9 * i + j)
        {
          ghost var before := stack;
          assert graph.At(i, j).IsFixed() <==> g[9 * i + j] == Empty;
          if graph.At(i, j).IsFixed() {
            stack := stack + [(i, j)];
            PushStep(before, g, i, j, stack);
          } else {
            PushStep(before, g, i, j, stack);
            var valid := NumWorks(i, j);
            if !valid {
              Clash(g, 9 * i + j);
              return stack, false;
            }
          }
          GivensFitStep(g, 9 * i + j);
        }
      }
      NoClash(g);
      return stack, true;
    }

    /**
     * One pass of the `while` body of `solve` (src/solver.rs:52-71) on the
     * cell `stack[stackIdx]`.
     */
    method Step(stack: seq<(nat, nat)>, stackIdx: nat, ghost sc: seq<Cell>) returns (next: int, done: bool)
      requires matrix.IsConflictTable() && graph.Valid()
      requires StackCells(stack) == sc && stackIdx < |stack|
      requires forall j | 0 <= j < |stack| :: stack[j].0 < 9 && stack[j].1 < 9
      modifies graph.grid
      ensures graph.Valid()
      ensures Pass(graph.Values(), next, done) == NextPass(sc, old(graph.Values()), stackIdx)
      ensures forall k | 0 <= k < 81 :: graph.grid[k].fixed == old(graph.grid[k].fixed)
    {
      var x, y := stack[stackIdx].0, stack[stackIdx].1;
      assert x * 9 + y == sc[stackIdx];
      if graph.At(x, y).Value() == Nine {
        graph.SetValue(x, y, Empty);
        return stackIdx - 1, false;
      }
      graph.Inc(x, y);
      var coords := graph.At(x, y).Coords();
      var valid := NumWorks(coords.0, coords.1);
      if valid {
        if stackIdx == |stack| - 1 {
          return stackIdx, true;
        } else {
          return stackIdx + 1, false;
        }
      } else {
        return stackIdx, false;
      }
    }

    /**
     * The second half of `solve` (src/solver.rs:51-75): the backtracking
     * loop over the stack of empty cells, then the graph turned back into a
     * puzzle.
     */
    method Backtrack(stack: seq<(nat, nat)>) returns (r: Outcome)
      requires Valid() && graph.Values() == puzzle && !GivenClash(puzzle)
      requires StackCells(stack) == FreeCells(puzzle)
      requires forall j | 0 <= j < |stack| :: stack[j].0 < 9 && stack[j].1 < 9
      modifies graph.grid
      ensures Valid()
      ensures r == StackIndexPanic <==> Complete(puzzle)
      ensures r != StackIndexPanic ==> r.Finished? && r.answer.Some?
      ensures r.Finished? && r.answer.Some? ==> (r.answer.value.solved <==> Solvable(puzzle))
      ensures r.Finished? && r.answer.Some? ==> (r.answer.value.solved <==> Complete(r.answer.value.grid))
      ensures r.Finished? && r.answer.Some? && r.answer.value.solved ==>
        IsSolution(puzzle, r.answer.value.grid) &&
        forall c: Grid | IsSolution(puzzle, c) ::
          !LexLess(Project(c, FreeCells(puzzle)), Project(r.answer.value.grid, FreeCells(puzzle)))
      ensures r.Finished? && r.answer.Some? && !r.answer.value.solved ==> r.answer.value.grid == puzzle
    {
      ghost var g := puzzle;
      ghost var sc := FreeCells(g);
      FreeCellsLists(g);
      FreeCellsEmptyIffComplete(g);
      GivenClashIffInconsistent(g);
      if |sc| > 0 {
        InitialState(g, sc);
      }
      var stackIdx: int := 0;
      ghost var cur := g;
      ghost var found := false;
      while stackIdx >= 0
        invariant Valid() && graph.Values() == cur
        invariant |sc| == 0 ==> stackIdx == 0
        invariant |sc| > 0 ==> SearchInv(g, sc, cur, stackIdx)
        invariant !found
        decreases if |sc| == 0 then 0 else Measure(Project(cur, sc), stackIdx)
      {
        if stackIdx >= |stack| {
          // `stack[stack_idx]` past the end: only on an empty stack
          return StackIndexPanic;
        }
        MeasurePositive(Project(cur, sc), stackIdx);
        PassStep(g, sc, cur, stackIdx);
        var next, done := Step(stack, stackIdx, sc);
        cur := graph.Values();
        if done {
          found := true;
          break;
        }
        stackIdx := next;
      }
      if !found {
        ExhaustedState(g, sc, cur);
      }
      var s := FromGraph(graph);
      r := Finished(Some(s));
    }

    /**
     * `solve`: collect the puzzle's empty cells on a stack while checking
     * that no given cell clashes, then fill the stack's cells by
     * backtracking, trying digits in increasing order.
     *
     * A clash among the givens gives `None`. A puzzle without an empty cell
     * reaches `stack[0]` on an empty stack. Otherwise the result is `Some`:
     * the least solution in the order of the puzzle's empty cells when a
     * solution exists, and the unchanged puzzle (so not solved) when none does.
     */
    method Solve() returns (r: Outcome)
      requires Valid() && graph.Values() == puzzle
      modifies graph.grid
      ensures Valid()
      ensures r == Finished(None) <==> GivenClash(puzzle)
      ensures r == StackIndexPanic <==> !GivenClash(puzzle) && Complete(puzzle)
      ensures r.Finished? && r.answer.Some? ==> (r.answer.value.solved <==> Solvable(puzzle))
      ensures r.Finished? && r.answer.Some? ==> (r.answer.value.solved <==> Complete(r.answer.value.grid))
      ensures r.Finished? && r.answer.Some? && r.answer.value.solved ==>
        IsSolution(puzzle, r.answer.value.grid) &&
        forall c: Grid | IsSolution(puzzle, c) ::
          !LexLess(Project(c, FreeCells(puzzle)), Project(r.answer.value.grid, FreeCells(puzzle)))
      ensures r.Finished? && r.answer.Some? && !r.answer.value.solved ==> r.answer.value.grid == puzzle
    {
      var stack, ok := CollectFreeCells();
      if !ok {
        return Finished(None);
      }
      r := Backtrack(stack);
    }

    /**
     * `solve` with the empty stack handled: a puzzle without an empty cell
     * and without a clash is returned as it is, solved, where `solve` itself
     * indexes `stack[0]`. Otherwise as `solve`.
     */
    method SolveCorrected() returns (r: Option<Sudoku>)
      requires Valid() && graph.Values() == puzzle
      modifies graph.grid
      ensures Valid()
      ensures r == None <==> GivenClash(puzzle)
      ensures r.Some? ==> (r.value.solved <==> Solvable(puzzle))
      ensures r.Some? ==> (r.value.solved <==> Complete(r.value.grid))
      ensures r.Some? && r.value.solved ==>
        IsSolution(puzzle, r.value.grid) &&
        forall c: Grid | IsSolution(puzzle, c) ::
          !LexLess(Project(c, FreeCells(puzzle)), Project(r.value.grid, FreeCells(puzzle)))
      ensures r.Some? && !r.value.solved ==> r.value.grid == puzzle
    {
      var stack, ok := CollectFreeCells();
      if !ok {
        return None;
      }
      FreeCellsEmptyIffComplete(puzzle);
      assert |StackCells(stack)| == |stack|;
      if |stack| == 0 {
        SolvedPuzzleSolvable(puzzle);
        var s := FromGraph(graph);
        return Some(s);
      }
      var o := Backtrack(stack);
      return o.answer;
    }
  }
}
