/**
 * The library's entry point (src/lib.rs): `solve` builds a solver for the
 * puzzle and runs it.
 */
module Lib {
  import opened Wrappers
  import opened Sudokus
  import opened SearchSpec
  import opened Solvers

  /**
   * `solve`: `None` exactly when two given cells clash; the panic of
   * `stack[0]` exactly when no cell is empty and no given clashes;
   * otherwise a puzzle that is solved exactly when the input has a
   * solution, and then it is the least solution in the order of the input's
   * empty cells; an unsolved result is the input unchanged.
   */
  method Solve(puzzle: Sudoku) returns (r: Outcome)
    ensures r == Finished(None) <==> GivenClash(puzzle.grid)
    ensures r == StackIndexPanic <==> !GivenClash(puzzle.grid) && Complete(puzzle.grid)
    ensures r.Finished? && r.answer.Some? ==> (r.answer.value.IsSolved() <==> Solvable(puzzle.grid))
    ensures r.Finished? && r.answer.Some? ==> (r.answer.value.IsSolved() <==> Complete(r.answer.value.grid))
    ensures r.Finished? && r.answer.Some? && r.answer.value.IsSolved() ==>
      IsSolution(puzzle.grid, r.answer.value.grid) &&
      forall c: Grid | IsSolution(puzzle.grid, c) ::
        !LexLess(Project(c, FreeCells(puzzle.grid)), Project(r.answer.value.grid, FreeCells(puzzle.grid)))
    ensures r.Finished? && r.answer.Some? && !r.answer.value.IsSolved() ==> r.answer.value.grid == puzzle.grid
  {
    var solver := new Solver(puzzle);
    r := solver.Solve();
  }

  /**
   * `solve` over `Solver.SolveCorrected`: as `Solve`, except that a puzzle
   * without an empty cell and without a clash comes back as it is, solved.
   */
  method SolveCorrected(puzzle: Sudoku) returns (r: Option<Sudoku>)
    ensures r == None <==> GivenClash(puzzle.grid)
    ensures r.Some? ==> (r.value.IsSolved() <==> Solvable(puzzle.grid))
    ensures r.Some? ==> (r.value.IsSolved() <==> Complete(r.value.grid))
    ensures r.Some? && r.value.IsSolved() ==>
      IsSolution(puzzle.grid, r.value.grid) &&
      forall c: Grid | IsSolution(puzzle.grid, c) ::
        !LexLess(Project(c, FreeCells(puzzle.grid)), Project(r.value.grid, FreeCells(puzzle.grid)))
    ensures r.Some? && !r.value.IsSolved() ==> r.value.grid == puzzle.grid
  {
    var solver := new Solver(puzzle);
    r := solver.SolveCorrected();
  }
}
