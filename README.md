# sudoku-solver-rs in Dafny

A model of the Sudoku library: the digit type, the 81x81 conflict table,
the graph of cells, the backtracking solver, the puzzle value with its
numeric constructor and text printer, the byte-by-byte text parser, and
the `solve` entry point. Each Rust module with state that changes becomes
a Dafny class over arrays: `AdjacencyMatrix`, `Graph`, `Solver` and
`SudokuParser`. Each loop of the source becomes a `while`/`for` loop with
invariants. Each method is proved against a specification function or
predicate:

- The conflict relation `Conflicts`.
- The search order and search invariant of module `SearchSpec`:
  - solutions;
  - the row-major stack of empty cells;
  - the lexicographic order of candidate fillings;
  - a termination measure.
- The printed layout `Render`.
- The token run of module `ParseSpec`. This is the 13-line bordered
  layout, read token by token from the parser's state. Each step is a
  literal byte, a line break or a cell.

Modules, one file each:

| Module | File | Source |
|---|---|---|
| `Wrappers` | `wrappers.dfy` | — |
| `Ascii` | `ascii.dfy` | byte constants |
| `Numbers` | `numbers.dfy` | `src/sudoku/number.rs` |
| `AdjMat` | `adj_mat.dfy` | `src/adj_mat.rs` |
| `Sudokus` | `sudoku.dfy` | `src/sudoku/mod.rs` |
| `Graphs` | `graph.dfy` | `src/graph.rs`, and `From<Graph> for Sudoku` from `src/sudoku/mod.rs` |
| `SearchSpec` | `search_spec.dfy` | the search's specification |
| `Solvers` | `solver.dfy` | `src/solver.rs` |
| `ParseSpec` | `parse_spec.dfy` | the parser's specification |
| `Parsers` | `parser.dfy` | `src/sudoku/parser.rs`, and `from_string` / `TryFrom<&str>` from `src/sudoku/mod.rs` |
| `Lib` | `lib.dfy` | `src/lib.rs` |

The Rust modules `sudoku` ↔ `graph` and `sudoku` ↔ `parser` import each
other. Dafny modules cannot, so the conversions that close those cycles
live in `Graphs` and in `Parsers`.

Text is modelled as bytes (`seq<Byte>`, `Byte` = 0..255). The source reads
its `&str` input with `as_bytes()` and writes ASCII only.

Outcomes that are panics in the source are their own values, never
invented errors:

- `peek` past the end of the input is `PeekPanic`.
- `grid[idx]` past the 81st cell is `IndexPanic`. `ParseNeverOverflows`
  proves `parse` never reaches it.
- `stack[0]` on an empty stack in `solve` is `StackIndexPanic`.

`Vertex.fixed` is true for the cells that are EMPTY in the puzzle, as in
the source. Those are the cells the solver fills in.

## Model

| member | source | states |
|---|---|---|
| Numbers.Number.Inc | src/sudoku/number.rs:18-31 | Defined for every number but `Nine`. The result is a digit whose byte value is one more than the argument's. |
| Numbers.Number.ToByte | src/sudoku/number.rs:34-48 | The byte is at most 9, and it is 0 exactly for `Empty`. |
| Numbers.TryFromByte | src/sudoku/number.rs:53-70 | Succeeds exactly for bytes up to 9, with the number whose byte is the input. Otherwise the error is `TooLarge`. |
| Numbers.ToByteInjective | src/sudoku/number.rs:34-48 | Distinct numbers give distinct bytes. |
| Numbers.ByteRoundTrip | src/sudoku/number.rs:34-70 | `try_from(u8::from(n)) == Ok(n)` for every number. |
| Numbers.IncIsSuccessor | src/sudoku/number.rs:18-48 | `m == n.inc()` exactly when `m`'s byte is `n`'s byte plus one. |
| AdjMat.Slot | src/adj_mat.rs:71-79 | For `x, y < 81`, slot `x * 81 + y` lies below 6561 and gives back `x` and `y` by division and remainder. |
| AdjMat.SlotInjective | src/adj_mat.rs:71-79 | Distinct index pairs address distinct slots. |
| AdjMat.ConflictsIrreflexive | src/adj_mat.rs:20-22 | No cell conflicts with itself. |
| AdjMat.ConflictsSymmetric | src/adj_mat.rs:24-25 | The conflict relation is symmetric. |
| AdjMat.AdjacencyMatrix.constructor | src/adj_mat.rs:8-65 | After `new`, entry `(a, b)` is set exactly when `a != b` and the cells share a row, a column or a 3x3 box. All other entries stay false. The whole array equals one fixed table that depends on no input. |
| AdjMat.AdjacencyMatrix.Get | src/adj_mat.rs:71-73 | Reads slot `x * 81 + y`. On a built table, for `y < 81`, the entry is `Conflicts(x, y)`. |
| AdjMat.AdjacencyMatrix.Set | src/adj_mat.rs:77-79 | A write through `index_mut` changes slot `x * 81 + y` and no other. |
| AdjMat.AdjacencyMatrix.MarkPair | src/adj_mat.rs:24-25 | Sets `(a, b)` and `(b, a)` and nothing else. |
| AdjMat.AdjacencyMatrix.MarkRowOf | src/adj_mat.rs:17-26 | Adds exactly the pairs of the cell with the other cells of its row. |
| AdjMat.AdjacencyMatrix.MarkColumnOf | src/adj_mat.rs:28-37 | Adds exactly the pairs of the cell with the other cells of its column. |
| AdjMat.AdjacencyMatrix.MarkLines | src/adj_mat.rs:13-39 | On the all-false table, leaves each entry set exactly when the cells are distinct and share a row or a column. |
| AdjMat.AdjacencyMatrix.MarkBoxOf | src/adj_mat.rs:45-57 | Adds exactly the pairs of one cell with the other cells of its box. |
| AdjMat.AdjacencyMatrix.MarkBox | src/adj_mat.rs:43-60 | Adds the box pairs of the nine cells of one box, in the order the loops visit them. |
| AdjMat.AdjacencyMatrix.MarkBoxes | src/adj_mat.rs:41-62 | After the row and column pass, leaves the table equal to `Conflicts` on every pair. |
| AdjMat.TableIsCanonical | src/adj_mat.rs:8 | Any table that agrees with `Conflicts` is the one fixed table, whatever puzzle it serves. |
| Graphs.Vertex.IsFixed | src/graph.rs:16-18 | Returns the `fixed` flag. |
| Graphs.Vertex.Value | src/graph.rs:20-22 | Returns the value field. |
| Graphs.Vertex.Coords | src/graph.rs:32-34 | Returns the coordinates `(x, y)` the vertex was built with. |
| Graphs.Vertex.SetValue | src/graph.rs:24-26 | The value becomes `n`. Coordinates and the `fixed` flag are unchanged. |
| Graphs.Vertex.Inc | src/graph.rs:28-30 | Not defined on `Nine`. The value becomes its successor, the byte one higher. Coordinates and flag are unchanged. |
| Graphs.Graph.constructor | src/graph.rs:42-57 | Vertex `9i + j` has coordinates `(i, j)` and the puzzle's value. Its `fixed` flag is set exactly when the puzzle's cell is empty. |
| Graphs.Graph.At | src/graph.rs:63-66 | Needs `x * 9 + y < 81`. For `y < 9`, the vertex found has coordinates `(x, y)`. |
| Graphs.Graph.SetValue | src/graph.rs:69-73 | `graph[(x, y)].set_value(n)` changes the value of cell `x * 9 + y` only. No `fixed` flag changes. |
| Graphs.Graph.Inc | src/graph.rs:69-73 | `graph[(x, y)].inc()` replaces the value of cell `x * 9 + y` by its successor and changes nothing else. |
| Graphs.FromGraph | src/sudoku/mod.rs:135-154 | The grid is the graph's values in row-major order. `solved` is set exactly when none of them is empty. |
| Sudokus.Sudoku.IsSolved | src/sudoku/mod.rs:121-123 | Returns the `solved` flag. The contracts of `Lib.Solve` and `Lib.SolveCorrected` read the flag through it. |
| Sudokus.Sudoku.At | src/sudoku/mod.rs:126-133 | `puzzle[(x, y)]` is the cell at `x * 9 + y`, which is row `x` and column `y` when `y < 9`. |
| Sudokus.Equal | src/sudoku/mod.rs:18-28 | True exactly when the 81 cells agree. The `solved` flag is ignored. |
| Sudokus.Render | src/sudoku/mod.rs:85-118 | The printed text is 182 bytes long. |
| Sudokus.RenderLines | src/sudoku/mod.rs:85-118 | The printed text is 13 lines of 13 characters and a line feed. Line `l` sits at offset `14 * l`. |
| Sudokus.BorderLineOf | src/sudoku/mod.rs:89-115 | Lines 0, 4, 8 and 12 are the border `+---+---+---+` and a line feed. |
| Sudokus.RenderCells | src/sudoku/mod.rs:96-110 | Cell `(r, c)` is printed at its fixed offset in row-major order, as a blank for `Empty` and as `'0' + k` for digit `k`. |
| Sudokus.CellByteInjective | src/sudoku/mod.rs:101-109 | Distinct cell values print as distinct characters. |
| Sudokus.PrintRow | src/sudoku/mod.rs:96-111 | Appends the first 12 characters of row `r`'s line and moves the cell index on by 9. |
| Sudokus.PrettyPrint | src/sudoku/mod.rs:85-118 | The loops build exactly `Render` of the puzzle's grid. |
| Sudokus.FromNumbers | src/sudoku/mod.rs:162-189 | A length other than 81 gives `NotEnoughNumbers`. At length 81, success happens exactly when every byte is at most 9; any other error is `NumberTooLarge`. On success, cell `k` holds the number of byte `k`, and `solved` holds exactly when no cell is empty. |
| SearchSpec.GivenClashIffInconsistent | src/solver.rs:38-49 | The check of the given cells with `num_works` fails exactly when the puzzle has two conflicting cells with the same digit. |
| SearchSpec.ClashUnsolvable | src/solver.rs:43-46 | A clash among the givens rules out every solution. |
| SearchSpec.CompleteSelfSolution | src/solver.rs:38-49 | A full puzzle without clash is its own and only solution. |
| SearchSpec.SolvedPuzzleSolvable | src/solver.rs:38-52 | A full puzzle without clash leaves the stack empty, although it has a solution. |
| SearchSpec.FreeCellsLists | src/solver.rs:38-42 | The stack holds the empty cells of the puzzle, each once, in increasing row-major order. |
| SearchSpec.FreeCellsEmptyIffComplete | src/solver.rs:38-42 | The stack is empty exactly when no cell of the puzzle is empty. |
| SearchSpec.LexLessAsymmetric | src/solver.rs:51-72 | The search order on fillings is irreflexive and asymmetric. |
| SearchSpec.LexLessTotal | src/solver.rs:51-72 | Of two distinct fillings of the same length, one comes before the other. |
| SearchSpec.InitialState | src/solver.rs:35-36 | Cursor 0 with every stack cell empty satisfies the search invariant. |
| SearchSpec.BacktrackStep | src/solver.rs:53-56 | Resetting a `Nine` to `Empty` and moving the cursor back keeps the search invariant and lowers the measure. No solution is skipped. |
| SearchSpec.RetryStep | src/solver.rs:57-70 | A new digit that clashes keeps the cursor. The invariant is kept and the measure drops. |
| SearchSpec.AdvanceStep | src/solver.rs:57-66 | A new digit that fits, with cells left, moves the cursor on. The invariant is kept and the measure drops. |
| SearchSpec.FoundStep | src/solver.rs:57-64 | A new digit that fits the last stack cell gives a full, consistent grid that keeps the givens. It is the least such grid in the search order. |
| SearchSpec.PassStep | src/solver.rs:51-72 | Every pass of the loop keeps the invariant and lowers the measure, or ends the search at the least solution. |
| SearchSpec.ExhaustedState | src/solver.rs:51-56 | When the cursor falls below 0, the puzzle has no solution and the grid is the input again. |
| SearchSpec.MeasurePositive | src/solver.rs:51 | The termination measure is positive while the cursor is on the stack. |
| Solvers.Solver.constructor | src/solver.rs:11-16 | A built conflict table and the graph of the puzzle. |
| Solvers.Solver.NumWorks | src/solver.rs:18-32 | True exactly when no cell conflicting with `(x, y)` holds the same value. |
| Solvers.Solver.CollectFreeCells | src/solver.rs:38-49 | Succeeds exactly when no given cell clashes. The stack is then the row-major list of the empty cells. |
| Solvers.Solver.Step | src/solver.rs:52-71 | One pass changes the graph's values and the cursor as the next-pass function of the search prescribes. No `fixed` flag changes. |
| Solvers.Solver.Backtrack | src/solver.rs:51-75 | Keeps the solver valid, so the `fixed` flags still mark the input's empty cells. On a clash-free puzzle, panics exactly when the stack is empty. Otherwise returns `Some` puzzle, solved exactly when the input is solvable. A solved result is the least solution in the order of the empty cells. An unsolved result is the input unchanged. |
| Solvers.Solver.Solve | src/solver.rs:34-75 | Keeps the solver valid. `None` exactly when two given cells clash. A panic on `stack[0]` exactly when the input is clash-free and full. Otherwise `Some`: the least solution when one exists, else the input with `solved` false. |
| Solvers.Solver.SolveCorrected | src/solver.rs:34-75 | As `Solve`, except that a full clash-free input comes back as it is, solved (see Findings). |
| Lib.Solve | src/lib.rs:54-58 | `Solver::new(p).solve()`. `None` exactly on a clash among the givens. The panic of `stack[0]` exactly when the input is clash-free and full. Otherwise `Some`, solved exactly when a solution exists: the least solution, or the input unchanged. |
| Lib.SolveCorrected | src/lib.rs:54-58 | `solve` over `Solver.SolveCorrected`. As `Lib.Solve`, except that a full clash-free input comes back as it is, solved (see Findings). |
| ParseSpec.DigitOf | src/sudoku/parser.rs:106 | `x - b'0'` on `u8`, wrapping around below `'0'`. |
| ParseSpec.BorderLits | src/sudoku/parser.rs:84-91 | `expect_line` reads the bytes of `+---+---+---+`. |
| ParseSpec.RunAppend | src/sudoku/parser.rs:136-150 | Reading `a + b` is reading `a`, then `b` from where `a` stopped. |
| ParseSpec.RunCounts | src/sudoku/parser.rs:71-82 | A run that gets through its tokens has moved `idx` by the number of cells and `line_no` by the number of line breaks. The read position only moves forward and stays within the input. |
| ParseSpec.RunKeepsGridRead | src/sudoku/parser.rs:100-120 | Cells from `idx` on stay empty. `solved` holds exactly when no cell read so far is empty. |
| ParseSpec.RunErrorAt | src/sudoku/parser.rs:39-45 | Every `ParseError` names a byte of the input that caused it. Its line is no earlier than the run's first line and no later than the lines the run has reached. |
| ParseSpec.RunExtends | src/sudoku/parser.rs:47-49 | A run that did not go past the end reads the same on every longer input. |
| ParseSpec.LayoutCounts | src/sudoku/parser.rs:136-144 | The first `n` lines of the layout hold nine cells per row line among them. They hold one line break per line, but the final border has none. |
| ParseSpec.RunLinesLayout | src/sudoku/parser.rs:136-144 | Reading the layout line by line is reading its tokens in one run. |
| ParseSpec.ParseRender | src/sudoku/mod.rs:78-84 | Any input whose first 181 bytes are the printed form of `g` parses to `g`, solved exactly when no cell is empty, whatever follows. |
| ParseSpec.PrettyPrintRoundTrip | src/sudoku/mod.rs:78-84 | `from_string(&s.pretty_print())` gives back the cells of `s`. |
| ParseSpec.LayoutTotals | src/sudoku/parser.rs:136-150 | The layout holds 81 cells and 12 line breaks. |
| ParseSpec.ParsedSolvedIffComplete | src/sudoku/parser.rs:146-149 | A successful parse is flagged solved exactly when none of its 81 cells is empty. |
| ParseSpec.ParseNeverOverflows | src/sudoku/parser.rs:111-117 | `parse` never indexes its grid past the 81st cell. |
| ParseSpec.ParseErrorAt | src/sudoku/parser.rs:39-45 | A `ParseError` from `parse` has a line number from 1 to 13, one of the layout's lines, and an offset inside the input. For `Expected`, it records the byte found there, which differs from the one needed. For `MissingNewline` and `NotADigit`, it records an offending byte. |
| ParseSpec.ParseIgnoresRest | src/sudoku/parser.rs:144-150 | Bytes after the final border change no outcome other than a past-end panic. |
| ParseSpec.CellByteCases | src/sudoku/parser.rs:100-120 | For one cell: a blank or `0` leaves the cell empty and clears `solved`; `1` to `9` store that digit; any other byte is `NotADigit` at the read position. |
| ParseSpec.NewlineCases | src/sudoku/parser.rs:71-82 | `\n`, `\r\n` and a lone `\r` each count one line. Anything else is `MissingNewline`. A `\r` as the last byte peeks past the end. |
| Parsers.SudokuParser.constructor | src/sudoku/parser.rs:28-37 | Line 1, offset 0, index 0, all cells empty, `solved` set. |
| Parsers.SudokuParser.ErrorHere | src/sudoku/parser.rs:39-45 | The error carries the current line, read position and kind. |
| Parsers.SudokuParser.Peek | src/sudoku/parser.rs:47-49 | The byte at the read position. `None` exactly when the position is past the end, where indexing panics. |
| Parsers.SudokuParser.Matches | src/sudoku/parser.rs:51-58 | Whether the byte at the read position is `c`. Only on a match does it move past the byte. No state changes otherwise. |
| Parsers.SudokuParser.Expect | src/sudoku/parser.rs:60-69 | Behaves as the literal step: it moves past `c` or reports `Expected` with the byte found. |
| Parsers.SudokuParser.ExpectNewline | src/sudoku/parser.rs:71-82 | Behaves as the line-break step. |
| Parsers.SudokuParser.ExpectDigit | src/sudoku/parser.rs:100-120 | Behaves as the cell step, including the wrapped digit and the check of the digit before the index. |
| Parsers.SudokuParser.ExpectLine | src/sudoku/parser.rs:84-98 | Behaves as reading a border, with a line break when `force_newline` is set. |
| Parsers.SudokuParser.ExpectRow | src/sudoku/parser.rs:122-134 | Behaves as reading a row line. |
| Parsers.SudokuParser.ExpectBox | src/sudoku/parser.rs:137-143 | One pass of the outer loop behaves as reading the next four lines of the layout. |
| Parsers.SudokuParser.Parse | src/sudoku/parser.rs:136-150 | Ends as reading all 13 lines of the layout does. |
| Parsers.FromString | src/sudoku/mod.rs:61-63 | `from_string` gives exactly `Parse` of the input bytes. |

## Left out

- `src/main.rs` is not part of this model: argument handling, file reading and printing are I/O.
- The `fmt::Debug` impl of `Sudoku` (src/sudoku/mod.rs:30-37) only passes `pretty_print` to a formatter. `PrettyPrint` models the text.
- `std::mem::uninitialized` in `Graph::new` is modelled as building an ordinary 81-vertex array.
- The debug-build panic of `x - b'0'` on bytes below `'0'` is not modelled. The release-build wrap-around is modelled instead (`DigitOf`); there such bytes also end in `NotADigit`.
- `&str` input is read as its bytes; UTF-8 validity is not modelled. `TryFrom<&str>` (src/sudoku/mod.rs:191-199) and `from_string` are both `Parsers.FromString`.
- Running time of the search is not modelled. Termination is proved with a measure; no time bound is given.
- Helper methods split off from one source function for the proof:
  - `Sudokus.PrintRow`: the inner loops of `pretty_print`.
  - `Solvers.Solver.CollectFreeCells`, `Solvers.Solver.Step` and `Solvers.Solver.Backtrack`: the phases of `solve`.
  - `AdjMat.AdjacencyMatrix.MarkLines`, `MarkBoxes` and their helpers: the loop nests of `AdjacencyMatrix::new`.
  - `Parsers.SudokuParser.ExpectBox`: one pass of the outer loop of `parse`.
- Solvers.Solver.Solve: "least solution" is stated over the puzzle's empty cells in row-major order, which is the order of the stack. The cell values of the given cells are equal in every solution.
- ParseSpec.Parse: the accepted input is stated as the token run of the layout: borders, rows of cell tokens and line breaks. No separate grammar states it. `ParseRender` and the step lemmas tie it to the printer and to each byte case.
- The concrete examples in the documentation and tests are not restated as lemmas. This covers the puzzle and solution of `solve`'s doc comment, and the string/number-list equality test in src/sudoku/mod.rs:205-233. `ParseRender`, `FromNumbers` and `Lib.Solve` state the general properties those examples are instances of. A proof that the doc comment's solution is consistent would have to go through all 6561 cell pairs of a concrete grid, which is beyond what the proofs here can afford.
- The doc comment of `solve` (src/lib.rs:14) says `None` means no solution. This model follows the code: `None` only on a clash among the givens, and an unsolvable clash-free puzzle comes back unsolved in `Some`.
- `solve` takes the puzzle by shared reference. In the model the puzzle is a value, so the caller's puzzle cannot change.

## Findings

| source | as written | input that shows it | evidently intended | confidence | as-written member | corrected member |
|---|---|---|---|---|---|---|
| src/solver.rs:51-52 | The search loop indexes `stack[stack_idx]` before checking that the stack has any cell. A puzzle with no empty cell and no clash leaves the stack empty, so `stack[0]` panics. | Any fully filled valid grid, such as the solution in the doc comment of `solve`, passed to `solve`. | Return the puzzle as it is, solved. It is its own solution, and the doc comment promises `None` only when no solution exists. | medium, not executed | Solvers.Solver.Solve, Lib.Solve, SearchSpec.SolvedPuzzleSolvable | Solvers.Solver.SolveCorrected, Lib.SolveCorrected |

`Solvers.Solver.Solve` models the code as written. Its contract says it
panics exactly on a clash-free full puzzle. `SearchSpec.SolvedPuzzleSolvable`
proves that every such puzzle has a solution and an empty stack.
`Solvers.Solver.SolveCorrected` skips the loop on an empty stack. It is
proved to return `Some` for every clash-free puzzle. `Lib.Solve` is the
entry point as written, over `Solver.Solve`. `Lib.SolveCorrected` is the
entry point over the corrected search.
