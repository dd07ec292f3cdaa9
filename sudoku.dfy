/**
 * The puzzle value (src/sudoku/mod.rs): 81 cells in row-major order, cell
 * `(x, y)` at index `x * 9 + y`, and a flag recording that no cell is empty.
 */
module Sudokus {
  import opened Wrappers
  import opened Numbers
  import opened Ascii

  /** The 81 cells of a puzzle, row by row. */
  type Grid = g: seq<Number> | |g| == 81 witness seq(81, _ => Empty)

  /** Whether no cell of `g` is empty: what the `solved` flag records. */
  predicate Complete(g: Grid)
  {
    forall k | 0 <= k < 81 :: g[k] != Empty
  }

  /** `Sudoku { solved, grid }`. */
  datatype Sudoku = Sudoku(solved: bool, grid: Grid)
  {
    /** `is_solved`. */
    function IsSolved(): (b: bool)
      ensures b <==> solved
    {
      solved
    }

    /** `puzzle[(x, y)]`: the cell at flat index `x * 9 + y`, row `x` and column `y` when `y < 9`. */
    function At(x: nat, y: nat): (n: Number)
      requires x * 9 + y < 81
      ensures y < 9 ==> n == grid[x * 9 + y] && (x * 9 + y) / 9 == x && (x * 9 + y) % 9 == y
    {
      grid[x * 9 + y]
    }
  }

  /** `PartialEq for Sudoku`: two puzzles are equal when their cells agree; the flag is ignored. */
  method Equal(s: Sudoku, t: Sudoku) returns (r: bool)
    ensures r <==> s.grid == t.grid
  {
    for i := 0 to 81
      invariant s.grid[..i] == t.grid[..i]
    {
      if s.grid[i] != t.grid[i] {
        return false;
      }
    }
    assert s.grid == s.grid[..81] && t.grid == t.grid[..81];
    return true;
  }

  // ---- the printed form ----

  /** The character `pretty_print` writes for a cell: a blank for `Empty`, the digit otherwise. */
  function CellByte(n: Number): (b: Byte)
  {
    var c := n.ToByte();
    if c == 0 then Space else c + Zero
  }

  /** A printed row of cells: `|` at columns 0, 4, 8, 12 and the nine cells of row `r` in between. */
  function RowLine(g: Grid, r: nat): (line: seq<Byte>)
    requires r < 9
  {
    seq(13, j requires 0 <= j < 13 => if j % 4 == 0 then Bar else CellByte(g[r * 9 + j - j / 4 - 1]))
  }

  /** Printed line `l` (0 to 12) with its line feed: the border on lines 0, 4, 8 and 12, rows elsewhere. */
  function Line(g: Grid, l: nat): (line: seq<Byte>)
    requires l < 13
  {
    if l % 4 == 0 then Border + [LineFeed] else RowLine(g, l - l / 4 - 1) + [LineFeed]
  }

  /** The thirteen printed lines. */
  function Lines(g: Grid): seq<seq<Byte>>
  {
    seq(13, l requires 0 <= l < 13 => Line(g, l))
  }

  /** The concatenation of a sequence of lines. */
  function Flatten<T>(ls: seq<seq<T>>): seq<T>
  {
    if |ls| == 0 then [] else Flatten(ls[..|ls| - 1]) + ls[|ls| - 1]
  }

  /** The text `pretty_print` produces for grid `g`. */
  function Render(g: Grid): (text: seq<Byte>)
    ensures |text| == 182
  {
    LineWidths(g);
    FlattenWidth14(Lines(g));
    Flatten(Lines(g))
  }

  /** Offset of the character that shows cell `(r, c)` in the printed text. */
  function CellOffset(r: nat, c: nat): nat
  {
    14 * (r + r / 3 + 1) + c + c / 3 + 1
  }

  /** Flattening lines of fourteen characters each puts character `j` of line `l` at `14 * l + j`. */
  lemma {:induction false} FlattenWidth14<T>(ls: seq<seq<T>>)
    requires forall l | 0 <= l < |ls| :: |ls[l]| == 14
    ensures |Flatten(ls)| == 14 * |ls|
    ensures forall l, j | 0 <= l < |ls| && 0 <= j < 14 :: Flatten(ls)[14 * l + j] == ls[l][j]
  {
    if |ls| > 0 {
      var front := ls[..|ls| - 1];
      FlattenWidth14(front);
      assert Flatten(ls) == Flatten(front) + ls[|ls| - 1];
      forall l, j | 0 <= l < |ls| && 0 <= j < 14
        ensures Flatten(ls)[14 * l + j] == ls[l][j]
      {
        if l < |ls| - 1 {
          assert ls[l] == front[l];
        }
      }
    }
  }

  /** Each printed line is thirteen characters and a line feed. */
  lemma LineWidths(g: Grid)
    ensures |Lines(g)| == 13
    ensures forall l | 0 <= l < 13 :: |Lines(g)[l]| == 14 && Lines(g)[l][13] == LineFeed
  {
  }

  /**
   * The printed text is 182 characters: the thirteen lines one after the
   * other, line `l` at offset `14 * l`.
   */
  lemma RenderLines(g: Grid)
    ensures |Render(g)| == 182
    ensures forall l | 0 <= l < 13 :: Render(g)[14 * l .. 14 * l + 14] == Line(g, l)
  {
    LineWidths(g);
    FlattenWidth14(Lines(g));
    forall l | 0 <= l < 13
      ensures Render(g)[14 * l .. 14 * l + 14] == Line(g, l)
    {
      forall j | 0 <= j < 14
        ensures Render(g)[14 * l .. 14 * l + 14][j] == Line(g, l)[j]
      {
        assert Render(g)[14 * l + j] == Lines(g)[l][j];
      }
    }
  }

  /**
   * Cell `(r, c)` is shown at `CellOffset(r, c)`: as a blank when it is
   * empty, as its digit otherwise.
   */
  lemma RenderCells(g: Grid)
    ensures |Render(g)| == 182
    ensures forall r, c | 0 <= r < 9 && 0 <= c < 9 ::
      Render(g)[CellOffset(r, c)] == (if g[r * 9 + c] == Empty then Space else Zero + g[r * 9 + c].ToByte())
  {
    LineWidths(g);
    FlattenWidth14(Lines(g));
    forall r, c | 0 <= r < 9 && 0 <= c < 9
      ensures Render(g)[CellOffset(r, c)] == (if g[r * 9 + c] == Empty then Space else Zero + g[r * 9 + c].ToByte())
    {
      var l, j := r + r / 3 + 1, c + c / 3 + 1;
      assert l % 4 != 0 && l - l / 4 - 1 == r;
      assert j % 4 != 0 && j - j / 4 - 1 == c;
      assert CellOffset(r, c) == 14 * l + j;
      assert Render(g)[14 * l + j] == Lines(g)[l][j] == RowLine(g, r)[j];
    }
  }

  /** Distinct cell contents are printed as distinct characters, so printing loses nothing. */
  lemma CellByteInjective(m: Number, n: Number)
    ensures CellByte(m) == CellByte(n) ==> m == n
  {
    ToByteInjective(m, n);
  }

  /** Steps of the printing loops. */
  lemma FlattenStep<T>(ls: seq<seq<T>>, n: nat)
    requires n < |ls|
    ensures Flatten(ls[..n + 1]) == Flatten(ls[..n]) + ls[n]
  {
    assert ls[..n + 1][..n] == ls[..n];
  }

  lemma LinesStep(g: Grid, n: nat)
    requires n < 13
    ensures Flatten(Lines(g)[..n + 1]) == Flatten(Lines(g)[..n]) + Line(g, n)
  {
    FlattenStep(Lines(g), n);
  }

  lemma BorderLineOf(g: Grid, b: nat)
    requires b < 4
    ensures Line(g, 4 * b) == Border + [LineFeed]
  {
    assert (4 * b) % 4 == 0;
  }

  lemma RowBarStep(g: Grid, r: nat, q: nat)
    requires r < 9 && q < 4
    ensures RowLine(g, r)[..4 * q + 1] == RowLine(g, r)[..4 * q] + [Bar]
  {
  }

  lemma RowCellStep(g: Grid, r: nat, q: nat, c: nat)
    requires r < 9 && q < 3 && c < 3
    ensures RowLine(g, r)[..4 * q + 2 + c] == RowLine(g, r)[..4 * q + 1 + c] + [CellByte(g[9 * r + 3 * q + c])]
  {
    var j := 4 * q + 1 + c;
    assert j % 4 != 0 && j - j / 4 - 1 == 3 * q + c;
  }

  lemma RowLineEnd(g: Grid, r: nat)
    requires r < 9
    ensures RowLine(g, r)[..12] + [Bar] == RowLine(g, r)
  {
  }

  lemma RowLineOf(g: Grid, b: nat, rr: nat)
    requires b < 3 && rr < 3
    ensures Line(g, 4 * b + 1 + rr) == RowLine(g, 3 * b + rr) + [LineFeed]
  {
    var l := 4 * b + 1 + rr;
    assert l % 4 != 0 && l - l / 4 - 1 == 3 * b + rr;
  }

  /**
   * One row of numbers in `pretty_print` (src/sudoku/mod.rs:96-111): appends
   * `|` and three cells, three times, to `start`, reading cells `idx0` onwards.
   */
  method PrintRow(s: Sudoku, r: nat, idx0: nat, start: seq<Byte>) returns (out: seq<Byte>, idx: nat)
    requires r < 9 && idx0 == 9 * r
    ensures idx == idx0 + 9
    ensures out == start + RowLine(s.grid, r)[..12]
  {
    ghost var g := s.grid;
    out := start;
    idx := idx0;
    for q := 0 to 3
      invariant idx == 9 * r + 3 * q
      invariant out == start + RowLine(g, r)[..4 * q]
    {
      RowBarStep(g, r, q);
      out := out + [Bar];
      for c := 0 to 3
        invariant idx == 9 * r + 3 * q + c
        invariant out == start + RowLine(g, r)[..4 * q + 1 + c]
      {
        RowCellStep(g, r, q, c);
        var n := s.grid[idx].ToByte();
        idx := idx + 1;
        if n == 0 {
          out := out + [Space];
        } else {
          out := out + [n + Zero];
        }
      }
    }
  }
  /** `pretty_print`: the text `Render` describes, 13 lines of 13 characters and a line feed. */
  method PrettyPrint(s: Sudoku) returns (out: seq<Byte>)
    ensures out == Render(s.grid)
  {
    ghost var g := s.grid;
    out := [];
    var idx := 0;
    for b := 0 to 3
      invariant idx == 27 * b
      invariant out == Flatten(Lines(g)[..4 * b])
    {
      LinesStep(g, 4 * b);
      BorderLineOf(g, b);
      out := out + Border + [LineFeed];
      for rr := 0 to 3
        invariant idx == 27 * b + 9 * rr
        invariant out == Flatten(Lines(g)[..4 * b + 1 + rr])
      {
        var r := 3 * b + rr;
        out, idx := PrintRow(s, r, idx, out);
        RowLineEnd(g, r);
        RowLineOf(g, b, rr);
        LinesStep(g, 4 * b + 1 + rr);
        out := out + [Bar, LineFeed];
      }
    }
    LinesStep(g, 12);
    BorderLineOf(g, 3);
    out := out + Border + [LineFeed];
    assert Lines(g)[..13] == Lines(g);
  }
  // ---- construction from a list of numbers ----

  /** `NumParseError`. */
  datatype NumParseError = NumberTooLarge | NotEnoughNumbers

  /**
   * `Sudoku::try_from(&[u8])` and `from_numbers`: 81 bytes in row-major
   * order, 0 for an empty cell. The first byte above 9 stops the scan with
   * `NumberTooLarge`; any length other than 81 gives `NotEnoughNumbers`.
   */
  method FromNumbers(nums: seq<Byte>) returns (r: Result<Sudoku, NumParseError>)
    ensures |nums| != 81 <==> r == Err(NotEnoughNumbers)
    ensures |nums| == 81 ==> (r.Ok? <==> forall k | 0 <= k < 81 :: nums[k] <= 9)
    ensures |nums| == 81 && r.Err? ==> r.error == NumberTooLarge
    ensures r.Ok? ==> forall k | 0 <= k < 81 :: r.value.grid[k].ToByte() == nums[k]
    ensures r.Ok? ==> (r.value.solved <==> Complete(r.value.grid))
  {
    if |nums| != 81 {
      return Err(NotEnoughNumbers);
    }
    var grid := new Number[81](_ => Empty);
    var solved := true;
    for x := 0 to 9
      invariant forall k | 0 <= k < 9 * x :: nums[k] <= 9 && grid[k].ToByte() == nums[k]
      invariant forall k | 9 * x <= k < 81 :: grid[k] == Empty
      invariant solved <==> forall k | 0 <= k < 9 * x :: nums[k] != 0
    {
      for y := 0 to 9
        invariant forall k | 0 <= k < 9 * x + y :: nums[k] <= 9 && grid[k].ToByte() == nums[k]
        invariant forall k | 9 * x + y <= k < 81 :: grid[k] == Empty
        invariant solved <==> forall k | 0 <= k < 9 * x + y :: nums[k] != 0
      {
        var idx := x * 9 + y;
        if nums[idx] == 0 {
          solved := false;
        } else {
          match TryFromByte(nums[idx])
          case Err(_) =>
            return Err(NumberTooLarge);
          case Ok(n) =>
            grid[idx] := n;
        }
      }
    }
    r := Ok(Sudoku(solved, grid[..]));
    forall k | 0 <= k < 81
      ensures r.value.grid[k] == Empty <==> nums[k] == 0
    {
    }
  }
}
