/**
 * The text parser (src/sudoku/parser.rs): `SudokuParser` reads the bordered
 * 13-line layout byte by byte, updating its line number, read position,
 * cell index, grid and `solved` flag. Each method is proved to do what the
 * token run of the same part of the layout does (module ParseSpec).
 */
module Parsers {
  import opened Wrappers
  import opened Numbers
  import opened Ascii
  import opened Sudokus
  import opened ParseSpec

  /**
   * How a method of the parser that returns `Result<(), ParseError>` ends:
   * `Ok(())`, `Err`, or a panic of `peek` past the end of the input or of
   * `grid[idx]` past the 81st cell.
   */
  datatype Status = Done | Error(error: ParseError) | PeekPanicked | GridPanicked

  /** A status, with the parser's state after it, as a token run. */
  function AsRun(s: Status, st: ParserState): Run
  {
    match s
    case Done => Running(st)
    case Error(e) => Failed(e)
    case PeekPanicked => PastEnd
    case GridPanicked => GridOverflow
  }

  /** What `parse` returns when one of its steps does not end in `Ok(())`. */
  function Stopped(s: Status): Outcome
    requires s != Done
  {
    match s
    case Error(e) => Finished(Err(e))
    case PeekPanicked => PeekPanic
    case GridPanicked => IndexPanic
  }

  class SudokuParser {
    /** The input bytes. */
    const source: seq<Byte>
    var lineNo: nat
    var pos: nat
    var idx: nat
    const grid: array<Number>
    var solved: bool

    /** The grid holds 81 cells. */
    ghost predicate Valid()
    {
      grid.Length == 81
    }

    /** The fields other than the input. */
    ghost function State(): ParserState
      reads this, grid
      requires Valid()
    {
      ParserState(lineNo, pos, idx, grid[..], solved)
    }

    /** `SudokuParser::new`: line 1, offset 0, every cell empty, `solved` set. */
    constructor (src: seq<Byte>)
      ensures Valid() && fresh(grid) && source == src
      ensures State() == Start()
    {
      source := src;
      lineNo := 1;
      pos := 0;
      idx := 0;
      grid := new Number[81](_ => Empty);
      solved := true;
    }

    /** `error`: a `ParseError` at the current line and read position. */
    function ErrorHere(kind: ErrorKind): (e: ParseError)
      reads this
      ensures e.lineNo == lineNo && e.pos == pos && e.kind == kind
    {
      ParseError(lineNo, pos, kind)
    }

    /** `peek`: the byte at the read position, `None` where indexing past the end panics. */
    function Peek(): (b: Option<Byte>)
      reads this
      ensures b.Some? <==> pos < |source|
      ensures b.Some? ==> b.value == source[pos]
    {
      if pos < |source| then Some(source[pos]) else None
    }

    /**
     * `matches(c)`: whether the byte at the read position is `c`, reading
     * past it if so; `None` where `peek` panics.
     */
    method Matches(c: Byte) returns (r: Option<bool>)
      requires Valid()
      modifies this
      ensures old(pos) >= |source| ==> r == None && State() == old(State())
      ensures old(pos) < |source| ==> r == Some(source[old(pos)] == c)
      ensures r == Some(true) ==> State() == old(State()).(pos := old(pos) + 1)
      ensures r == Some(false) ==> State() == old(State())
    {
      var b := Peek();
      if b.None? {
        return None;
      }
      if b.value == c {
        pos := pos + 1;
        return Some(true);
      }
      return Some(false);
    }

    /** `expect(c)`: read past `c`, or report the byte found instead. */
    method Expect(c: Byte) returns (s: Status)
      requires Valid()
      modifies this
      ensures AsRun(s, State()) == Step(source, old(State()), Lit(c))
    {
      var m := Matches(c);
      if m.None? {
        return PeekPanicked;
      }
      if !m.value {
        var found := Peek();
        return Error(ErrorHere(Expected(found.value, c)));
      }
      return Done;
    }

    /**
     * `expect_newline`: a carriage return, optionally followed by a line
     * feed, or a line feed alone, counted as one line.
     */
    method ExpectNewline() returns (s: Status)
      requires Valid()
      modifies this
      ensures AsRun(s, State()) == Step(source, old(State()), Newline)
    {
      var cr := Matches(CarriageReturn);
      if cr.None? {
        return PeekPanicked;
      }
      if cr.value {
        var lf := Matches(LineFeed);
        if lf.None? {
          return PeekPanicked;
        }
        lineNo := lineNo + 1;
        return Done;
      }
      var lf := Matches(LineFeed);
      if lf.value {
        lineNo := lineNo + 1;
        return Done;
      }
      return Error(ErrorHere(MissingNewline));
    }

    /**
     * `expect_digit`: a blank (` `, `x`, `X`, `_`) clears `solved`; any
     * other byte `x` gives the digit `x - b'0'` (wrapping below `0`), which
     * is stored at `idx` if it is at most 9 (`0` also clearing `solved`)
     * and is `NotADigit` otherwise. The digit is converted before the grid
     * is indexed.
     */
    method ExpectDigit() returns (s: Status)
      requires Valid()
      modifies this, grid
      ensures AsRun(s, State()) == Step(source, old(State()), Cell)
    {
      var b := Peek();
      if b.None? {
        return PeekPanicked;
      }
      var x := b.value;
      if Blank(x) {
        solved := false;
      } else {
        var digit := DigitOf(x);
        if digit == 0 {
          solved := false;
        }
        var n := TryFromByte(digit);
        if n.Err? {
          return Error(ErrorHere(NotADigit));
        }
        if idx >= 81 {
          return GridPanicked;
        }
        grid[idx] := n.value;
      }
      pos := pos + 1;
      idx := idx + 1;
      return Done;
    }

    /**
     * `expect_line(force_newline)`: a border `+---+---+---+`, then a line
     * break when `force_newline` is set.
     */
    method ExpectLine(forceNewline: bool) returns (s: Status)
      requires Valid()
      modifies this
      ensures AsRun(s, State()) ==
        RunTokens(source, old(State()), BorderLine(forceNewline))
    {
      ghost var st0 := State();
      ghost var ts := BorderLine(forceNewline);
      assert ts[..0] == [];
      ghost var mid := State();
      s := Expect(Plus);
      CornerStep(forceNewline, source, st0, ts, 0, mid, AsRun(s, State()));
      if s != Done {
        return;
      }
      for i := 0 to 3
        invariant Running(State()) == RunTokens(source, st0, ts[..1 + 4 * i])
      {
        for j := 0 to 3
          invariant Running(State()) == RunTokens(source, st0, ts[..1 + 4 * i + j])
        {
          mid := State();
          s := Expect(Minus);
          DashStep(forceNewline, source, st0, ts, i, j, mid, AsRun(s, State()));
          if s != Done {
            return;
          }
        }
        mid := State();
        s := Expect(Plus);
        CornerStep(forceNewline, source, st0, ts, i + 1, mid, AsRun(s, State()));
        if s != Done {
          return;
        }
      }
      if forceNewline {
        mid := State();
        s := ExpectNewline();
        TokenStep(source, st0, ts, 13, mid, AsRun(s, State()));
        if s != Done {
          return;
        }
      } else {
        assert ts[..13] == ts;
      }
      return Done;
    }

    /** `expect_row`: a row `|ddd|ddd|ddd|` of nine cells, then a line break. */
    method ExpectRow() returns (s: Status)
      requires Valid()
      modifies this, grid
      ensures AsRun(s, State()) == RunTokens(source, old(State()), RowTokens() + [Newline])
    {
      ghost var st0 := State();
      ghost var ts := RowTokens() + [Newline];
      assert ts[..0] == [];
      ghost var mid := State();
      s := Expect(Bar);
      BarStep(source, st0, ts, 0, mid, AsRun(s, State()));
      if s != Done {
        return;
      }
      for i := 0 to 3
        invariant Running(State()) == RunTokens(source, st0, ts[..1 + 4 * i])
      {
        for j := 0 to 3
          invariant Running(State()) == RunTokens(source, st0, ts[..1 + 4 * i + j])
        {
          mid := State();
          s := ExpectDigit();
          CellStep(source, st0, ts, i, j, mid, AsRun(s, State()));
          if s != Done {
            return;
          }
        }
        mid := State();
        s := Expect(Bar);
        BarStep(source, st0, ts, i + 1, mid, AsRun(s, State()));
        if s != Done {
          return;
        }
      }
      mid := State();
      s := ExpectNewline();
      TokenStep(source, st0, ts, 13, mid, AsRun(s, State()));
    }

    /**
     * One pass of the outer loop of `parse` (src/sudoku/parser.rs:138-142):
     * `expect_line(true)`, then `expect_row` three times, for box `b`.
     */
    method ExpectBox(ghost st0: ParserState, ghost b: nat) returns (s: Status)
      requires Valid() && b < 3 && Running(State()) == RunLines(source, st0, 4 * b)
      modifies this, grid
      ensures AsRun(s, State()) == RunLines(source, st0, 4 * b + 4)
    {
      ghost var mid := State();
      s := ExpectLine(true);
      BoxBorderStep(source, st0, b, mid, AsRun(s, State()));
      if s != Done {
        return;
      }
      for row := 0 to 3
        invariant s == Done
        invariant Running(State()) == RunLines(source, st0, 4 * b + 1 + row)
      {
        mid := State();
        s := ExpectRow();
        ghost var r := AsRun(s, State());
        BoxRowStep(source, st0, b, row, mid, r);
        if s != Done {
          return;
        }
        assert r == Running(State());
      }
    }

    /**
     * `parse`: three boxes of a border line and three row lines, then a
     * final border without a line break; the puzzle is the grid read and
     * the `solved` flag.
     */
    method Parse() returns (r: Outcome)
      requires Valid()
      modifies this, grid
      ensures r == OutcomeOf(RunLines(source, old(State()), 13))
    {
      ghost var st0 := State();
      for b := 0 to 3
        invariant Running(State()) == RunLines(source, st0, 4 * b)
      {
        var s := ExpectBox(st0, b);
        if s != Done {
          RunLinesStopped(source, st0, 4 * b + 4, 13);
          return Stopped(s);
        }
        assert 4 * (b + 1) == 4 * b + 4;
      }
      ghost var mid := State();
      var s := ExpectLine(false);
      ghost var last := AsRun(s, State());
      LastBorderStep(source, st0, mid, last);
      if s != Done {
        return Stopped(s);
      }
      assert last == Running(State());
      return Finished(Ok(Sudoku(solved, grid[..])));
    }
  }

  /**
   * `Sudoku::from_string` (by way of `TryFrom<&str>`): a new parser over
   * the bytes of `source`, run through `parse`.
   */
  method FromString(source: seq<Byte>) returns (r: Outcome)
    ensures r == Parse(source)
  {
    var parser := new SudokuParser(source);
    r := parser.Parse();
    RunLinesLayout(source, Start(), 13);
  }
}
