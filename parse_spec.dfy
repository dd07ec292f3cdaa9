/**
 * What the text parser (src/sudoku/parser.rs) does, as functions on its
 * state. The input is read as a sequence of expected tokens: a literal
 * byte, a cell, or a line break. Running the tokens of the 13-line layout
 * from the initial state is what `parse` does, and the lemmas here are
 * about that run.
 */
module ParseSpec {
  import opened Wrappers
  import opened Numbers
  import opened Ascii
  import opened Sudokus

  /** `ErrorKind`. */
  datatype ErrorKind = Expected(found: Byte, needed: Byte) | MissingNewline | NotADigit

  /** `ParseError`: the 1-based line number, the byte offset and the kind. */
  datatype ParseError = ParseError(lineNo: nat, pos: nat, kind: ErrorKind)

  /** The fields of `SudokuParser` other than the input. */
  datatype ParserState = ParserState(lineNo: nat, pos: nat, idx: nat, grid: Grid, solved: bool)

  /**
   * Where reading stops: still reading in a state, a `ParseError`, a panic
   * of `peek` past the end of the input, or a panic of `grid[idx]` past
   * the 81st cell.
   */
  datatype Run = Running(st: ParserState) | Failed(error: ParseError) | PastEnd | GridOverflow

  /** What the parser expects next: one given byte, one cell, or a line break. */
  datatype Token = Lit(c: Byte) | Cell | Newline

  /** `SudokuParser::new`: line 1, offset 0, no cell read, all cells empty, `solved` set. */
  function Start(): ParserState
  {
    ParserState(1, 0, 0, seq(81, _ => Empty), true)
  }

  /** The characters `expect_digit` takes for an empty cell besides `0`. */
  predicate Blank(b: Byte)
  {
    b == Space || b == SmallX || b == CapitalX || b == Underscore
  }

  /** `x - b'0'` on `u8`, wrapping around below `0`. */
  function DigitOf(b: Byte): (d: Byte)
    ensures Zero <= b ==> d == b - Zero
    ensures b < Zero ==> d == b - Zero + 256
  {
    (b - Zero) % 256
  }

  /**
   * Reading one token in state `st`: `matches`/`expect` for a literal,
   * `expect_newline` (a carriage return, optionally followed by a line
   * feed, or a line feed alone) and `expect_digit` for a cell.
   */
  function Step(src: seq<Byte>, st: ParserState, t: Token): Run
  {
    if st.pos >= |src| then PastEnd
    else
      var b := src[st.pos];
      match t
      case Lit(c) =>
        if b == c then Running(st.(pos := st.pos + 1))
        else Failed(ParseError(st.lineNo, st.pos, Expected(b, c)))
      case Newline =>
        if b == CarriageReturn then
          if st.pos + 1 >= |src| then PastEnd
          else if src[st.pos + 1] == LineFeed then Running(st.(pos := st.pos + 2, lineNo := st.lineNo + 1))
          else Running(st.(pos := st.pos + 1, lineNo := st.lineNo + 1))
        else if b == LineFeed then Running(st.(pos := st.pos + 1, lineNo := st.lineNo + 1))
        else Failed(ParseError(st.lineNo, st.pos, MissingNewline))
      case Cell =>
        if Blank(b) then Running(st.(solved := false, pos := st.pos + 1, idx := st.idx + 1))
        else
          var d := DigitOf(b);
          match TryFromByte(d)
          case Err(_) => Failed(ParseError(st.lineNo, st.pos, NotADigit))
          case Ok(n) =>
            if st.idx >= 81 then GridOverflow
            else Running(st.(grid := st.grid[st.idx := n], solved := st.solved && d != 0,
                             pos := st.pos + 1, idx := st.idx + 1))
  }

  /** One more token after `r`: only a run that is still reading goes on. */
  function Then(src: seq<Byte>, r: Run, t: Token): Run
  {
    if r.Running? then Step(src, r.st, t) else r
  }

  /** Reading the tokens `ts` in order from state `st`, stopping at the first error or panic. */
  function RunTokens(src: seq<Byte>, st: ParserState, ts: seq<Token>): Run
  {
    if |ts| == 0 then Running(st) else Then(src, RunTokens(src, st, ts[..|ts| - 1]), ts[|ts| - 1])
  }

  /** Reading `ts` after a run `r`. */
  function Resume(src: seq<Byte>, r: Run, ts: seq<Token>): Run
  {
    if r.Running? then RunTokens(src, r.st, ts) else r
  }

  // ---- the layout ----

  /** The bytes `cs`, each as a literal. */
  function Lits(cs: seq<Byte>): (ts: seq<Token>)
    ensures |ts| == |cs|
  {
    seq(|cs|, k requires 0 <= k < |cs| => Lit(cs[k]))
  }

  /** `+---+---+---+` as literals: `+` at 0, 4, 8 and 12 and `-` in between. */
  function BorderTokens(): (ts: seq<Token>)
    ensures |ts| == 13
  {
    seq(13, k requires 0 <= k < 13 => if k % 4 == 0 then Lit(Plus) else Lit(Minus))
  }

  /** The border `expect_line` reads is the one `pretty_print` writes. */
  lemma BorderLits()
    ensures BorderTokens() == Lits(Border)
  {
    forall k | 0 <= k < 13
      ensures BorderTokens()[k] == Lits(Border)[k]
    {
      assert Lits(Border)[k] == Lit(Border[k]);
    }
  }

  /** A border line, followed by a line break when `force` is set. */
  function BorderLine(force: bool): (ts: seq<Token>)
    ensures |ts| == if force then 14 else 13
  {
    if force then BorderTokens() + [Newline] else BorderTokens()
  }

  /** A border line, with or without its line break, has `-` after each `+` but the last. */
  lemma DashAt(force: bool, ts: seq<Token>, i: nat, j: nat)
    requires ts == BorderLine(force)
    requires i < 3 && j < 3
    ensures ts[1 + 4 * i + j] == Lit(Minus)
  {
    assert ts[1 + 4 * i + j] == BorderTokens()[1 + 4 * i + j];
  }

  /** A border line, with or without its line break, has `+` at 0, 4, 8 and 12. */
  lemma CornerAt(force: bool, ts: seq<Token>, i: nat)
    requires ts == BorderLine(force)
    requires i <= 3
    ensures ts[4 * i] == Lit(Plus)
  {
    assert ts[4 * i] == BorderTokens()[4 * i];
  }

  /** A row `|ddd|ddd|ddd|`: bars at 0, 4, 8 and 12, cells in between. */
  function RowTokens(): (ts: seq<Token>)
    ensures |ts| == 13
  {
    seq(13, k requires 0 <= k < 13 => if k % 4 == 0 then Lit(Bar) else Cell)
  }

  /** A row line has cells after each bar but the last. */
  lemma CellAt(ts: seq<Token>, i: nat, j: nat)
    requires ts == RowTokens() + [Newline] && i < 3 && j < 3
    ensures ts[1 + 4 * i + j] == Cell
  {
    assert ts[1 + 4 * i + j] == RowTokens()[1 + 4 * i + j];
  }

  /** A row line has bars at 0, 4, 8 and 12, and its line break at 13. */
  lemma BarAt(ts: seq<Token>, i: nat)
    requires ts == RowTokens() + [Newline] && i <= 3
    ensures ts[4 * i] == Lit(Bar) && ts[13] == Newline
  {
    assert ts[4 * i] == RowTokens()[4 * i];
  }

  /** `expect_digit` on cell `j` of box `i` of a row line. */
  lemma CellStep(src: seq<Byte>, st: ParserState, ts: seq<Token>, i: nat, j: nat, mid: ParserState, r: Run)
    requires ts == RowTokens() + [Newline] && i < 3 && j < 3
    requires RunTokens(src, st, ts[..1 + 4 * i + j]) == Running(mid) && r == Step(src, mid, Cell)
    ensures RunTokens(src, st, ts[..2 + 4 * i + j]) == r
    ensures !r.Running? ==> RunTokens(src, st, ts) == r
  {
    CellAt(ts, i, j);
    TokenStep(src, st, ts, 1 + 4 * i + j, mid, r);
  }

  /** `expect(b'|')` on bar `i` of a row line. */
  lemma BarStep(src: seq<Byte>, st: ParserState, ts: seq<Token>, i: nat, mid: ParserState, r: Run)
    requires ts == RowTokens() + [Newline] && i <= 3
    requires RunTokens(src, st, ts[..4 * i]) == Running(mid) && r == Step(src, mid, Lit(Bar))
    ensures RunTokens(src, st, ts[..4 * i + 1]) == r
    ensures !r.Running? ==> RunTokens(src, st, ts) == r
  {
    BarAt(ts, i);
    TokenStep(src, st, ts, 4 * i, mid, r);
  }

  /** `expect(b'-')` on dash `j` of box `i` of a border line. */
  lemma DashStep(force: bool, src: seq<Byte>, st: ParserState, ts: seq<Token>, i: nat, j: nat, mid: ParserState, r: Run)
    requires ts == BorderLine(force)
    requires i < 3 && j < 3
    requires RunTokens(src, st, ts[..1 + 4 * i + j]) == Running(mid) && r == Step(src, mid, Lit(Minus))
    ensures RunTokens(src, st, ts[..2 + 4 * i + j]) == r
    ensures !r.Running? ==> RunTokens(src, st, ts) == r
  {
    DashAt(force, ts, i, j);
    TokenStep(src, st, ts, 1 + 4 * i + j, mid, r);
  }

  /** `expect(b'+')` on corner `i` of a border line. */
  lemma CornerStep(force: bool, src: seq<Byte>, st: ParserState, ts: seq<Token>, i: nat, mid: ParserState, r: Run)
    requires ts == BorderLine(force)
    requires i <= 3
    requires RunTokens(src, st, ts[..4 * i]) == Running(mid) && r == Step(src, mid, Lit(Plus))
    ensures RunTokens(src, st, ts[..4 * i + 1]) == r
    ensures !r.Running? ==> RunTokens(src, st, ts) == r
  {
    CornerAt(force, ts, i);
    TokenStep(src, st, ts, 4 * i, mid, r);
  }

  /**
   * Line `l` of the layout: `expect_line(true)` on lines 0, 4 and 8,
   * `expect_row` on the rows and `expect_line(false)` on line 12.
   */
  function LineTokens(l: nat): seq<Token>
  {
    if l % 4 != 0 then RowTokens() + [Newline] else BorderLine(l < 12)
  }

  /** The tokens of the first `n` lines. */
  function LayoutLines(n: nat): seq<Token>
  {
    Flatten(seq(n, l requires 0 <= l < n => LineTokens(l)))
  }

  /** The whole layout `parse` reads. */
  function Layout(): seq<Token>
  {
    LayoutLines(13)
  }

  /** What `from_string` ends in: a puzzle, a `ParseError`, or one of the two panics. */
  datatype Outcome = Finished(result: Result<Sudoku, ParseError>) | PeekPanic | IndexPanic

  /** The outcome `parse` reports once its run of the layout has stopped in `r`. */
  function OutcomeOf(r: Run): Outcome
  {
    match r
    case Running(st) => Finished(Ok(Sudoku(st.solved, st.grid)))
    case Failed(e) => Finished(Err(e))
    case PastEnd => PeekPanic
    case GridOverflow => IndexPanic
  }

  /** `Sudoku::from_string(src)`. */
  function Parse(src: seq<Byte>): Outcome
  {
    OutcomeOf(RunTokens(src, Start(), Layout()))
  }

  // ---- running token sequences ----

  /** Reading `a + b` is reading `a`, then `b` if nothing stopped the run. */
  lemma {:induction false} RunAppend(src: seq<Byte>, st: ParserState, a: seq<Token>, b: seq<Token>)
    ensures RunTokens(src, st, a + b) == Resume(src, RunTokens(src, st, a), b)
    decreases |b|
  {
    if |b| == 0 {
      assert a + b == a;
    } else {
      var b' := b[..|b| - 1];
      assert (a + b)[..|a + b| - 1] == a + b';
      RunAppend(src, st, a, b');
    }
  }

  /** One more token of `ts`. */
  lemma RunPrefixStep(src: seq<Byte>, st: ParserState, ts: seq<Token>, n: nat)
    requires n < |ts|
    ensures RunTokens(src, st, ts[..n + 1]) == Then(src, RunTokens(src, st, ts[..n]), ts[n])
  {
    assert ts[..n + 1][..n] == ts[..n];
  }

  /**
   * Token `k` of `ts` read after the ones before it; if that stops the
   * run, or was the last token, the run of `ts` ends there.
   */
  lemma TokenStep(src: seq<Byte>, st: ParserState, ts: seq<Token>, k: nat, mid: ParserState, r: Run)
    requires k < |ts| && RunTokens(src, st, ts[..k]) == Running(mid) && r == Step(src, mid, ts[k])
    ensures RunTokens(src, st, ts[..k + 1]) == r
    ensures !r.Running? || k + 1 == |ts| ==> RunTokens(src, st, ts) == r
  {
    RunPrefixStep(src, st, ts, k);
    assert ts[..|ts|] == ts;
    if !r.Running? {
      RunStopped(src, st, ts, k + 1);
    }
  }

  /** Once a prefix of `ts` has stopped the run, the whole of `ts` stops the same way. */
  lemma RunStopped(src: seq<Byte>, st: ParserState, ts: seq<Token>, n: nat)
    requires n <= |ts| && !RunTokens(src, st, ts[..n]).Running?
    ensures RunTokens(src, st, ts) == RunTokens(src, st, ts[..n])
  {
    assert ts == ts[..n] + ts[n..];
    RunAppend(src, st, ts[..n], ts[n..]);
  }

  /** The number of cells among `ts`. */
  function CellCount(ts: seq<Token>): nat
  {
    if |ts| == 0 then 0 else CellCount(ts[..|ts| - 1]) + (if ts[|ts| - 1] == Cell then 1 else 0)
  }

  /** The number of line breaks among `ts`. */
  function NewlineCount(ts: seq<Token>): nat
  {
    if |ts| == 0 then 0 else NewlineCount(ts[..|ts| - 1]) + (if ts[|ts| - 1] == Newline then 1 else 0)
  }

  /**
   * A run that gets through `ts` has read one cell per cell token, counted
   * one line per line break, and never moved backwards.
   */
  lemma {:induction false} RunCounts(src: seq<Byte>, st: ParserState, ts: seq<Token>)
    requires st.pos <= |src|
    ensures RunTokens(src, st, ts).Running? ==>
      RunTokens(src, st, ts).st.idx == st.idx + CellCount(ts) &&
      RunTokens(src, st, ts).st.lineNo == st.lineNo + NewlineCount(ts) &&
      st.pos <= RunTokens(src, st, ts).st.pos <= |src|
  {
    if |ts| > 0 {
      RunCounts(src, st, ts[..|ts| - 1]);
    }
  }

  /** Fewer than 82 cells from `st.idx` on never write past the 81st cell. */
  lemma {:induction false} NoOverflow(src: seq<Byte>, st: ParserState, ts: seq<Token>)
    requires st.pos <= |src| && st.idx + CellCount(ts) <= 81
    ensures RunTokens(src, st, ts) != GridOverflow
  {
    if |ts| > 0 {
      var front := ts[..|ts| - 1];
      NoOverflow(src, st, front);
      RunCounts(src, st, front);
    }
  }

  /**
   * The grid holds what was read: cells from `idx` on are still empty, and
   * `solved` is set exactly when no cell read so far is empty.
   */
  predicate GridRead(st: ParserState)
  {
    st.idx <= 81 &&
    (forall k | st.idx <= k < 81 :: st.grid[k] == Empty) &&
    (st.solved <==> forall k | 0 <= k < st.idx :: st.grid[k] != Empty)
  }

  lemma StepKeepsGridRead(src: seq<Byte>, st: ParserState, t: Token)
    requires GridRead(st) && Step(src, st, t).Running? && (t == Cell ==> st.idx < 81)
    ensures GridRead(Step(src, st, t).st)
  {
    var st' := Step(src, st, t).st;
    if t == Cell {
      assert st'.idx == st.idx + 1;
      assert forall k | 0 <= k < st.idx :: st'.grid[k] == st.grid[k];
      assert forall k | st'.idx <= k < 81 :: st'.grid[k] == st.grid[k];
      if st'.grid[st.idx] != Empty {
        assert st'.solved == st.solved;
      }
      assert (forall k | 0 <= k < st'.idx :: st'.grid[k] != Empty) <==>
        (forall k | 0 <= k < st.idx :: st.grid[k] != Empty) && st'.grid[st.idx] != Empty;
    }
  }

  lemma {:induction false} RunKeepsGridRead(src: seq<Byte>, st: ParserState, ts: seq<Token>)
    requires GridRead(st) && st.pos <= |src| && st.idx + CellCount(ts) <= 81
    ensures RunTokens(src, st, ts).Running? ==> GridRead(RunTokens(src, st, ts).st)
  {
    if |ts| > 0 {
      var front := ts[..|ts| - 1];
      RunKeepsGridRead(src, st, front);
      RunCounts(src, st, front);
      if RunTokens(src, st, front).Running? && Step(src, RunTokens(src, st, front).st, ts[|ts| - 1]).Running? {
        StepKeepsGridRead(src, RunTokens(src, st, front).st, ts[|ts| - 1]);
      }
    }
  }

  /**
   * An error names a byte of the input and a line not before `line`: for
   * `Expected`, the byte found there and a different byte that was needed;
   * for `MissingNewline`, a byte that starts no line break; for
   * `NotADigit`, a byte that is neither blank nor `0` to `9`.
   */
  predicate ErrorAt(src: seq<Byte>, e: ParseError, line: nat)
  {
    e.pos < |src| && line <= e.lineNo &&
    match e.kind
    case Expected(found, needed) => found == src[e.pos] && found != needed
    case MissingNewline => src[e.pos] != CarriageReturn && src[e.pos] != LineFeed
    case NotADigit => !Blank(src[e.pos]) && !(Zero <= src[e.pos] <= Zero + 9)
  }

  lemma StepErrorAt(src: seq<Byte>, st: ParserState, t: Token)
    requires Step(src, st, t).Failed?
    ensures ErrorAt(src, Step(src, st, t).error, st.lineNo)
    ensures Step(src, st, t).error.lineNo == st.lineNo
  {
  }

  /**
   * Every `ParseError` a run reports points at the byte of the input that
   * caused it, on a line the run has reached.
   */
  lemma {:induction false} RunErrorAt(src: seq<Byte>, st: ParserState, ts: seq<Token>)
    requires st.pos <= |src|
    ensures RunTokens(src, st, ts).Failed? ==> ErrorAt(src, RunTokens(src, st, ts).error, st.lineNo)
    ensures RunTokens(src, st, ts).Failed? ==> RunTokens(src, st, ts).error.lineNo <= st.lineNo + NewlineCount(ts)
  {
    if |ts| > 0 {
      var front := ts[..|ts| - 1];
      RunErrorAt(src, st, front);
      RunCounts(src, st, front);
      if RunTokens(src, st, front).Running? && Step(src, RunTokens(src, st, front).st, ts[|ts| - 1]).Failed? {
        StepErrorAt(src, RunTokens(src, st, front).st, ts[|ts| - 1]);
      }
    }
  }

  /** Bytes after the ones a step reads do not change it, unless it ran past the end. */
  lemma StepExtends(src: seq<Byte>, rest: seq<Byte>, st: ParserState, t: Token)
    requires Step(src, st, t) != PastEnd
    ensures Step(src + rest, st, t) == Step(src, st, t)
  {
  }

  /** A run that did not run past the end reads the same on any longer input. */
  lemma {:induction false} RunExtends(src: seq<Byte>, rest: seq<Byte>, st: ParserState, ts: seq<Token>)
    requires RunTokens(src, st, ts) != PastEnd
    ensures RunTokens(src + rest, st, ts) == RunTokens(src, st, ts)
  {
    if |ts| > 0 {
      var front := ts[..|ts| - 1];
      if RunTokens(src, st, front) != PastEnd {
        RunExtends(src, rest, st, front);
        if RunTokens(src, st, front).Running? {
          StepExtends(src, rest, RunTokens(src, st, front).st, ts[|ts| - 1]);
        }
      }
    }
  }

  // ---- the layout's counts ----

  lemma {:induction false} CountsAppend(a: seq<Token>, b: seq<Token>)
    ensures CellCount(a + b) == CellCount(a) + CellCount(b)
    ensures NewlineCount(a + b) == NewlineCount(a) + NewlineCount(b)
    decreases |b|
  {
    if |b| == 0 {
      assert a + b == a;
    } else {
      var b' := b[..|b| - 1];
      assert (a + b)[..|a + b| - 1] == a + b';
      CountsAppend(a, b');
    }
  }

  lemma CountsStep(ts: seq<Token>, k: nat)
    requires k < |ts|
    ensures CellCount(ts[..k + 1]) == CellCount(ts[..k]) + (if ts[k] == Cell then 1 else 0)
    ensures NewlineCount(ts[..k + 1]) == NewlineCount(ts[..k]) + (if ts[k] == Newline then 1 else 0)
  {
    assert ts[..k + 1][..k] == ts[..k];
  }

  /** A border holds no cell and no line break. */
  lemma {:induction false} BorderCounts(k: nat)
    requires k <= 13
    ensures CellCount(BorderTokens()[..k]) == 0 && NewlineCount(BorderTokens()[..k]) == 0
  {
    if k > 0 {
      BorderCounts(k - 1);
      CountsStep(BorderTokens(), k - 1);
    }
  }

  /** The first `k` tokens of a row hold `k - (k + 3) / 4` cells and no line break. */
  lemma {:induction false} RowCounts(k: nat)
    requires k <= 13
    ensures CellCount(RowTokens()[..k]) == k - (k + 3) / 4 && NewlineCount(RowTokens()[..k]) == 0
  {
    if k > 0 {
      RowCounts(k - 1);
      CountsStep(RowTokens(), k - 1);
    }
  }

  /** The rows above line `l`. */
  function RowsBefore(l: nat): nat
  {
    l - (l + 3) / 4
  }

  lemma LayoutLinesStep(n: nat)
    ensures LayoutLines(n + 1) == LayoutLines(n) + LineTokens(n)
  {
    var ls := seq(n + 1, l requires 0 <= l < n + 1 => LineTokens(l));
    assert ls[..n] == seq(n, l requires 0 <= l < n => LineTokens(l));
    FlattenStep(ls, n);
    assert ls[..n + 1] == ls;
  }

  /** Reading the first `n` lines, one line after the other. */
  function RunLines(src: seq<Byte>, st: ParserState, n: nat): Run
  {
    if n == 0 then Running(st) else Resume(src, RunLines(src, st, n - 1), LineTokens(n - 1))
  }

  /** Reading the lines one after the other is reading their tokens in one run. */
  lemma {:induction false} RunLinesLayout(src: seq<Byte>, st: ParserState, n: nat)
    ensures RunLines(src, st, n) == RunTokens(src, st, LayoutLines(n))
  {
    if n > 0 {
      RunLinesLayout(src, st, n - 1);
      LayoutLinesStep(n - 1);
      RunAppend(src, st, LayoutLines(n - 1), LineTokens(n - 1));
    }
  }

  /** Once the first `m` lines have stopped the run, more lines stop it the same way. */
  lemma {:induction false} RunLinesStopped(src: seq<Byte>, st: ParserState, m: nat, n: nat)
    requires m <= n && !RunLines(src, st, m).Running?
    ensures RunLines(src, st, n) == RunLines(src, st, m)
  {
    if m < n {
      RunLinesStopped(src, st, m, n - 1);
    }
  }

  /** Box `b` starts with a border line and a line break, then three row lines. */
  lemma BoxLines(b: nat, r: nat)
    requires b < 3 && r < 3
    ensures LineTokens(4 * b) == BorderLine(true)
    ensures LineTokens(4 * b + 1 + r) == RowTokens() + [Newline]
  {
  }

  /** `expect_line(true)` at the top of box `b`. */
  lemma BoxBorderStep(src: seq<Byte>, st: ParserState, b: nat, mid: ParserState, r: Run)
    requires b < 3 && RunLines(src, st, 4 * b) == Running(mid) && r == RunTokens(src, mid, BorderLine(true))
    ensures RunLines(src, st, 4 * b + 1) == r
    ensures !r.Running? ==> RunLines(src, st, 4 * b + 4) == r
  {
    BoxLines(b, 0);
    if !r.Running? {
      RunLinesStopped(src, st, 4 * b + 1, 4 * b + 4);
    }
  }

  /** `expect_row` on row `row` of box `b`. */
  lemma BoxRowStep(src: seq<Byte>, st: ParserState, b: nat, row: nat, mid: ParserState, r: Run)
    requires b < 3 && row < 3 && RunLines(src, st, 4 * b + 1 + row) == Running(mid)
    requires r == RunTokens(src, mid, RowTokens() + [Newline])
    ensures RunLines(src, st, 4 * b + 1 + (row + 1)) == r
    ensures !r.Running? ==> RunLines(src, st, 4 * b + 4) == r
  {
    BoxLines(b, row);
    if !r.Running? {
      RunLinesStopped(src, st, 4 * b + 2 + row, 4 * b + 4);
    }
  }

  /** `expect_line(false)` after the three boxes. */
  lemma LastBorderStep(src: seq<Byte>, st: ParserState, mid: ParserState, r: Run)
    requires RunLines(src, st, 12) == Running(mid) && r == RunTokens(src, mid, BorderLine(false))
    ensures RunLines(src, st, 13) == r
  {
  }

  lemma RowsBeforeStep(l: nat)
    ensures RowsBefore(l + 1) == RowsBefore(l) + (if l % 4 != 0 then 1 else 0)
  {
  }

  /** A row line holds nine cells, and every line but the last ends in a line break. */
  lemma LineCounts(l: nat)
    requires l < 13
    ensures CellCount(LineTokens(l)) == (if l % 4 != 0 then 9 else 0)
    ensures NewlineCount(LineTokens(l)) == (if l == 12 then 0 else 1)
  {
    BorderCounts(13);
    RowCounts(13);
    assert BorderTokens()[..13] == BorderTokens() && RowTokens()[..13] == RowTokens();
    if l % 4 != 0 {
      CountsAppend(RowTokens(), [Newline]);
    } else if l < 12 {
      CountsAppend(BorderTokens(), [Newline]);
    }
  }

  /** The first `n` lines hold nine cells per row and one line break per line but the last. */
  lemma {:induction false} LayoutCounts(n: nat)
    requires n <= 13
    ensures CellCount(LayoutLines(n)) == 9 * RowsBefore(n)
    ensures NewlineCount(LayoutLines(n)) == if n == 13 then 12 else n
  {
    if n > 0 {
      var l := n - 1;
      LayoutCounts(l);
      LayoutLinesStep(l);
      CountsAppend(LayoutLines(l), LineTokens(l));
      LineCounts(l);
      RowsBeforeStep(l);
    }
  }

  // ---- reading the printed form back ----

  /** `g` on the cells below `n`, empty from `n` on. */
  function Partial(g: Grid, n: nat): Grid
  {
    seq(81, k requires 0 <= k < 81 => if k < n then g[k] else Empty)
  }

  /** No cell below `n` is empty. */
  predicate CompleteBelow(g: Grid, n: nat)
  {
    forall k | 0 <= k < n && k < 81 :: g[k] != Empty
  }

  /** The state in which `parse` starts line `l` of the printed form of `g`. */
  function Mid(g: Grid, l: nat): ParserState
  {
    var n := 9 * RowsBefore(l);
    ParserState(1 + l, 14 * l, n, Partial(g, n), CompleteBelow(g, n))
  }

  /** Literal bytes at the read position are read past. */
  lemma {:induction false} LitsRun(src: seq<Byte>, st: ParserState, cs: seq<Byte>)
    requires st.pos + |cs| <= |src| && src[st.pos .. st.pos + |cs|] == cs
    ensures RunTokens(src, st, Lits(cs)) == Running(st.(pos := st.pos + |cs|))
  {
    if |cs| > 0 {
      var n := |cs| - 1;
      assert src[st.pos .. st.pos + n] == cs[..n];
      LitsRun(src, st, cs[..n]);
      assert Lits(cs)[..n] == Lits(cs[..n]);
      RunPrefixStep(src, st, Lits(cs), n);
      assert Lits(cs)[..n + 1] == Lits(cs);
      assert src[st.pos + n] == cs[n];
      LitStep(src, st.(pos := st.pos + n), cs[n]);
    }
  }

  /** A byte equal to the expected one is read past. */
  lemma LitStep(src: seq<Byte>, st: ParserState, c: Byte)
    requires st.pos < |src| && src[st.pos] == c
    ensures Step(src, st, Lit(c)) == Running(st.(pos := st.pos + 1))
  {
  }

  /** The printed form of cell `n` is read back as that cell. */
  lemma CellRun(src: seq<Byte>, g: Grid, st: ParserState, n: nat)
    requires n < 81 && st.pos < |src| && src[st.pos] == CellByte(g[n])
    requires st.idx == n && st.grid == Partial(g, n) && st.solved == CompleteBelow(g, n)
    ensures Step(src, st, Cell) ==
      Running(st.(pos := st.pos + 1, idx := n + 1, grid := Partial(g, n + 1), solved := CompleteBelow(g, n + 1)))
  {
    if g[n] == Empty {
      assert Partial(g, n + 1) == Partial(g, n);
    } else {
      var d := g[n].ToByte();
      assert DigitOf(src[st.pos]) == d;
      ByteRoundTrip(g[n]);
      assert Partial(g, n)[n := g[n]] == Partial(g, n + 1);
    }
  }

  /** The state after the first `k` tokens of row `r`. */
  function InRow(g: Grid, st: ParserState, r: nat, k: nat): ParserState
  {
    var n := 9 * r + k - (k + 3) / 4;
    st.(pos := st.pos + k, idx := n, grid := Partial(g, n), solved := CompleteBelow(g, n))
  }

  lemma RowTokenStep(src: seq<Byte>, g: Grid, st: ParserState, r: nat, k: nat)
    requires r < 9 && k < 13 && st.pos + 13 <= |src| && src[st.pos .. st.pos + 13] == RowLine(g, r)
    ensures Step(src, InRow(g, st, r, k), RowTokens()[k]) == Running(InRow(g, st, r, k + 1))
  {
    assert src[st.pos + k] == RowLine(g, r)[k];
    if k % 4 != 0 {
      var n := 9 * r + k - (k + 3) / 4;
      assert r * 9 + k - k / 4 - 1 == n;
      assert (k + 4) / 4 == (k + 3) / 4;
      CellRun(src, g, InRow(g, st, r, k), n);
    } else {
      assert (k + 4) / 4 == (k + 3) / 4 + 1;
    }
  }

  /** A printed row at the read position is read as that row of cells. */
  lemma {:induction false} RowRun(src: seq<Byte>, g: Grid, st: ParserState, r: nat, k: nat)
    requires r < 9 && k <= 13 && st.pos + 13 <= |src| && src[st.pos .. st.pos + 13] == RowLine(g, r)
    requires st.idx == 9 * r && st.grid == Partial(g, 9 * r) && st.solved == CompleteBelow(g, 9 * r)
    ensures RunTokens(src, st, RowTokens()[..k]) == Running(InRow(g, st, r, k))
  {
    if k == 0 {
      assert InRow(g, st, r, 0) == st;
    } else {
      RowRun(src, g, st, r, k - 1);
      RunPrefixStep(src, st, RowTokens(), k - 1);
      RowTokenStep(src, g, st, r, k - 1);
    }
  }

  /** Row lines are lines 1-3, 5-7 and 9-11, and line `l` shows row `RowsBefore(l)`. */
  lemma RowsBeforeRow(l: nat)
    requires l < 13 && l % 4 != 0
    ensures l < 12 && RowsBefore(l) < 9 && RowsBefore(l) == l - l / 4 - 1
    ensures RowsBefore(l + 1) == RowsBefore(l) + 1
  {
  }

  /** A printed row line and its line break are read from `Mid(g, l)` to `Mid(g, l + 1)`. */
  lemma RowLineRun(src: seq<Byte>, g: Grid, l: nat)
    requires l < 12 && l % 4 != 0 && RowsBefore(l) < 9 && RowsBefore(l + 1) == RowsBefore(l) + 1
    requires 14 * l + 13 < |src| && src[14 * l .. 14 * l + 13] == RowLine(g, RowsBefore(l)) && src[14 * l + 13] == LineFeed
    ensures RunTokens(src, Mid(g, l), LineTokens(l)) == Running(Mid(g, l + 1))
  {
    var mid := InRow(g, Mid(g, l), RowsBefore(l), 13);
    RowRun(src, g, Mid(g, l), RowsBefore(l), 13);
    assert RowTokens()[..13] == RowTokens();
    NewlineRun(src, Mid(g, l), RowTokens(), mid);
    assert mid.(pos := mid.pos + 1, lineNo := mid.lineNo + 1) == Mid(g, l + 1);
  }

  /** A border line and its line break are read from `Mid(g, l)` to `Mid(g, l + 1)`. */
  lemma BorderLineRun(src: seq<Byte>, g: Grid, l: nat)
    requires l < 12 && l % 4 == 0 && 14 * l + 13 < |src| && src[14 * l .. 14 * l + 13] == Border && src[14 * l + 13] == LineFeed
    ensures RunTokens(src, Mid(g, l), LineTokens(l)) == Running(Mid(g, l + 1))
  {
    LitsRun(src, Mid(g, l), Border);
    BorderLits();
    NewlineRun(src, Mid(g, l), BorderTokens(), Mid(g, l).(pos := 14 * l + 13));
    RowsBeforeStep(l);
  }

  /** The last border, at offset 168, is read to its end. */
  lemma LastLineRun(src: seq<Byte>, st: ParserState)
    requires st.pos == 168 && 181 <= |src| && src[168 .. 181] == Border
    ensures RunTokens(src, st, LineTokens(12)) == Running(st.(pos := 181))
  {
    LitsRun(src, st, Border);
    BorderLits();
  }

  /** A line break after the read position is read as one. */
  lemma NewlineRun(src: seq<Byte>, st: ParserState, body: seq<Token>, mid: ParserState)
    requires RunTokens(src, st, body) == Running(mid) && mid.pos < |src| && src[mid.pos] == LineFeed
    ensures RunTokens(src, st, body + [Newline]) == Running(mid.(pos := mid.pos + 1, lineNo := mid.lineNo + 1))
  {
    RunAppend(src, st, body, [Newline]);
    assert [Newline][..0] == [];
  }

  /** Line `l` of the printed form of `g` is read from `Mid(g, l)` to the start of the next line. */
  lemma LineRun(src: seq<Byte>, g: Grid, l: nat)
    requires l < 13 && 14 * l + 13 <= |src|
    requires l % 4 == 0 ==> src[14 * l .. 14 * l + 13] == Border
    requires l % 4 != 0 ==> RowsBefore(l) < 9 && src[14 * l .. 14 * l + 13] == RowLine(g, RowsBefore(l))
    requires l < 12 ==> 14 * l + 13 < |src| && src[14 * l + 13] == LineFeed
    ensures RunTokens(src, Mid(g, l), LineTokens(l)) ==
      Running(if l < 12 then Mid(g, l + 1) else Mid(g, 12).(pos := 181))
  {
    if l == 12 {
      LastLineRun(src, Mid(g, 12));
    } else if l % 4 != 0 {
      RowsBeforeRow(l);
      RowLineRun(src, g, l);
    } else {
      BorderLineRun(src, g, l);
    }
  }

  /** The first `n` lines of the printed form of `g` are read as such. */
  lemma {:induction false} LayoutRun(src: seq<Byte>, g: Grid, n: nat)
    requires n <= 12 && |src| >= 181 && src[..181] == Render(g)[..181]
    ensures RunTokens(src, Start(), LayoutLines(n)) == Running(Mid(g, n))
  {
    if n == 0 {
      assert Mid(g, 0) == Start();
    } else {
      var l := n - 1;
      LayoutRun(src, g, l);
      LayoutLinesStep(l);
      RunAppend(src, Start(), LayoutLines(l), LineTokens(l));
      PrintedLine(src, g, l);
      LineRun(src, g, l);
    }
  }

  /** Where line `l` of the printed form of `g` sits in a text that starts with it. */
  lemma PrintedLine(src: seq<Byte>, g: Grid, l: nat)
    requires l < 13 && |src| >= 181 && src[..181] == Render(g)[..181]
    ensures l % 4 == 0 ==> src[14 * l .. 14 * l + 13] == Border
    ensures l % 4 != 0 ==> RowsBefore(l) < 9 && src[14 * l .. 14 * l + 13] == RowLine(g, RowsBefore(l))
    ensures l < 12 ==> src[14 * l + 13] == LineFeed
  {
    PrintedSlice(src, g, l);
    LineBody(g, l);
  }

  lemma PrintedSlice(src: seq<Byte>, g: Grid, l: nat)
    requires l < 13 && |src| >= 181 && src[..181] == Render(g)[..181]
    ensures src[14 * l .. 14 * l + 13] == Line(g, l)[..13]
    ensures l < 12 ==> src[14 * l + 13] == LineFeed
  {
    RenderLines(g);
    LineWidths(g);
    var line := Render(g)[14 * l .. 14 * l + 14];
    assert line == Line(g, l);
    assert src[14 * l .. 14 * l + 13] == Render(g)[..181][14 * l .. 14 * l + 13] == line[..13];
    if l < 12 {
      assert src[14 * l + 13] == Render(g)[..181][14 * l + 13] == line[13];
    }
  }

  /** Line `l` of the printed form of `g`, without its line break. */
  lemma LineBody(g: Grid, l: nat)
    requires l < 13
    ensures l % 4 == 0 ==> Line(g, l)[..13] == Border
    ensures l % 4 != 0 ==> RowsBefore(l) < 9 && Line(g, l)[..13] == RowLine(g, RowsBefore(l))
  {
    if l % 4 != 0 {
      RowsBeforeRow(l);
      assert Line(g, l) == RowLine(g, RowsBefore(l)) + [LineFeed];
    } else {
      assert Line(g, l) == Border + [LineFeed];
    }
  }

  /**
   * The round trip that the documentation of `pretty_print` promises:
   * reading back the printed form of `g`, whatever follows its last
   * border, gives `g`, flagged solved exactly when no cell is empty.
   */
  lemma ParseRender(g: Grid, src: seq<Byte>)
    requires |src| >= 181 && src[..181] == Render(g)[..181]
    ensures Parse(src) == Finished(Ok(Sudoku(Complete(g), g)))
  {
    LayoutRun(src, g, 12);
    LayoutLinesStep(12);
    RunAppend(src, Start(), LayoutLines(12), LineTokens(12));
    PrintedLine(src, g, 12);
    LineRun(src, g, 12);
    assert Partial(g, 81) == g;
  }

  /** `from_string(&s.pretty_print())` gives back the cells of `s`. */
  lemma PrettyPrintRoundTrip(s: Sudoku)
    ensures Parse(Render(s.grid)) == Finished(Ok(Sudoku(Complete(s.grid), s.grid)))
  {
    RenderLines(s.grid);
    ParseRender(s.grid, Render(s.grid));
  }

  // ---- what every parse promises ----

  /** The layout holds 81 cells and 12 line breaks. */
  lemma LayoutTotals()
    ensures CellCount(Layout()) == 81 && NewlineCount(Layout()) == 12
  {
    LayoutCounts(13);
  }

  /**
   * A successful parse has read all 81 cells, and its puzzle is flagged
   * solved exactly when none of them is empty.
   */
  lemma ParsedSolvedIffComplete(src: seq<Byte>)
    ensures Parse(src).Finished? && Parse(src).result.Ok? ==>
      (Parse(src).result.value.solved <==> Complete(Parse(src).result.value.grid))
  {
    LayoutTotals();
    RunKeepsGridRead(src, Start(), Layout());
    RunCounts(src, Start(), Layout());
  }

  /** `parse` never writes past the 81st cell of its grid. */
  lemma ParseNeverOverflows(src: seq<Byte>)
    ensures Parse(src) != IndexPanic
  {
    LayoutTotals();
    NoOverflow(src, Start(), Layout());
  }

  /** A `ParseError` names a byte of the input, on line 1 or later, that does not fit the layout. */
  lemma ParseErrorAt(src: seq<Byte>)
    ensures Parse(src).Finished? && Parse(src).result.Err? ==> ErrorAt(src, Parse(src).result.error, 1)
    ensures Parse(src).Finished? && Parse(src).result.Err? ==> Parse(src).result.error.lineNo <= 13
  {
    RunErrorAt(src, Start(), Layout());
    LayoutTotals();
  }

  /** Nothing after the final border is read: extra bytes change no outcome but the panic. */
  lemma ParseIgnoresRest(src: seq<Byte>, rest: seq<Byte>)
    requires Parse(src) != PeekPanic
    ensures Parse(src + rest) == Parse(src)
  {
    RunExtends(src, rest, Start(), Layout());
  }

  /**
   * What `expect_digit` makes of the byte at the read position: a blank or
   * `0` leaves the cell empty and clears `solved`, `1` to `9` store that
   * digit, and any other byte is `NotADigit` at that position.
   */
  lemma CellByteCases(src: seq<Byte>, st: ParserState)
    requires st.pos < |src| && st.idx < 81 && st.grid[st.idx] == Empty
    ensures Blank(src[st.pos]) || src[st.pos] == Zero ==>
      Step(src, st, Cell) == Running(st.(solved := false, pos := st.pos + 1, idx := st.idx + 1))
    ensures Zero < src[st.pos] <= Zero + 9 ==>
      Step(src, st, Cell).Running? && Step(src, st, Cell).st.grid[st.idx].ToByte() == src[st.pos] - Zero
    ensures Zero < src[st.pos] <= Zero + 9 ==>
      Step(src, st, Cell) == Running(st.(grid := st.grid[st.idx := Step(src, st, Cell).st.grid[st.idx]],
                                         pos := st.pos + 1, idx := st.idx + 1))
    ensures !Blank(src[st.pos]) && !(Zero <= src[st.pos] <= Zero + 9) ==>
      Step(src, st, Cell) == Failed(ParseError(st.lineNo, st.pos, NotADigit))
  {
    var b := src[st.pos];
    if b == Zero {
      assert st.grid[st.idx := Empty] == st.grid;
    }
  }

  /**
   * What `expect_newline` makes of the bytes at the read position: `\n`,
   * `\r\n` and a lone `\r` each count one line, anything else is
   * `MissingNewline` there; a `\r` as the last byte runs `peek` past the end.
   */
  lemma NewlineCases(src: seq<Byte>, st: ParserState)
    requires st.pos < |src|
    ensures src[st.pos] == LineFeed ==> Step(src, st, Newline) == Running(st.(pos := st.pos + 1, lineNo := st.lineNo + 1))
    ensures src[st.pos] == CarriageReturn && st.pos + 1 < |src| ==>
      Step(src, st, Newline) ==
      Running(st.(pos := st.pos + (if src[st.pos + 1] == LineFeed then 2 else 1), lineNo := st.lineNo + 1))
    ensures src[st.pos] == CarriageReturn && st.pos + 1 == |src| ==> Step(src, st, Newline) == PastEnd
    ensures src[st.pos] != LineFeed && src[st.pos] != CarriageReturn ==>
      Step(src, st, Newline) == Failed(ParseError(st.lineNo, st.pos, MissingNewline))
  {
  }
}
