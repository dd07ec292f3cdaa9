/**
 * The conflict table (src/adj_mat.rs): for every ordered pair of the 81
 * cells, whether the two are distinct and share a row, a column or a 3x3 box.
 * Cells are numbered row by row, cell `c` lying in row `c / 9` and column `c % 9`.
 */
module AdjMat {

  /** The row of cell `c`. */
  function Row(c: int): int { c / 9 }

  /** The column of cell `c`. */
  function Col(c: int): int { c % 9 }

  /** Whether two cells lie in the same 3x3 box. */
  predicate SameBox(a: int, b: int)
  {
    Row(a) / 3 == Row(b) / 3 && Col(a) / 3 == Col(b) / 3
  }

  /** Whether two distinct cells share a row or a column. */
  predicate LineConflict(a: int, b: int)
  {
    a != b && (Row(a) == Row(b) || Col(a) == Col(b))
  }

  /** The relation the table is meant to hold: distinct cells that share a row, a column or a box. */
  predicate Conflicts(a: int, b: int)
  {
    a != b && (Row(a) == Row(b) || Col(a) == Col(b) || SameBox(a, b))
  }

  /** Flat position of entry `(x, y)` in the 6561-entry array (`x * 81 + y`). */
  function Slot(x: nat, y: nat): (r: nat)
    requires x < 81 && y < 81
    ensures r < 6561
    ensures r / 81 == x && r % 81 == y
  {
    x * 81 + y
  }

  /** Conflicts is irreflexive: no cell conflicts with itself. */
  lemma ConflictsIrreflexive(a: int)
    ensures !Conflicts(a, a)
  {
  }

  /** Conflicts is symmetric. */
  lemma ConflictsSymmetric(a: int, b: int)
    ensures Conflicts(a, b) <==> Conflicts(b, a)
  {
  }

  /** Distinct entries have distinct flat positions. */
  lemma SlotInjective(x: nat, y: nat, u: nat, v: nat)
    requires x < 81 && y < 81 && u < 81 && v < 81
    ensures Slot(x, y) == Slot(u, v) ==> x == u && y == v
  {
  }

  // ---- bookkeeping for the construction loops ----

  /** After the row/column pass has handled cells `0 .. n-1`. */
  ghost predicate LinesMarked(n: int, a: int, b: int)
  {
    LineConflict(a, b) && (a < n || b < n)
  }

  /** Pairs `(curr, i*9+k')`, `k' < k`, written by the row loop for `curr`. */
  ghost predicate RowPairs(curr: int, k: int, a: int, b: int)
  {
    a == curr && b != curr && Row(b) == Row(curr) && Col(b) < k
  }

  /** Pairs `(curr, k'*9+j)`, `k' < k`, written by the column loop for `curr`. */
  ghost predicate ColPairs(curr: int, k: int, a: int, b: int)
  {
    a == curr && b != curr && Col(b) == Col(curr) && Row(b) < k
  }

  /**
   * The position of cell `c` in the order in which the box pass visits the
   * cells: box by box (box rows, then box columns), row-major inside a box.
   */
  function BoxKey(c: int): int
  {
    Row(c) / 3 * 27 + Col(c) / 3 * 9 + Row(c) % 3 * 3 + Col(c) % 3
  }

  /** The box pairs written once the box pass has handled the first `t` cells of its order. */
  ghost predicate BoxesMarked(t: int, a: int, b: int)
  {
    a != b && SameBox(a, b) && (BoxKey(a) < t || BoxKey(b) < t)
  }

  /** Pairs `(curr, k'*9+l')` with `(k', l')` before `(k, l)` in the box of `curr`. */
  ghost predicate BoxPairs(curr: int, k: int, l: int, a: int, b: int)
  {
    a == curr && b != curr && SameBox(curr, b) && (Row(b) < k || (Row(b) == k && Col(b) < l))
  }

  /** Handling cell `curr` in the row/column pass adds exactly its row and column pairs. */
  lemma LinesStep(curr: nat, next: nat)
    requires curr < 81 && next == curr + 1
    ensures forall a, b | 0 <= a < 81 && 0 <= b < 81 ::
      LinesMarked(next, a, b) <==>
        (LinesMarked(curr, a, b) || RowPairs(curr, 9, a, b) || RowPairs(curr, 9, b, a)
         || ColPairs(curr, 9, a, b) || ColPairs(curr, 9, b, a))
  {
  }

  /** Four base-3 digits determine the number they spell. */
  lemma Base3Digits(p: int, q: int, r: int, s: int, p': int, q': int, r': int, s': int)
    requires 0 <= p < 3 && 0 <= q < 3 && 0 <= r < 3 && 0 <= s < 3
    requires 0 <= p' < 3 && 0 <= q' < 3 && 0 <= r' < 3 && 0 <= s' < 3
    requires p * 27 + q * 9 + r * 3 + s == p' * 27 + q' * 9 + r' * 3 + s'
    ensures p == p' && q == q' && r == r' && s == s'
  {
  }

  /** A number below 9 split into its base-3 digits. */
  lemma Split3(x: int)
    requires 0 <= x < 9
    ensures 0 <= x / 3 < 3 && 0 <= x % 3 < 3 && x == x / 3 * 3 + x % 3
  {
  }

  /** A cell split into its row and column. */
  lemma Split9(c: int)
    requires 0 <= c < 81
    ensures 0 <= Row(c) < 9 && 0 <= Col(c) < 9 && c == Row(c) * 9 + Col(c)
  {
  }

  /** The cell in row `r` and column `c` is `r * 9 + c`. */
  lemma CellCoords(r: int, c: int)
    requires 0 <= r < 9 && 0 <= c < 9
    ensures Row(r * 9 + c) == r && Col(r * 9 + c) == c
  {
  }

  /** The base-3 digits of BoxKey(a), and `a` rebuilt from them. */
  lemma BoxKeyDigits(a: int) returns (p: int, q: int, r: int, s: int)
    requires 0 <= a < 81
    ensures 0 <= p < 3 && 0 <= q < 3 && 0 <= r < 3 && 0 <= s < 3
    ensures BoxKey(a) == p * 27 + q * 9 + r * 3 + s
    ensures a == (p * 3 + r) * 9 + q * 3 + s
  {
    Split9(a);
    Split3(Row(a));
    Split3(Col(a));
    p, q, r, s := Row(a) / 3, Col(a) / 3, Row(a) % 3, Col(a) % 3;
  }

  /** BoxKey numbers the 81 cells without repetition. */
  lemma BoxKeyInjective(a: int, b: int)
    requires 0 <= a < 81 && 0 <= b < 81
    ensures 0 <= BoxKey(a) < 81
    ensures BoxKey(a) == BoxKey(b) ==> a == b
  {
    var p, q, r, s := BoxKeyDigits(a);
    var p', q', r', s' := BoxKeyDigits(b);
    if BoxKey(a) == BoxKey(b) {
      Base3Digits(p, q, r, s, p', q', r', s');
    }
  }

  /** The position in the box order of cell `(ii, jj)` of the box whose top-left cell is `(i, j)`. */
  lemma BoxKeyOf(ii: int, jj: int, i: int, j: int)
    requires i % 3 == 0 && j % 3 == 0 && 0 <= i <= ii < i + 3 <= 9 && 0 <= j <= jj < j + 3 <= 9
    ensures BoxKey(ii * 9 + jj) == i / 3 * 27 + j / 3 * 9 + (ii - i) * 3 + (jj - j)
  {
    CellCoords(ii, jj);
    assert ii / 3 == i / 3 && ii % 3 == ii - i;
    assert jj / 3 == j / 3 && jj % 3 == jj - j;
  }

  /** Handling the cell `curr` at position `t` of the box order adds exactly its box pairs. */
  lemma BoxStep(curr: nat, t: nat, next: nat)
    requires curr < 81 && BoxKey(curr) == t && next == t + 1
    ensures forall a, b | 0 <= a < 81 && 0 <= b < 81 ::
      BoxesMarked(next, a, b) <==> (BoxesMarked(t, a, b) || BoxPairs(curr, 9, 0, a, b) || BoxPairs(curr, 9, 0, b, a))
  {
    forall a | 0 <= a < 81
      ensures BoxKey(a) == t <==> a == curr
    {
      BoxKeyInjective(a, curr);
    }
  }

  /** One step of the row loop for `curr` adds the pair with cell `(Row(curr), k)`. */
  lemma RowPairsStep(curr: nat, k: nat, next: nat)
    requires curr < 81 && k < 9 && next == k + 1
    ensures forall a, b | 0 <= a < 81 && 0 <= b < 81 ::
      RowPairs(curr, next, a, b) <==> (RowPairs(curr, k, a, b) || (a == curr && b == Row(curr) * 9 + k && b != curr))
  {
  }

  /** One step of the column loop for `curr` adds the pair with cell `(k, Col(curr))`. */
  lemma ColPairsStep(curr: nat, k: nat, next: nat)
    requires curr < 81 && k < 9 && next == k + 1
    ensures forall a, b | 0 <= a < 81 && 0 <= b < 81 ::
      ColPairs(curr, next, a, b) <==> (ColPairs(curr, k, a, b) || (a == curr && b == k * 9 + Col(curr) && b != curr))
  {
  }

  /** Before the inner box loops run, no pair of `curr` is marked. */
  lemma BoxPairsStart(curr: nat, i: nat, j: nat)
    requires curr < 81 && i == Row(curr) / 3 * 3 && j == Col(curr) / 3 * 3
    ensures forall a, b | 0 <= a < 81 && 0 <= b < 81 :: !BoxPairs(curr, i, j, a, b)
  {
  }

  /** One step of the innermost box loop adds the pair with cell `(k, l)`. */
  lemma BoxPairsStep(curr: nat, k: nat, l: nat, next: nat)
    requires curr < 81 && k < 9 && l < 9 && next == l + 1
    requires SameBox(curr, k * 9 + l)
    ensures forall a, b | 0 <= a < 81 && 0 <= b < 81 ::
      BoxPairs(curr, k, next, a, b) <==> (BoxPairs(curr, k, l, a, b) || (a == curr && b == k * 9 + l && b != curr))
  {
  }

  /** The end of one row of the box is the start of the next. */
  lemma BoxPairsRowEnd(curr: nat, k: nat, j: nat, nextRow: nat, endCol: nat)
    requires curr < 81 && j == Col(curr) / 3 * 3 && nextRow == k + 1 && endCol == j + 3
    ensures forall a, b | 0 <= a < 81 && 0 <= b < 81 ::
      BoxPairs(curr, k, endCol, a, b) <==> BoxPairs(curr, nextRow, j, a, b)
  {
  }

  /** After the last row of the box, every box pair of `curr` is marked. */
  lemma BoxPairsEnd(curr: nat, i: nat, j: nat, endRow: nat)
    requires curr < 81 && i == Row(curr) / 3 * 3 && endRow == i + 3
    ensures forall a, b | 0 <= a < 81 && 0 <= b < 81 ::
      BoxPairs(curr, endRow, j, a, b) <==> BoxPairs(curr, 9, 0, a, b)
  {
  }

  /** The table as a flat sequence: it depends on nothing but the grid geometry. */
  ghost function ConflictTable(): (t: seq<bool>)
    ensures |t| == 6561
  {
    seq(6561, p => Conflicts(p / 81, p % 81))
  }

  /** The 81x81 table, stored flat as `[bool; 81 * 81]`. */
  class AdjacencyMatrix {
    const matrix: array<bool>

    ghost predicate Valid()
      reads this
    {
      matrix.Length == 6561
    }

    /** Every entry agrees with Conflicts. */
    ghost predicate IsConflictTable()
      reads this, matrix
    {
      Valid() && forall a, b | 0 <= a < 81 && 0 <= b < 81 :: matrix[Slot(a, b)] == Conflicts(a, b)
    }

    /** `AdjacencyMatrix::new`: all entries false, then the two marking passes. */
    constructor ()
      ensures IsConflictTable() && fresh(matrix)
      ensures matrix[..] == ConflictTable()
    {
      matrix := new bool[6561](_ => false);
      new;
      MarkLines();
      MarkBoxes();
      TableIsCanonical(this);
    }

    /** `Index` at `(x, y)`: flat position `x * 81 + y`, which must lie inside the array. */
    function Get(x: nat, y: nat): (r: bool)
      reads this, matrix
      requires Valid() && x * 81 + y < 6561
      ensures IsConflictTable() && y < 81 ==> (r <==> Conflicts(x, y))
    {
      assert y < 81 ==> x * 81 + y == Slot(x, y);
      matrix[x * 81 + y]
    }

    /** A write through `IndexMut` at `(x, y)`: only flat position `x * 81 + y` changes. */
    method Set(x: nat, y: nat, v: bool)
      requires Valid() && x * 81 + y < 6561
      modifies matrix
      ensures matrix[x * 81 + y] == v
      ensures forall p | 0 <= p < 6561 && p != x * 81 + y :: matrix[p] == old(matrix[p])
    {
      matrix[x * 81 + y] := v;
    }

    /** Both writes of one step: `(a, b)` and `(b, a)` become true. */
    method MarkPair(a: nat, b: nat)
      requires Valid() && a < 81 && b < 81
      modifies matrix
      ensures forall x, y | 0 <= x < 81 && 0 <= y < 81 ::
        matrix[Slot(x, y)] == (old(matrix[Slot(x, y)]) || (x == a && y == b) || (x == b && y == a))
    {
      Set(a, b, true);
      Set(b, a, true);
      forall x, y | 0 <= x < 81 && 0 <= y < 81
        ensures matrix[Slot(x, y)] == (old(matrix[Slot(x, y)]) || (x == a && y == b) || (x == b && y == a))
      {
        SlotInjective(x, y, a, b);
        SlotInjective(x, y, b, a);
      }
    }

    /** The row loop for cell `(i, j)` (src/adj_mat.rs:17-26). */
    method MarkRowOf(i: nat, j: nat)
      requires Valid() && i < 9 && j < 9
      modifies matrix
      ensures forall a, b | 0 <= a < 81 && 0 <= b < 81 ::
        matrix[Slot(a, b)] == (old(matrix[Slot(a, b)]) || RowPairs(i * 9 + j, 9, a, b) || RowPairs(i * 9 + j, 9, b, a))
    {
      var curr := i * 9 + j;
      for k := 0 to 9
        invariant forall a, b | 0 <= a < 81 && 0 <= b < 81 ::
          matrix[Slot(a, b)] == (old(matrix[Slot(a, b)]) || RowPairs(curr, k, a, b) || RowPairs(curr, k, b, a))
      {
        var sq2 := i * 9 + k;
        CellCoords(i, k);
        CellCoords(i, j);
        RowPairsStep(curr, k, k + 1);
        if curr == sq2 {
          continue;
        }
        MarkPair(curr, sq2);
      }
    }

    /** The column loop for cell `(i, j)` (src/adj_mat.rs:28-37). */
    method MarkColumnOf(i: nat, j: nat)
      requires Valid() && i < 9 && j < 9
      modifies matrix
      ensures forall a, b | 0 <= a < 81 && 0 <= b < 81 ::
        matrix[Slot(a, b)] == (old(matrix[Slot(a, b)]) || ColPairs(i * 9 + j, 9, a, b) || ColPairs(i * 9 + j, 9, b, a))
    {
      var curr := i * 9 + j;
      for k := 0 to 9
        invariant forall a, b | 0 <= a < 81 && 0 <= b < 81 ::
          matrix[Slot(a, b)] == (old(matrix[Slot(a, b)]) || ColPairs(curr, k, a, b) || ColPairs(curr, k, b, a))
      {
        var sq2 := k * 9 + j;
        CellCoords(k, j);
        CellCoords(i, j);
        ColPairsStep(curr, k, k + 1);
        if curr == sq2 {
          continue;
        }
        MarkPair(curr, sq2);
      }
    }

    /** The first loop nest (src/adj_mat.rs:13-39): every cell against its row and its column. */
    method MarkLines()
      requires Valid()
      requires forall a, b | 0 <= a < 81 && 0 <= b < 81 :: !matrix[Slot(a, b)]
      modifies matrix
      ensures forall a, b | 0 <= a < 81 && 0 <= b < 81 :: matrix[Slot(a, b)] == LineConflict(a, b)
    {
      for i := 0 to 9
        invariant forall a, b | 0 <= a < 81 && 0 <= b < 81 :: matrix[Slot(a, b)] == LinesMarked(i * 9, a, b)
      {
        for j := 0 to 9
          invariant forall a, b | 0 <= a < 81 && 0 <= b < 81 :: matrix[Slot(a, b)] == LinesMarked(i * 9 + j, a, b)
        {
          MarkRowOf(i, j);
          MarkColumnOf(i, j);
          LinesStep(i * 9 + j, i * 9 + j + 1);
        }
      }
    }

    /** The two inner loops of the box pass for cell `(ii, jj)` of the box at `(i, j)` (src/adj_mat.rs:45-57). */
    method MarkBoxOf(ii: nat, jj: nat, i: nat, j: nat)
      requires Valid() && i % 3 == 0 && j % 3 == 0 && i <= ii < i + 3 <= 9 && j <= jj < j + 3 <= 9
      modifies matrix
      ensures forall a, b | 0 <= a < 81 && 0 <= b < 81 ::
        matrix[Slot(a, b)] == (old(matrix[Slot(a, b)]) || BoxPairs(ii * 9 + jj, 9, 0, a, b) || BoxPairs(ii * 9 + jj, 9, 0, b, a))
    {
      var curr := ii * 9 + jj;
      BoxPairsStart(curr, i, j);
      for k := i to i + 3
        invariant forall a, b | 0 <= a < 81 && 0 <= b < 81 ::
          matrix[Slot(a, b)] == (old(matrix[Slot(a, b)]) || BoxPairs(curr, k, j, a, b) || BoxPairs(curr, k, j, b, a))
      {
        for l := j to j + 3
          invariant forall a, b | 0 <= a < 81 && 0 <= b < 81 ::
            matrix[Slot(a, b)] == (old(matrix[Slot(a, b)]) || BoxPairs(curr, k, l, a, b) || BoxPairs(curr, k, l, b, a))
        {
          var sq2 := k * 9 + l;
          CellCoords(k, l);
          CellCoords(ii, jj);
          BoxPairsStep(curr, k, l, l + 1);
          if sq2 == curr {
            continue;
          }
          MarkPair(curr, sq2);
        }
        BoxPairsRowEnd(curr, k, j, k + 1, j + 3);
      }
      BoxPairsEnd(curr, i, j, i + 3);
    }

    /** The cells of the box whose top-left cell is `(i, j)` (src/adj_mat.rs:43-60). */
    method MarkBox(i: nat, j: nat, ghost t: nat)
      requires Valid() && i % 3 == 0 && j % 3 == 0 && i < 9 && j < 9 && t == i / 3 * 27 + j / 3 * 9
      requires forall a, b | 0 <= a < 81 && 0 <= b < 81 :: matrix[Slot(a, b)] == (LineConflict(a, b) || BoxesMarked(t, a, b))
      modifies matrix
      ensures forall a, b | 0 <= a < 81 && 0 <= b < 81 :: matrix[Slot(a, b)] == (LineConflict(a, b) || BoxesMarked(t + 9, a, b))
    {
      ghost var u := t;
      for ii := i to i + 3
        invariant u == t + (ii - i) * 3
        invariant forall a, b | 0 <= a < 81 && 0 <= b < 81 :: matrix[Slot(a, b)] == (LineConflict(a, b) || BoxesMarked(u, a, b))
      {
        for jj := j to j + 3
          invariant u == t + (ii - i) * 3 + (jj - j)
          invariant forall a, b | 0 <= a < 81 && 0 <= b < 81 :: matrix[Slot(a, b)] == (LineConflict(a, b) || BoxesMarked(u, a, b))
        {
          MarkBoxOf(ii, jj, i, j);
          BoxKeyOf(ii, jj, i, j);
          BoxStep(ii * 9 + jj, u, u + 1);
          u := u + 1;
        }
      }
    }

    /** The second loop nest (src/adj_mat.rs:41-62): every cell against its box. */
    method MarkBoxes()
      requires Valid()
      requires forall a, b | 0 <= a < 81 && 0 <= b < 81 :: matrix[Slot(a, b)] == LineConflict(a, b)
      modifies matrix
      ensures IsConflictTable()
    {
      ghost var t := 0;
      for bi := 0 to 3
        invariant t == bi * 27
        invariant forall a, b | 0 <= a < 81 && 0 <= b < 81 :: matrix[Slot(a, b)] == (LineConflict(a, b) || BoxesMarked(t, a, b))
      {
        var i := [0, 3, 6][bi];
        for bj := 0 to 3
          invariant t == bi * 27 + bj * 9
          invariant forall a, b | 0 <= a < 81 && 0 <= b < 81 :: matrix[Slot(a, b)] == (LineConflict(a, b) || BoxesMarked(t, a, b))
        {
          var j := [0, 3, 6][bj];
          MarkBox(i, j, t);
          t := t + 9;
        }
      }
      forall a, b | 0 <= a < 81 && 0 <= b < 81
        ensures matrix[Slot(a, b)] == Conflicts(a, b)
      {
        BoxKeyInjective(a, b);
        BoxKeyInjective(b, a);
      }
    }
  }

  /** A conflict table holds exactly ConflictTable(), whatever puzzle it is later used with. */
  lemma TableIsCanonical(m: AdjacencyMatrix)
    requires m.IsConflictTable()
    ensures m.matrix[..] == ConflictTable()
  {
    forall p | 0 <= p < 6561
      ensures m.matrix[p] == ConflictTable()[p]
    {
      assert p == Slot(p / 81, p % 81);
    }
  }
}
