/** The rules of tic-tac-toe and the minimax player of `tictactoe.py`.

    A board is a 3x3 grid of cells; `b[i][j]` is row `i`, column `j`, and an
    action is the coordinate pair `(i, j)`.  Boards are values here, so the
    deep copy that `result` makes before writing is implicit and the argument
    board is never changed. */
module TicTacToe {
  import opened Outcomes

  datatype Cell = X | O | Empty

  predicate IsGrid(b: seq<seq<Cell>>) {
    |b| == 3 && forall i :: 0 <= i < |b| ==> |b[i]| == 3
  }

  type Board = b: seq<seq<Cell>> | IsGrid(b)
    witness [[Empty, Empty, Empty], [Empty, Empty, Empty], [Empty, Empty, Empty]]

  /** A coordinate pair `(row, column)`. */
  type Pos = (int, int)

  predicate InBounds(p: Pos) {
    0 <= p.0 < 3 && 0 <= p.1 < 3
  }

  function At(b: Board, p: Pos): Cell
    requires InBounds(p)
  {
    b[p.0][p.1]
  }

  /** The order in which `player` and `actions` visit the cells. */
  const Cells: seq<Pos> := [(0, 0), (1, 0), (2, 0), (0, 1), (1, 1), (2, 1), (0, 2), (1, 2), (2, 2)]

  /** The place of an in-bounds position in `Cells`. */
  function Index(p: Pos): int {
    p.0 + 3 * p.1
  }

  lemma CellsLayout()
    ensures |Cells| == 9
    ensures forall m :: 0 <= m < 9 ==> InBounds(Cells[m]) && Index(Cells[m]) == m
    ensures forall p :: InBounds(p) ==> 0 <= Index(p) < 9 && Cells[Index(p)] == p
  {
  }

  // ---------------------------------------------------------------------
  // initial_state and player

  /** The empty board X starts from. */
  function InitialState(): (b: Board)
    ensures forall p :: InBounds(p) ==> At(b, p) == Empty
    ensures ToMove(b) == X
  {
    var b := [[Empty, Empty, Empty], [Empty, Empty, Empty], [Empty, Empty, Empty]];
    ZeroCount(b, X, 9);
    ZeroCount(b, O, 9);
    b
  }

  /** How many of the first `k` cells of `Cells` hold `c`. */
  function CountTo(b: Board, c: Cell, k: nat): nat
    requires k <= |Cells|
  {
    if k == 0 then 0
    else CountTo(b, c, k - 1) + (if At(b, Cells[k - 1]) == c then 1 else 0)
  }

  /** How many cells of the board hold `c`. */
  function CountOf(b: Board, c: Cell): nat {
    CountTo(b, c, |Cells|)
  }

  function EmptyCount(b: Board): nat {
    CountOf(b, Empty)
  }

  /** Whose turn it is: X unless X has already placed more marks than O. */
  function ToMove(b: Board): Cell {
    if CountOf(b, X) <= CountOf(b, O) then X else O
  }

  lemma {:induction false} ZeroCount(b: Board, c: Cell, k: nat)
    requires k <= |Cells|
    requires forall p :: InBounds(p) ==> At(b, p) != c
    ensures CountTo(b, c, k) == 0
  {
    if k > 0 {
      ZeroCount(b, c, k - 1);
    }
  }

  /** `player`: counts the marks of each side over the nine cells. */
  method Player(b: Board) returns (p: Cell)
    ensures p == X <==> CountOf(b, X) <= CountOf(b, O)
    ensures p == O <==> CountOf(b, X) > CountOf(b, O)
    ensures p == ToMove(b)
  {
    CellsLayout();
    var countX, countO := 0, 0;
    for k := 0 to |Cells|
      invariant countX == CountTo(b, X, k)
      invariant countO == CountTo(b, O, k)
    {
      var (i, j) := Cells[k];
      if b[i][j] == X {
        countX := countX + 1;
      } else if b[i][j] == O {
        countO := countO + 1;
      }
    }
    if countX <= countO {
      p := X;
    } else {
      p := O;
    }
  }

  // ---------------------------------------------------------------------
  // winner, terminal and utility

  /** The eight lines of three cells. */
  datatype Line = Row(i: int) | Column(j: int) | Diagonal | AntiDiagonal

  /** Every cell of line `l` holds `c`. */
  predicate Filled(b: Board, l: Line, c: Cell) {
    match l
    case Row(i) => 0 <= i < 3 && b[i][0] == c && b[i][1] == c && b[i][2] == c
    case Column(j) => 0 <= j < 3 && b[0][j] == c && b[1][j] == c && b[2][j] == c
    case Diagonal => b[0][0] == c && b[1][1] == c && b[2][2] == c
    case AntiDiagonal => b[0][2] == c && b[1][1] == c && b[2][0] == c
  }

  /** No line consists of three empty cells. */
  ghost predicate NoEmptyLine(b: Board) {
    forall l :: !Filled(b, l, Empty)
  }

  /** Some line holds three X or three O. */
  ghost predicate SomeLineWon(b: Board) {
    exists l :: Filled(b, l, X) || Filled(b, l, O)
  }

  /** `winner`: the common value of the first line, in the order rows,
      columns, diagonals, whose three cells are equal, and `Empty` when there
      is none.  Three empty cells count as equal, so an empty line can hide a
      later line that is won: the result is sound but complete only on boards
      without an empty line. */
  function Winner(b: Board): (w: Cell)
    ensures w != Empty ==> exists l :: Filled(b, l, w)
    ensures NoEmptyLine(b) && SomeLineWon(b) ==> w != Empty
  {
    ScanRows(b, 0)
  }

  /** The row loop of `winner`, from row `i` on, then the columns. */
  function ScanRows(b: Board, i: nat): (w: Cell)
    requires i <= 3
    ensures w != Empty ==> exists l :: Filled(b, l, w)
    ensures NoEmptyLine(b) && (exists l :: (Filled(b, l, X) || Filled(b, l, O)) && (l.Row? ==> l.i >= i))
            ==> w != Empty
    decreases 3 - i
  {
    if i == 3 then ScanColumns(b, 0)
    else if b[i][0] == b[i][1] && b[i][1] == b[i][2] then
      assert Filled(b, Row(i), b[i][0]);
      b[i][0]
    else ScanRows(b, i + 1)
  }

  /** The column loop of `winner`, from column `j` on, then the diagonals. */
  function ScanColumns(b: Board, j: nat): (w: Cell)
    requires j <= 3
    ensures w != Empty ==> exists l :: Filled(b, l, w)
    ensures NoEmptyLine(b) && (exists l :: (Filled(b, l, X) || Filled(b, l, O)) && !l.Row? && (l.Column? ==> l.j >= j))
            ==> w != Empty
    decreases 3 - j
  {
    if j == 3 then
      if (b[0][0] == b[1][1] && b[1][1] == b[2][2]) || (b[0][2] == b[1][1] && b[1][1] == b[2][0]) then
        assert Filled(b, Diagonal, b[1][1]) || Filled(b, AntiDiagonal, b[1][1]);
        b[1][1]
      else Empty
    else if b[0][j] == b[1][j] && b[1][j] == b[2][j] then
      assert Filled(b, Column(j), b[0][j]);
      b[0][j]
    else ScanColumns(b, j + 1)
  }

  /** No cell is empty. */
  predicate Full(b: Board) {
    forall i, j :: 0 <= i < 3 && 0 <= j < 3 ==> b[i][j] != Empty
  }

  /** `terminal`: a side has won, or no empty cell is left. */
  function Terminal(b: Board): (t: bool)
    ensures t <==> Winner(b) == X || Winner(b) == O || Full(b)
  {
    if Winner(b) == X || Winner(b) == O then true
    else !HasEmptyFrom(b, 0, 0)
  }

  /** The nested cell loops of `terminal`, from row `i`, column `j` on. */
  function HasEmptyFrom(b: Board, i: nat, j: nat): (r: bool)
    requires i <= 3 && j <= 3
    ensures r <==> exists i', j' :: 0 <= i' < 3 && 0 <= j' < 3 && (i < i' || (i == i' && j <= j')) && b[i'][j'] == Empty
    decreases 3 - i, 3 - j
  {
    if i == 3 then false
    else if j == 3 then HasEmptyFrom(b, i + 1, 0)
    else if b[i][j] == Empty then true
    else HasEmptyFrom(b, i, j + 1)
  }

  /** `utility`: +1 if X has won, -1 if O has won, 0 for a draw; it raises on
      a board that is not terminal. */
  function Utility(b: Board): (r: Outcome<int>)
    ensures r.Ok? <==> Terminal(b)
    ensures r.Raised? ==> r.error == NotImplementedError
    ensures r == Ok(1) <==> Winner(b) == X
    ensures r == Ok(-1) <==> Winner(b) == O
    ensures r == Ok(0) <==> Full(b) && Winner(b) == Empty
    ensures r.Ok? ==> -1 <= r.value <= 1
  {
    if Terminal(b) then
      if Winner(b) == X then Ok(1)
      else if Winner(b) == O then Ok(-1)
      else Ok(0)
    else Raised(NotImplementedError)
  }

  // ---------------------------------------------------------------------
  // actions and result

  /** The coordinates of the empty cells. */
  function EmptyCells(b: Board): set<Pos> {
    set p | p in Cells && InBounds(p) && At(b, p) == Empty
  }

  lemma EmptyCellsAre(b: Board)
    ensures forall p :: p in EmptyCells(b) <==> InBounds(p) && At(b, p) == Empty
  {
    CellsLayout();
    forall p | InBounds(p) && At(b, p) == Empty ensures p in EmptyCells(b) {
      assert Cells[Index(p)] == p;
    }
  }

  lemma NonTerminalHasMove(b: Board)
    requires !Terminal(b)
    ensures EmptyCells(b) != {}
    ensures exists m :: 0 <= m < |Cells| && At(b, Cells[m]) == Empty
  {
    CellsLayout();
    EmptyCellsAre(b);
    var i, j :| 0 <= i < 3 && 0 <= j < 3 && b[i][j] == Empty;
    assert (i, j) in EmptyCells(b);
    assert At(b, Cells[Index((i, j))]) == Empty;
  }

  /** `actions`: `None` on a terminal board, otherwise the set of the empty
      cells, built by adding them one by one. */
  method Actions(b: Board) returns (r: Option<set<Pos>>)
    ensures r == None <==> Terminal(b)
    ensures r.Some? ==> forall p :: p in r.value <==> InBounds(p) && At(b, p) == Empty
    ensures r.Some? ==> r.value == EmptyCells(b)
  {
    if Terminal(b) {
      return None;
    }
    CellsLayout();
    var acts: set<Pos> := {};
    for k := 0 to |Cells|
      invariant forall p :: p in acts <==> InBounds(p) && Index(p) < k && At(b, p) == Empty
    {
      var (i, j) := Cells[k];
      if b[i][j] == Empty {
        acts := acts + {(i, j)};
      }
    }
    EmptyCellsAre(b);
    return Some(acts);
  }

  /** The board after the player to move marks cell `a`. */
  function Play(b: Board, a: Pos): (r: Board)
    requires InBounds(a)
  {
    b[a.0 := b[a.0][a.1 := ToMove(b)]]
  }

  /** `result`: a copy of the board with the mover's mark in cell `a`.  It
      raises `TypeError` on a terminal board (`a in None`) and
      `NotImplementedError` when `a` is not an empty cell. */
  method Result(b: Board, a: Pos) returns (r: Outcome<Board>)
    ensures Terminal(b) ==> r == Raised(TypeError)
    ensures !Terminal(b) && a !in EmptyCells(b) ==> r == Raised(NotImplementedError)
    ensures r.Ok? <==> !Terminal(b) && a in EmptyCells(b)
    ensures r.Ok? ==> InBounds(a) && At(r.value, a) == ToMove(b)
    ensures r.Ok? ==> forall p :: InBounds(p) && p != a ==> At(r.value, p) == At(b, p)
    ensures r.Ok? ==> r.value == Play(b, a)
  {
    var copy := b;
    var acts := Actions(b);
    if acts.None? {
      return Raised(TypeError);
    }
    if a in acts.value {
      var mark := Player(b);
      copy := copy[a.0 := copy[a.0][a.1 := mark]];
      return Ok(copy);
    }
    return Raised(NotImplementedError);
  }

  // ---------------------------------------------------------------------
  // Mark counts under a move

  /** Changing one cell changes the count of `c` over a prefix of `Cells` only
      through that cell. */
  lemma {:induction false} CountAfterSet(b: Board, b': Board, a: Pos, c: Cell, k: nat)
    requires InBounds(a) && k <= |Cells|
    requires forall p :: InBounds(p) && p != a ==> At(b', p) == At(b, p)
    ensures CountTo(b', c, k) + (if Index(a) < k && At(b, a) == c then 1 else 0)
         == CountTo(b, c, k) + (if Index(a) < k && At(b', a) == c then 1 else 0)
  {
    CellsLayout();
    if k > 0 {
      CountAfterSet(b, b', a, c, k - 1);
      if Cells[k - 1] != a {
        assert At(b', Cells[k - 1]) == At(b, Cells[k - 1]);
      }
    }
  }

  /** A move fills one empty cell with the mover's mark and leaves the
      other side's count alone. */
  lemma PlayCounts(b: Board, a: Pos)
    requires InBounds(a) && At(b, a) == Empty
    ensures EmptyCount(Play(b, a)) == EmptyCount(b) - 1
    ensures CountOf(Play(b, a), ToMove(b)) == CountOf(b, ToMove(b)) + 1
    ensures ToMove(b) == X ==> CountOf(Play(b, a), O) == CountOf(b, O)
    ensures ToMove(b) == O ==> CountOf(Play(b, a), X) == CountOf(b, X)
  {
    CellsLayout();
    var b' := Play(b, a);
    CountAfterSet(b, b', a, Empty, 9);
    CountAfterSet(b, b', a, X, 9);
    CountAfterSet(b, b', a, O, 9);
  }

  /** On a board reached by alternating moves from the empty board (X has as
      many marks as O, or one more), a move hands the turn to the other side
      and keeps that balance. */
  lemma PlayAlternates(b: Board, a: Pos)
    requires InBounds(a) && At(b, a) == Empty
    requires CountOf(b, X) == CountOf(b, O) || CountOf(b, X) == CountOf(b, O) + 1
    ensures ToMove(Play(b, a)) != ToMove(b)
    ensures CountOf(Play(b, a), X) == CountOf(Play(b, a), O) || CountOf(Play(b, a), X) == CountOf(Play(b, a), O) + 1
  {
    PlayCounts(b, a);
  }

  // ---------------------------------------------------------------------
  // Game values

  function Max(x: int, y: int): int { if x >= y then x else y }
  function Min(x: int, y: int): int { if x <= y then x else y }

  /** The value `MaxValue` computes: the utility of a terminal board, else
      the best `MinScore` X can reach in one move. */
  function MaxScore(b: Board): int
    decreases EmptyCount(b), 1
  {
    if Terminal(b) then Utility(b).value
    else MaxOver(b, 0, -2)
  }

  /** The value `MinValue` computes: the utility of a terminal board, else
      the best `MaxScore` O can reach in one move. */
  function MinScore(b: Board): int
    decreases EmptyCount(b), 1
  {
    if Terminal(b) then Utility(b).value
    else MinOver(b, 0, 2)
  }

  /** `v := max(v, MinScore(...))` folded over the empty cells among
      `Cells[k..]`. */
  function MaxOver(b: Board, k: nat, v: int): int
    requires k <= |Cells|
    decreases EmptyCount(b), 0, |Cells| - k
  {
    CellsLayout();
    if k == |Cells| then v
    else if At(b, Cells[k]) == Empty then
      PlayCounts(b, Cells[k]);
      MaxOver(b, k + 1, Max(v, MinScore(Play(b, Cells[k]))))
    else MaxOver(b, k + 1, v)
  }

  /** `v := min(v, MaxScore(...))` folded over the empty cells among
      `Cells[k..]`. */
  function MinOver(b: Board, k: nat, v: int): int
    requires k <= |Cells|
    decreases EmptyCount(b), 0, |Cells| - k
  {
    CellsLayout();
    if k == |Cells| then v
    else if At(b, Cells[k]) == Empty then
      PlayCounts(b, Cells[k]);
      MinOver(b, k + 1, Min(v, MaxScore(Play(b, Cells[k]))))
    else MinOver(b, k + 1, v)
  }

  /** The empty cell `Cells[m]`. */
  predicate OpenAt(b: Board, m: int) {
    0 <= m < |Cells| && InBounds(Cells[m]) && At(b, Cells[m]) == Empty
  }

  lemma {:induction false} MaxOverMonotone(b: Board, k: nat, v: int)
    requires k <= |Cells|
    ensures v <= MaxOver(b, k, v)
    decreases |Cells| - k
  {
    if k < |Cells| {
      if At(b, Cells[k]) == Empty {
        MaxOverMonotone(b, k + 1, Max(v, MinScore(Play(b, Cells[k]))));
      } else {
        MaxOverMonotone(b, k + 1, v);
      }
    }
  }

  lemma {:induction false} MaxOverBound(b: Board, k: nat, v: int, m: nat)
    requires k <= m && OpenAt(b, m)
    ensures MinScore(Play(b, Cells[m])) <= MaxOver(b, k, v)
    decreases |Cells| - k
  {
    CellsLayout();
    if At(b, Cells[k]) == Empty {
      var w := MinScore(Play(b, Cells[k]));
      assert MaxOver(b, k, v) == MaxOver(b, k + 1, Max(v, w));
      if m == k {
        MaxOverMonotone(b, k + 1, Max(v, w));
      } else {
        MaxOverBound(b, k + 1, Max(v, w), m);
      }
    } else {
      assert MaxOver(b, k, v) == MaxOver(b, k + 1, v);
      MaxOverBound(b, k + 1, v, m);
    }
  }

  lemma {:induction false} MaxOverAttained(b: Board, k: nat, v: int)
    requires k <= |Cells|
    ensures MaxOver(b, k, v) == v
         || exists m :: k <= m && OpenAt(b, m) && MinScore(Play(b, Cells[m])) == MaxOver(b, k, v)
    decreases |Cells| - k
  {
    CellsLayout();
    if k < |Cells| {
      if At(b, Cells[k]) == Empty {
        var w := MinScore(Play(b, Cells[k]));
        assert MaxOver(b, k, v) == MaxOver(b, k + 1, Max(v, w));
        MaxOverAttained(b, k + 1, Max(v, w));
        if MaxOver(b, k + 1, Max(v, w)) == Max(v, w) && w == Max(v, w) {
          assert OpenAt(b, k) && MinScore(Play(b, Cells[k])) == MaxOver(b, k, v);
        }
      } else {
        assert MaxOver(b, k, v) == MaxOver(b, k + 1, v);
        MaxOverAttained(b, k + 1, v);
      }
    }
  }

  lemma {:induction false} MinOverMonotone(b: Board, k: nat, v: int)
    requires k <= |Cells|
    ensures MinOver(b, k, v) <= v
    decreases |Cells| - k
  {
    if k < |Cells| {
      if At(b, Cells[k]) == Empty {
        MinOverMonotone(b, k + 1, Min(v, MaxScore(Play(b, Cells[k]))));
      } else {
        MinOverMonotone(b, k + 1, v);
      }
    }
  }

  lemma {:induction false} MinOverBound(b: Board, k: nat, v: int, m: nat)
    requires k <= m && OpenAt(b, m)
    ensures MinOver(b, k, v) <= MaxScore(Play(b, Cells[m]))
    decreases |Cells| - k
  {
    CellsLayout();
    if At(b, Cells[k]) == Empty {
      var w := MaxScore(Play(b, Cells[k]));
      assert MinOver(b, k, v) == MinOver(b, k + 1, Min(v, w));
      if m == k {
        MinOverMonotone(b, k + 1, Min(v, w));
      } else {
        MinOverBound(b, k + 1, Min(v, w), m);
      }
    } else {
      assert MinOver(b, k, v) == MinOver(b, k + 1, v);
      MinOverBound(b, k + 1, v, m);
    }
  }

  lemma {:induction false} MinOverAttained(b: Board, k: nat, v: int)
    requires k <= |Cells|
    ensures MinOver(b, k, v) == v
         || exists m :: k <= m && OpenAt(b, m) && MaxScore(Play(b, Cells[m])) == MinOver(b, k, v)
    decreases |Cells| - k
  {
    CellsLayout();
    if k < |Cells| {
      if At(b, Cells[k]) == Empty {
        var w := MaxScore(Play(b, Cells[k]));
        assert MinOver(b, k, v) == MinOver(b, k + 1, Min(v, w));
        MinOverAttained(b, k + 1, Min(v, w));
        if MinOver(b, k + 1, Min(v, w)) == Min(v, w) && w == Min(v, w) {
          assert OpenAt(b, k) && MaxScore(Play(b, Cells[k])) == MinOver(b, k, v);
        }
      } else {
        assert MinOver(b, k, v) == MinOver(b, k + 1, v);
        MinOverAttained(b, k + 1, v);
      }
    }
  }


  /** Relates the open cells of `Cells` to the action set `EmptyCells`. */
  lemma OpenIsEmptyCell(b: Board)
    ensures forall m :: OpenAt(b, m) ==> Cells[m] in EmptyCells(b)
    ensures forall a :: a in EmptyCells(b) ==> InBounds(a) && OpenAt(b, Index(a)) && Cells[Index(a)] == a
  {
    CellsLayout();
    EmptyCellsAre(b);
  }

  /** Without its range: `MaxScore` is an upper bound of the `MinScore` of
      every move and equals one of them, or is the start value -2. */
  lemma MaxScoreFold(b: Board)
    requires !Terminal(b)
    ensures forall a :: a in EmptyCells(b) ==> MinScore(Play(b, a)) <= MaxScore(b)
    ensures MaxScore(b) == -2 || exists a :: a in EmptyCells(b) && MinScore(Play(b, a)) == MaxScore(b)
  {
    OpenIsEmptyCell(b);
    MaxOverAttained(b, 0, -2);
    assert MaxScore(b) == MaxOver(b, 0, -2);
    forall a | a in EmptyCells(b) ensures MinScore(Play(b, a)) <= MaxScore(b) {
      MaxOverBound(b, 0, -2, Index(a));
    }
    if MaxScore(b) != -2 {
      var m :| OpenAt(b, m) && MinScore(Play(b, Cells[m])) == MaxScore(b);
      assert Cells[m] in EmptyCells(b);
    }
  }

  lemma MinScoreFold(b: Board)
    requires !Terminal(b)
    ensures forall a :: a in EmptyCells(b) ==> MinScore(b) <= MaxScore(Play(b, a))
    ensures MinScore(b) == 2 || exists a :: a in EmptyCells(b) && MaxScore(Play(b, a)) == MinScore(b)
  {
    OpenIsEmptyCell(b);
    MinOverAttained(b, 0, 2);
    assert MinScore(b) == MinOver(b, 0, 2);
    forall a | a in EmptyCells(b) ensures MinScore(b) <= MaxScore(Play(b, a)) {
      MinOverBound(b, 0, 2, Index(a));
    }
    if MinScore(b) != 2 {
      var m :| OpenAt(b, m) && MaxScore(Play(b, Cells[m])) == MinScore(b);
      assert Cells[m] in EmptyCells(b);
    }
  }

  /** The values of `MaxValue` and `MinValue` are always -1, 0 or 1: by
      induction on the number of empty cells. */
  lemma {:induction false} ScoresInRange(b: Board)
    ensures -1 <= MaxScore(b) <= 1
    ensures -1 <= MinScore(b) <= 1
    decreases EmptyCount(b)
  {
    if !Terminal(b) {
      NonTerminalHasMove(b);
      MaxScoreFold(b);
      MinScoreFold(b);
      var some :| some in EmptyCells(b);
      EmptyCellsAre(b);
      PlayCounts(b, some);
      ScoresInRange(Play(b, some));
      if MaxScore(b) != -2 {
        var a :| a in EmptyCells(b) && MinScore(Play(b, a)) == MaxScore(b);
        PlayCounts(b, a);
        ScoresInRange(Play(b, a));
      }
      if MinScore(b) != 2 {
        var a :| a in EmptyCells(b) && MaxScore(Play(b, a)) == MinScore(b);
        PlayCounts(b, a);
        ScoresInRange(Play(b, a));
      }
    }
  }

  /** On a board that is not over, `MaxScore` is the largest `MinScore` over
      the available moves. */
  lemma MaxScoreIsBest(b: Board)
    requires !Terminal(b)
    ensures forall a :: a in EmptyCells(b) ==> MinScore(Play(b, a)) <= MaxScore(b)
    ensures exists a :: a in EmptyCells(b) && MinScore(Play(b, a)) == MaxScore(b)
  {
    MaxScoreFold(b);
    ScoresInRange(b);
  }

  /** On a board that is not over, `MinScore` is the smallest `MaxScore` over
      the available moves. */
  lemma MinScoreIsBest(b: Board)
    requires !Terminal(b)
    ensures forall a :: a in EmptyCells(b) ==> MinScore(b) <= MaxScore(Play(b, a))
    ensures exists a :: a in EmptyCells(b) && MaxScore(Play(b, a)) == MinScore(b)
  {
    MinScoreFold(b);
    ScoresInRange(b);
  }

  // ---------------------------------------------------------------------
  // minimax with its inner MaxValue and MinValue

  /** The loop of `MaxValue` has seen the moves in `done`, has the moves in
      `todo` still to go, and `v` is its running maximum. */
  ghost predicate MaxLoop(b: Board, todo: set<Pos>, done: set<Pos>, v: int) {
    && todo + done == EmptyCells(b)
    && todo !! done
    && (forall a :: a in done && InBounds(a) ==> MinScore(Play(b, a)) <= v)
    && (v == -2 || exists a :: a in done && InBounds(a) && MinScore(Play(b, a)) == v)
  }

  /** The loop of `MinValue` has seen the moves in `done`, has the moves in
      `todo` still to go, and `v` is its running minimum. */
  ghost predicate MinLoop(b: Board, todo: set<Pos>, done: set<Pos>, v: int) {
    && todo + done == EmptyCells(b)
    && todo !! done
    && (forall a :: a in done && InBounds(a) ==> v <= MaxScore(Play(b, a)))
    && (v == 2 || exists a :: a in done && InBounds(a) && MaxScore(Play(b, a)) == v)
  }

  lemma MaxLoopStep(b: Board, todo: set<Pos>, done: set<Pos>, v: int, a: Pos)
    requires MaxLoop(b, todo, done, v) && a in todo
    ensures InBounds(a) && At(b, a) == Empty
    ensures MaxLoop(b, todo - {a}, done + {a}, Max(v, MinScore(Play(b, a))))
  {
  }

  lemma MinLoopStep(b: Board, todo: set<Pos>, done: set<Pos>, v: int, a: Pos)
    requires MinLoop(b, todo, done, v) && a in todo
    ensures InBounds(a) && At(b, a) == Empty
    ensures MinLoop(b, todo - {a}, done + {a}, Min(v, MaxScore(Play(b, a))))
  {
  }

  /** Once every move has been seen, the running maximum is `MaxScore`. */
  lemma MaxLoopDone(b: Board, done: set<Pos>, v: int)
    requires !Terminal(b) && MaxLoop(b, {}, done, v)
    ensures v == MaxScore(b)
  {
    MaxScoreIsBest(b);
    ScoresInRange(b);
  }

  /** Once every move has been seen, the running minimum is `MinScore`. */
  lemma MinLoopDone(b: Board, done: set<Pos>, v: int)
    requires !Terminal(b) && MinLoop(b, {}, done, v)
    ensures v == MinScore(b)
  {
    MinScoreIsBest(b);
    ScoresInRange(b);
  }

  /** `MaxValue`: the loop over the actions, in the set's own order, keeping
      the running maximum `v` (starting at -2). */
  method MaxValue(b: Board) returns (v: int)
    ensures v == MaxScore(b)
    ensures -1 <= v <= 1
    decreases EmptyCount(b), 1
  {
    ScoresInRange(b);
    if Terminal(b) {
      return Utility(b).value;
    }
    v := -2;
    var acts := Actions(b);
    var todo := acts.value;
    ghost var done: set<Pos> := {};
    while todo != {}
      invariant MaxLoop(b, todo, done, v)
      decreases |todo|
    {
      var a :| a in todo;
      MaxLoopStep(b, todo, done, v, a);
      var next := Result(b, a);
      PlayCounts(b, a);
      var w := MinValue(next.value);
      v := Max(v, w);
      todo := todo - {a};
      done := done + {a};
    }
    MaxLoopDone(b, done, v);
  }

  /** `MinValue`: the loop over the actions keeping the running minimum `v`
      (starting at 2). */
  method MinValue(b: Board) returns (v: int)
    ensures v == MinScore(b)
    ensures -1 <= v <= 1
    decreases EmptyCount(b), 1
  {
    ScoresInRange(b);
    if Terminal(b) {
      return Utility(b).value;
    }
    v := 2;
    var acts := Actions(b);
    var todo := acts.value;
    ghost var done: set<Pos> := {};
    while todo != {}
      invariant MinLoop(b, todo, done, v)
      decreases |todo|
    {
      var a :| a in todo;
      MinLoopStep(b, todo, done, v, a);
      var next := Result(b, a);
      PlayCounts(b, a);
      var w := MaxValue(next.value);
      v := Min(v, w);
      todo := todo - {a};
      done := done + {a};
    }
    MinLoopDone(b, done, v);
  }

  /** A candidate of `minimax`: the value of a move, then the move. */
  type Scored = (int, Pos)

  predicate PosLe(p: Pos, q: Pos) {
    p.0 < q.0 || (p.0 == q.0 && p.1 <= q.1)
  }

  /** Python's ordering of `(value, (i, j))` tuples. */
  predicate ScoredLe(x: Scored, y: Scored) {
    x.0 < y.0 || (x.0 == y.0 && PosLe(x.1, y.1))
  }

  /** Python's `min` over a non-empty list of candidates. */
  function Least(s: seq<Scored>): (m: Scored)
    requires |s| > 0
    ensures m in s && forall x :: x in s ==> ScoredLe(m, x)
  {
    if |s| == 1 then s[0]
    else
      var rest := Least(s[1..]);
      assert forall x :: x in s ==> x == s[0] || x in s[1..];
      if ScoredLe(s[0], rest) then s[0] else rest
  }

  /** Python's `max` over a non-empty list of candidates. */
  function Greatest(s: seq<Scored>): (m: Scored)
    requires |s| > 0
    ensures m in s && forall x :: x in s ==> ScoredLe(x, m)
  {
    if |s| == 1 then s[0]
    else
      var rest := Greatest(s[1..]);
      assert forall x :: x in s ==> x == s[0] || x in s[1..];
      if ScoredLe(rest, s[0]) then s[0] else rest
  }

  /** The candidate list of `minimax` for O after the moves not in `todo`:
      each move with the `MaxValue` of the board it leads to. */
  ghost predicate OCandidates(b: Board, todo: set<Pos>, possible: seq<Scored>) {
    && todo <= EmptyCells(b)
    && (forall x :: x in possible ==> x.1 in EmptyCells(b) && InBounds(x.1) && x.0 == MaxScore(Play(b, x.1)))
    && (forall a :: a in EmptyCells(b) && a !in todo && InBounds(a) ==> (MaxScore(Play(b, a)), a) in possible)
  }

  /** The candidate list of `minimax` for X: each move with the `MinValue`
      of the board it leads to. */
  ghost predicate XCandidates(b: Board, todo: set<Pos>, possible: seq<Scored>) {
    && todo <= EmptyCells(b)
    && (forall x :: x in possible ==> x.1 in EmptyCells(b) && InBounds(x.1) && x.0 == MinScore(Play(b, x.1)))
    && (forall a :: a in EmptyCells(b) && a !in todo && InBounds(a) ==> (MinScore(Play(b, a)), a) in possible)
  }

  lemma OCandidatesStep(b: Board, todo: set<Pos>, possible: seq<Scored>, a: Pos)
    requires OCandidates(b, todo, possible) && a in todo
    ensures InBounds(a) && a in EmptyCells(b)
    ensures OCandidates(b, todo - {a}, possible + [(MaxScore(Play(b, a)), a)])
  {
  }

  lemma XCandidatesStep(b: Board, todo: set<Pos>, possible: seq<Scored>, a: Pos)
    requires XCandidates(b, todo, possible) && a in todo
    ensures InBounds(a) && a in EmptyCells(b)
    ensures XCandidates(b, todo - {a}, possible + [(MinScore(Play(b, a)), a)])
  {
  }

  /** The `min` of O's complete candidate list is a move that holds X to the
      game value `MinScore(b)`, the first such move in tuple order. */
  lemma OChoiceIsBest(b: Board, possible: seq<Scored>)
    requires !Terminal(b) && OCandidates(b, {}, possible)
    ensures |possible| > 0
    ensures var m := Least(possible).1;
      m in EmptyCells(b) && InBounds(m)
      && MaxScore(Play(b, m)) == MinScore(b)
      && forall a :: a in EmptyCells(b) ==>
           MaxScore(Play(b, m)) <= MaxScore(Play(b, a))
           && (MaxScore(Play(b, a)) == MaxScore(Play(b, m)) ==> PosLe(m, a))
  {
    NonTerminalHasMove(b);
    EmptyCellsAre(b);
    var some :| some in EmptyCells(b);
    assert (MaxScore(Play(b, some)), some) in possible;
    var best := Least(possible);
    MinScoreIsBest(b);
    forall a | a in EmptyCells(b)
      ensures MaxScore(Play(b, best.1)) <= MaxScore(Play(b, a))
      ensures MaxScore(Play(b, a)) == MaxScore(Play(b, best.1)) ==> PosLe(best.1, a)
    {
      assert (MaxScore(Play(b, a)), a) in possible;
    }
    var opt :| opt in EmptyCells(b) && MaxScore(Play(b, opt)) == MinScore(b);
    assert (MaxScore(Play(b, opt)), opt) in possible;
  }

  /** The `max` of X's complete candidate list is a move that secures the
      game value `MaxScore(b)`, the last such move in tuple order. */
  lemma XChoiceIsBest(b: Board, possible: seq<Scored>)
    requires !Terminal(b) && XCandidates(b, {}, possible)
    ensures |possible| > 0
    ensures var m := Greatest(possible).1;
      m in EmptyCells(b) && InBounds(m)
      && MinScore(Play(b, m)) == MaxScore(b)
      && forall a :: a in EmptyCells(b) ==>
           MinScore(Play(b, a)) <= MinScore(Play(b, m))
           && (MinScore(Play(b, a)) == MinScore(Play(b, m)) ==> PosLe(a, m))
  {
    NonTerminalHasMove(b);
    EmptyCellsAre(b);
    var some :| some in EmptyCells(b);
    assert (MinScore(Play(b, some)), some) in possible;
    var best := Greatest(possible);
    MaxScoreIsBest(b);
    forall a | a in EmptyCells(b)
      ensures MinScore(Play(b, a)) <= MinScore(Play(b, best.1))
      ensures MinScore(Play(b, a)) == MinScore(Play(b, best.1)) ==> PosLe(a, best.1)
    {
      assert (MinScore(Play(b, a)), a) in possible;
    }
    var opt :| opt in EmptyCells(b) && MinScore(Play(b, opt)) == MaxScore(b);
    assert (MinScore(Play(b, opt)), opt) in possible;
  }

  /** `minimax`: `None` on a terminal board; otherwise the move of the player
      to move that is best for them against best play, ties going to the
      smallest coordinates for O and to the largest for X (the order of
      `min` and `max` on tuples). */
  method Minimax(b: Board) returns (move: Option<Pos>)
    ensures move == None <==> Terminal(b)
    ensures move.Some? ==> move.value in EmptyCells(b)
    ensures move.Some? && ToMove(b) == O ==>
      MaxScore(Play(b, move.value)) == MinScore(b)
      && forall a :: a in EmptyCells(b) ==>
           MaxScore(Play(b, move.value)) <= MaxScore(Play(b, a))
           && (MaxScore(Play(b, a)) == MaxScore(Play(b, move.value)) ==> PosLe(move.value, a))
    ensures move.Some? && ToMove(b) == X ==>
      MinScore(Play(b, move.value)) == MaxScore(b)
      && forall a :: a in EmptyCells(b) ==>
           MinScore(Play(b, a)) <= MinScore(Play(b, move.value))
           && (MinScore(Play(b, a)) == MinScore(Play(b, move.value)) ==> PosLe(a, move.value))
  {
    if Terminal(b) {
      return None;
    }
    var possible: seq<Scored> := [];
    var mover := Player(b);
    var acts := Actions(b);
    var todo := acts.value;
    if mover == O {
      while todo != {}
        invariant OCandidates(b, todo, possible)
        decreases |todo|
      {
        var a :| a in todo;
        OCandidatesStep(b, todo, possible, a);
        var next := Result(b, a);
        var w := MaxValue(next.value);
        possible := possible + [(w, a)];
        todo := todo - {a};
      }
      OChoiceIsBest(b, possible);
      var best := Least(possible);
      move := Some(best.1);
    } else {
      // `player` returns X or O, so this is the `elif player(board) == X` branch
      while todo != {}
        invariant XCandidates(b, todo, possible)
        decreases |todo|
      {
        var a :| a in todo;
        XCandidatesStep(b, todo, possible, a);
        var next := Result(b, a);
        var w := MinValue(next.value);
        possible := possible + [(w, a)];
        todo := todo - {a};
      }
      XChoiceIsBest(b, possible);
      var best := Greatest(possible);
      move := Some(best.1);
    }
  }

  // ---------------------------------------------------------------------
  // The empty-line quirk of winner

  /** On any board whose top row is still empty, `winner` stops at that row:
      it reports no winner and the game is not over, whatever the other rows
      hold, even a middle row X has filled. */
  lemma EmptyRowHidesWin(b: Board)
    requires Filled(b, Row(0), Empty)
    ensures Winner(b) == Empty && !Terminal(b)
    ensures Utility(b) == Raised(NotImplementedError)
  {
    assert !Full(b) by { assert b[0][0] == Empty; }
  }

  /** Such a board exists with a full line of X. */
  lemma HiddenWinExists()
    ensures exists b: Board :: Filled(b, Row(0), Empty) && Filled(b, Row(1), X)
  {
    var b: Board := [[Empty, Empty, Empty], [X, X, X], [O, O, Empty]];
    assert Filled(b, Row(0), Empty) && Filled(b, Row(1), X);
  }
}
