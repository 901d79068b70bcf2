/**
 * The tic-tac-toe board (`Array(9).fill(null)` holding 'X', 'O' or null) and the
 * winner check over the eight fixed lines.
 */
module Board {

  import opened Wrappers

  datatype Mark = X | O

  function Other(m: Mark): Mark
  {
    if m == X then O else X
  }

  /** A square: `null` or a mark. */
  type Cell = Option<Mark>

  /** Nine squares, row by row. */
  type Board = b: seq<Cell> | |b| == 9
    witness [None, None, None, None, None, None, None, None, None]

  const EmptyBoard: Board := [None, None, None, None, None, None, None, None, None]

  type Square = i: int | 0 <= i < 9

  datatype Line = Line(a: Square, b: Square, c: Square)

  /** The scan order of the winner check: rows, then columns, then diagonals. */
  const Lines: seq<Line> := [
    Line(0, 1, 2), Line(3, 4, 5), Line(6, 7, 8),
    Line(0, 3, 6), Line(1, 4, 7), Line(2, 5, 8),
    Line(0, 4, 8), Line(2, 4, 6)
  ]

  /** All three squares of `line` hold `m`. */
  predicate Completes(b: Board, line: Line, m: Mark)
  {
    b[line.a] == Some(m) && b[line.b] == Some(m) && b[line.c] == Some(m)
  }

  /** The line holds three equal marks (the `board[a] && board[a] === board[b] && board[a] === board[c]` test). */
  predicate Uniform(b: Board, line: Line)
  {
    b[line.a].Some? && b[line.a] == b[line.b] && b[line.a] == b[line.c]
  }

  /** The winner check, scanning `Lines` from position `from`. */
  function ScanFrom(b: Board, from: nat): (r: Option<Mark>)
    requires from <= |Lines|
    ensures r.None? ==> forall i :: from <= i < |Lines| ==> !Uniform(b, Lines[i])
    ensures r.Some? ==> exists i :: from <= i < |Lines| && Completes(b, Lines[i], r.value)
                           && forall j :: from <= j < i ==> !Uniform(b, Lines[j])
    decreases |Lines| - from
  {
    if from == |Lines| then None
    else if Uniform(b, Lines[from]) then b[Lines[from].a]
    else ScanFrom(b, from + 1)
  }

  /** `checkTicTacToeWinner`: the mark of the first uniform line in scan order, or null. */
  function Winner(b: Board): (w: Option<Mark>)
    ensures w.None? ==> forall i :: 0 <= i < |Lines| ==> !Uniform(b, Lines[i])
    ensures w.Some? ==> exists i :: 0 <= i < |Lines| && Completes(b, Lines[i], w.value)
                           && forall j :: 0 <= j < i ==> !Uniform(b, Lines[j])
  {
    ScanFrom(b, 0)
  }

  /** `!board.includes(null)` */
  predicate Full(b: Board)
  {
    forall i :: 0 <= i < 9 ==> b[i].Some?
  }

  /** Number of squares holding `m`. */
  function Count(b: seq<Cell>, m: Mark): (n: nat)
    ensures n == multiset(b)[Some(m)]
    ensures n <= |b|
  {
    if b == [] then 0
    else
      assert b == [b[0]] + b[1..];
      (if b[0] == Some(m) then 1 else 0) + Count(b[1..], m)
  }

  /**
   * A board is full exactly when it holds no empty square, and exactly when the two
   * marks' counts add up to nine.
   */
  lemma FullExactlyWhenNoSquareEmpty(b: Board)
    ensures Full(b) <==> None !in b
    ensures Full(b) <==> Count(b, X) + Count(b, O) == 9
  {
    CountsMakeUpBoard(b);
  }

  /** Every square is empty or holds one of the two marks. */
  lemma {:induction false} CountsMakeUpBoard(b: seq<Cell>)
    ensures Count(b, X) + Count(b, O) + multiset(b)[None] == |b|
  {
    if b != [] {
      CountsMakeUpBoard(b[1..]);
      assert b == [b[0]] + b[1..];
      assert multiset(b) == multiset{b[0]} + multiset(b[1..]);
      match b[0]
      case None =>
      case Some(m) => assert m == X || m == O;
    }
  }

  /** Winner check in both directions: some line is complete exactly when the check reports a mark. */
  lemma WinnerExactlyWhenLineComplete(b: Board)
    ensures Winner(b).Some? <==> exists i, m :: 0 <= i < |Lines| && Completes(b, Lines[i], m)
    ensures forall m :: Winner(b) == Some(m) ==> exists i :: 0 <= i < |Lines| && Completes(b, Lines[i], m)
  {
    if exists i, m :: 0 <= i < |Lines| && Completes(b, Lines[i], m) {
      var i, m :| 0 <= i < |Lines| && Completes(b, Lines[i], m);
      assert Uniform(b, Lines[i]);
    }
  }

  /**
   * The reported mark is that of the FIRST complete line: if line `i` is complete
   * with `m` and no earlier line is uniform, the winner is `m`.
   */
  lemma WinnerIsFirstLine(b: Board, i: nat, m: Mark)
    requires i < |Lines| && Completes(b, Lines[i], m)
    requires forall j :: 0 <= j < i ==> !Uniform(b, Lines[j])
    ensures Winner(b) == Some(m)
  {
    var r := Winner(b);
    assert Uniform(b, Lines[i]);
    var k :| 0 <= k < |Lines| && Completes(b, Lines[k], r.value)
             && forall j :: 0 <= j < k ==> !Uniform(b, Lines[j]);
    assert Uniform(b, Lines[k]);
    assert k == i;
  }

  /** Writing `m` into an empty square adds one `m` and leaves the count of the other mark alone. */
  lemma {:induction false} CountAfterWrite(b: seq<Cell>, i: nat, m: Mark)
    requires i < |b| && b[i].None?
    ensures Count(b[i := Some(m)], m) == Count(b, m) + 1
    ensures Count(b[i := Some(m)], Other(m)) == Count(b, Other(m))
  {
    var b' := b[i := Some(m)];
    if i == 0 {
      assert b'[1..] == b[1..];
    } else {
      assert b'[1..] == b[1..][i - 1 := Some(m)];
      CountAfterWrite(b[1..], i - 1, m);
    }
  }

  /** The empty board holds no marks. */
  lemma EmptyBoardHoldsNoMarks(m: Mark)
    ensures Count(EmptyBoard, m) == 0
  {
    assert Some(m) !in EmptyBoard;
  }

  /** The empty board completes no line and is not full. */
  lemma EmptyBoardUndecided()
    ensures Winner(EmptyBoard) == None
    ensures !Full(EmptyBoard)
  {
    var b := EmptyBoard;
    assert forall i :: 0 <= i < 9 ==> b[i] == None;
    assert forall i :: 0 <= i < |Lines| ==> !Uniform(b, Lines[i]);
    assert b[0].None?;
  }
}
