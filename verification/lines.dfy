/** Detection of completed bingo lines: 5 rows, 5 columns and 2 diagonals. */
module Lines {
  import opened Types

  /** Number of lines on the board. Lines 0..4 are the rows, 5..9 the columns,
      10 the main diagonal and 11 the anti-diagonal. */
  const LineCount: nat := 12

  /** Board index of the `j`-th cell of line `k`. */
  function LineCell(k: nat, j: nat): (i: nat)
    requires k < LineCount && j < Side
    ensures i < BoardSize
  {
    if k < 5 then k * 5 + j
    else if k < 10 then j * 5 + (k - 5)
    else if k == 10 then j * 5 + j
    else j * 5 + (4 - j)
  }

  /** All five cells of line `k` are answered. */
  predicate LineComplete(b: seq<Cell>, k: nat)
    requires |b| == BoardSize && k < LineCount
  {
    forall j :: 0 <= j < Side ==> b[LineCell(k, j)].answered
  }

  /** Number of complete lines among lines 0..n-1. */
  function CountComplete(b: seq<Cell>, n: nat): (c: nat)
    requires |b| == BoardSize && n <= LineCount
    ensures c <= n
  {
    if n == 0 then 0
    else CountComplete(b, n - 1) + (if LineComplete(b, n - 1) then 1 else 0)
  }

  /** Number of completed lines of a board: the value the game scores. */
  function CompletedLines(b: seq<Cell>): nat
    requires |b| == BoardSize
  {
    CountComplete(b, LineCount)
  }

  /** The set of completed lines. */
  ghost function CompleteSet(b: seq<Cell>): set<nat>
    requires |b| == BoardSize
  {
    set k: nat | k < LineCount && LineComplete(b, k)
  }

  predicate AllAnswered(b: seq<Cell>)
  {
    forall i :: 0 <= i < |b| ==> b[i].answered
  }

  /** Every cell answered in `b` is also answered in `b'`. */
  predicate Covers(b: seq<Cell>, b': seq<Cell>)
    requires |b| == |b'|
  {
    forall i :: 0 <= i < |b| ==> b[i].answered ==> b'[i].answered
  }

  /** The scan the game runs over the board: rows, then columns, then the two
      diagonals, each abandoned at its first unanswered cell. */
  method CheckCompletedLines(board: seq<Cell>) returns (lines: nat)
    requires |board| == BoardSize
    ensures lines == CompletedLines(board)
    ensures lines == |CompleteSet(board)|
  {
    lines := 0;

    // Rows
    var row := 0;
    while row < 5
      invariant 0 <= row <= 5
      invariant lines == CountComplete(board, row)
    {
      var completed := true;
      var col := 0;
      while col < 5
        invariant 0 <= col <= 5
        invariant completed
        invariant forall c :: 0 <= c < col ==> board[LineCell(row, c)].answered
      {
        if !board[row * 5 + col].answered {
          assert board[LineCell(row, col)] == board[row * 5 + col];
          completed := false;
          break;
        }
        col := col + 1;
      }
      if completed { lines := lines + 1; }
      row := row + 1;
    }

    // Columns
    var col := 0;
    while col < 5
      invariant 0 <= col <= 5
      invariant lines == CountComplete(board, 5 + col)
    {
      var line := 5 + col;
      var completed := true;
      var row := 0;
      while row < 5
        invariant 0 <= row <= 5
        invariant completed
        invariant forall r :: 0 <= r < row ==> board[LineCell(line, r)].answered
      {
        if !board[row * 5 + col].answered {
          assert board[LineCell(line, row)] == board[row * 5 + col];
          completed := false;
          break;
        }
        row := row + 1;
      }
      if completed { lines := lines + 1; }
      col := col + 1;
    }

    // Main diagonal
    var completed := true;
    var i := 0;
    while i < 5
      invariant 0 <= i <= 5
      invariant completed
      invariant forall d :: 0 <= d < i ==> board[LineCell(10, d)].answered
    {
      if !board[i * 5 + i].answered {
        assert board[LineCell(10, i)] == board[i * 5 + i];
        completed := false;
        break;
      }
      i := i + 1;
    }
    if completed { lines := lines + 1; }

    // Anti-diagonal
    completed := true;
    i := 0;
    while i < 5
      invariant 0 <= i <= 5
      invariant completed
      invariant forall d :: 0 <= d < i ==> board[LineCell(11, d)].answered
    {
      if !board[i * 5 + (4 - i)].answered {
        assert board[LineCell(11, i)] == board[i * 5 + (4 - i)];
        completed := false;
        break;
      }
      i := i + 1;
    }
    if completed { lines := lines + 1; }

    CountIsSetSize(board, LineCount);
  }

  /** The running count equals the number of complete lines below `n`. */
  lemma {:induction false} CountIsSetSize(b: seq<Cell>, n: nat)
    requires |b| == BoardSize && n <= LineCount
    ensures CountComplete(b, n) == |set k: nat | k < n && LineComplete(b, k)|
  {
    if n > 0 {
      CountIsSetSize(b, n - 1);
      var below := set k: nat | k < n - 1 && LineComplete(b, k);
      var upTo := set k: nat | k < n && LineComplete(b, k);
      if LineComplete(b, n - 1) {
        assert upTo == below + {n - 1};
      } else {
        assert upTo == below;
      }
    }
  }

  /** A board scores between 0 and 12 lines. */
  lemma CompletedLinesBounds(b: seq<Cell>)
    requires |b| == BoardSize
    ensures 0 <= CompletedLines(b) <= LineCount
  {
  }

  /** The count reaches `n` exactly when every line below `n` is complete. */
  lemma {:induction false} CountFullIff(b: seq<Cell>, n: nat)
    requires |b| == BoardSize && n <= LineCount
    ensures CountComplete(b, n) == n <==> forall k :: 0 <= k < n ==> LineComplete(b, k)
  {
    if n > 0 {
      CountFullIff(b, n - 1);
    }
  }

  /** The count is zero exactly when no line below `n` is complete. */
  lemma {:induction false} CountZeroIff(b: seq<Cell>, n: nat)
    requires |b| == BoardSize && n <= LineCount
    ensures CountComplete(b, n) == 0 <==> forall k :: 0 <= k < n ==> !LineComplete(b, k)
  {
    if n > 0 {
      CountZeroIff(b, n - 1);
    }
  }

  /** Twelve lines are scored exactly when all 25 cells are answered. */
  lemma FullBoardIff(b: seq<Cell>)
    requires |b| == BoardSize
    ensures CompletedLines(b) == LineCount <==> AllAnswered(b)
  {
    CountFullIff(b, LineCount);
    if CompletedLines(b) == LineCount {
      forall i | 0 <= i < |b|
        ensures b[i].answered
      {
        assert LineComplete(b, i / 5);
        assert LineCell(i / 5, i % 5) == i;
      }
    }
  }

  /** A board with nothing answered has no completed line. */
  lemma EmptyBoardHasNoLines(b: seq<Cell>)
    requires |b| == BoardSize
    requires forall i :: 0 <= i < |b| ==> !b[i].answered
    ensures CompletedLines(b) == 0
  {
    CountZeroIff(b, LineCount);
    forall k | 0 <= k < LineCount
      ensures !LineComplete(b, k)
    {
      assert !b[LineCell(k, 0)].answered;
    }
  }

  /** The free space alone completes no line: every line has a cell other than the centre. */
  lemma CentreOnlyHasNoLines(b: seq<Cell>)
    requires |b| == BoardSize
    requires forall i :: 0 <= i < |b| ==> (b[i].answered <==> i == Centre)
    ensures CompletedLines(b) == 0
  {
    CountZeroIff(b, LineCount);
    forall k | 0 <= k < LineCount
      ensures !LineComplete(b, k)
    {
      assert !b[LineCell(k, 0)].answered;
    }
  }

  /** Answering more cells never loses a line. */
  lemma {:induction false} CountMonotone(b: seq<Cell>, b': seq<Cell>, n: nat)
    requires |b| == BoardSize && |b'| == BoardSize && n <= LineCount
    requires Covers(b, b')
    ensures CountComplete(b, n) <= CountComplete(b', n)
  {
    if n > 0 {
      CountMonotone(b, b', n - 1);
      var k := n - 1;
      if LineComplete(b, k) {
        forall j | 0 <= j < Side
          ensures b'[LineCell(k, j)].answered
        {
          assert b[LineCell(k, j)].answered;
        }
      }
    }
  }

  lemma CompletedLinesMonotone(b: seq<Cell>, b': seq<Cell>)
    requires |b| == BoardSize && |b'| == BoardSize
    requires Covers(b, b')
    ensures CompletedLines(b) <= CompletedLines(b')
  {
    CountMonotone(b, b', LineCount);
  }
}
