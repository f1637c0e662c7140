/** Day 4, bingo with a giant squid: boards of numbers are marked as numbers are drawn;
    a board wins when a whole row or a whole column is marked, and its score is the
    winning number times the sum of its unmarked numbers. */
module Bingo {
  import opened Wrappers
  import opened Text

  /** `BingoSquare`. */
  datatype Square = Square(number: int, checked: bool)

  /** `Board`: the squares row after row, `rowLen` to a row. `lastMove` counts the calls
      made while the board had not yet won; `score` is fixed by the call that first finds
      it a winner. */
  datatype Board = Board(squares: seq<Square>, rowLen: nat, colLen: nat, isWinner: bool,
                         score: Option<int>, lastMove: nat)

  /** Why a row is refused: a piece that is not an `i32`, or the wrong number of pieces. */
  datatype BingoError = NotANumber | InvalidRowLength

  // ----- calling a number ---------------------------------------------------------------

  /** `BingoSquare::call_number`: mark the square when the number is its own. */
  function CallSquare(s: Square, number: int): (t: Square)
    ensures t.number == s.number
    ensures t.checked <==> s.checked || number == s.number
  {
    if number == s.number then Square(s.number, true) else s
  }

  /** Every square of chunk `r` (the `r`-th run of `rowLen` squares, the last one possibly
      shorter) is marked. */
  predicate RowDone(squares: seq<Square>, rowLen: nat, r: nat) {
    forall j :: r * rowLen <= j < (r + 1) * rowLen && j < |squares| ==> squares[j].checked
  }

  /** Every square at `col`, `col + rowLen`, `col + 2 * rowLen`, ... is marked. */
  predicate ColumnDone(squares: seq<Square>, rowLen: nat, col: nat)
    requires rowLen > 0
  {
    forall j :: col <= j < |squares| && (j - col) % rowLen == 0 ==> squares[j].checked
  }

  /** The two win checks of `call_number`: some chunk of `squares.chunks(row_len)` or some
      column `squares[col..].step_by(row_len)` is fully marked. */
  predicate HasWon(squares: seq<Square>, rowLen: nat)
    requires rowLen > 0
  {
    || (exists r :: 0 <= r < |squares| && r * rowLen < |squares| && RowDone(squares, rowLen, r))
    || (exists col :: 0 <= col < rowLen && ColumnDone(squares, rowLen, col))
  }

  /** The sum of the unmarked numbers from square `i` on. */
  function UncheckedFrom(squares: seq<Square>, i: nat): int
    requires i <= |squares|
    decreases |squares| - i
  {
    if i == |squares| then 0
    else (if squares[i].checked then 0 else squares[i].number) + UncheckedFrom(squares, i + 1)
  }

  /** `call_number` does not panic: `chunks` and `step_by` need a positive row length and
      `squares[col..]` needs `col <= squares.len()` for every column. */
  predicate Playable(b: Board) {
    b.rowLen > 0 && b.rowLen <= |b.squares| + 1
  }

  /** `Board::call_number`: mark the squares, count the move while the board has not won,
      check for a win, and score the first win. */
  function CallNumber(b: Board, number: int): (c: Board)
    requires Playable(b)
    ensures Playable(c) && c.rowLen == b.rowLen && c.colLen == b.colLen
    ensures |c.squares| == |b.squares|
    ensures forall i :: 0 <= i < |b.squares| ==> c.squares[i] == CallSquare(b.squares[i], number)
    ensures c.lastMove == if b.isWinner then b.lastMove else b.lastMove + 1
    ensures c.isWinner <==> b.isWinner || HasWon(c.squares, c.rowLen)
    ensures b.score.Some? ==> c.score == b.score
    ensures b.score.None? ==> c.score == if c.isWinner then Some(number * UncheckedFrom(c.squares, 0)) else None
  {
    var squares := seq(|b.squares|, i requires 0 <= i < |b.squares| => CallSquare(b.squares[i], number));
    var lastMove := if b.isWinner then b.lastMove else b.lastMove + 1;
    var isWinner := b.isWinner || HasWon(squares, b.rowLen);
    var score := if isWinner && b.score.None? then Some(number * UncheckedFrom(squares, 0)) else b.score;
    Board(squares, b.rowLen, b.colLen, isWinner, score, lastMove)
  }

  // ----- what a board keeps -------------------------------------------------------------

  /** The bookkeeping of a board that has only been changed by `call_number`: it has a
      score exactly when it has won, and it has won only with a full row or column. */
  predicate Consistent(b: Board) {
    && Playable(b)
    && (b.score.Some? <==> b.isWinner)
    && (b.isWinner ==> HasWon(b.squares, b.rowLen))
  }

  /** Marks never go away, so a full row or column stays full. */
  lemma HasWonStays(before: seq<Square>, after: seq<Square>, rowLen: nat)
    requires rowLen > 0 && |before| == |after|
    requires forall i :: 0 <= i < |before| ==> before[i].checked ==> after[i].checked
    requires HasWon(before, rowLen)
    ensures HasWon(after, rowLen)
  {
    if exists r :: 0 <= r < |before| && r * rowLen < |before| && RowDone(before, rowLen, r) {
      var r :| 0 <= r < |before| && r * rowLen < |before| && RowDone(before, rowLen, r);
      assert RowDone(after, rowLen, r);
    } else {
      var col :| 0 <= col < rowLen && ColumnDone(before, rowLen, col);
      assert ColumnDone(after, rowLen, col);
    }
  }

  /** `call_number` keeps a board consistent: the win flag never reverts, and the score is
      set once, on the call that finds the board a winner. */
  lemma CallKeepsConsistent(b: Board, number: int)
    requires Consistent(b)
    ensures Consistent(CallNumber(b, number))
    ensures b.isWinner ==> CallNumber(b, number).isWinner
  {
    var c := CallNumber(b, number);
    if b.isWinner {
      HasWonStays(b.squares, c.squares, b.rowLen);
    }
  }

  /** `n` calls, one per number of `numbers`, in order. */
  function CallAll(b: Board, numbers: seq<int>): (c: Board)
    requires Playable(b)
    ensures Playable(c) && c.rowLen == b.rowLen && |c.squares| == |b.squares|
    decreases |numbers|
  {
    if |numbers| == 0 then b else CallNumber(CallAll(b, numbers[..|numbers| - 1]), numbers[|numbers| - 1])
  }

  /** After a run of calls a square is marked exactly when it was already marked or its
      number was called. */
  lemma {:induction false} CallAllMarks(b: Board, numbers: seq<int>)
    requires Playable(b)
    ensures forall i :: 0 <= i < |b.squares| ==>
              && CallAll(b, numbers).squares[i].number == b.squares[i].number
              && (CallAll(b, numbers).squares[i].checked <==> b.squares[i].checked || b.squares[i].number in numbers)
    decreases |numbers|
  {
    if |numbers| > 0 {
      var init := numbers[..|numbers| - 1];
      CallAllMarks(b, init);
      assert numbers == init + [numbers[|numbers| - 1]];
    }
  }

  /** Consistency lasts through any run of calls. */
  lemma {:induction false} CallAllKeepsConsistent(b: Board, numbers: seq<int>)
    requires Consistent(b)
    ensures Consistent(CallAll(b, numbers))
    decreases |numbers|
  {
    if |numbers| > 0 {
      CallAllKeepsConsistent(b, numbers[..|numbers| - 1]);
      CallKeepsConsistent(CallAll(b, numbers[..|numbers| - 1]), numbers[|numbers| - 1]);
    }
  }

  /** `last_move` counts the calls up to and including the winning one: with `m` the
      number of moves added, no shorter run of calls made the board a winner, and the
      first `m` calls did, unless every call was counted. */
  lemma {:induction false} LastMoveIsWinTime(b: Board, numbers: seq<int>)
    requires Consistent(b) && !b.isWinner
    ensures var m := CallAll(b, numbers).lastMove - b.lastMove;
            && 0 <= m <= |numbers|
            && (forall k :: 0 <= k < m ==> !CallAll(b, numbers[..k]).isWinner)
            && (m == |numbers| || CallAll(b, numbers[..m]).isWinner)
    decreases |numbers|
  {
    if |numbers| > 0 {
      var n := |numbers|;
      var init := numbers[..n - 1];
      LastMoveIsWinTime(b, init);
      var m := CallAll(b, init).lastMove - b.lastMove;
      PrefixesAgree(numbers, n - 1);
      assert numbers[..n] == numbers;
      assert init[..n - 1] == init;
      if !CallAll(b, init).isWinner && m < n - 1 {
        WinStays(b, init, m, n - 1);
        assert false;
      }
    }
  }

  /** The prefixes of a prefix are prefixes of the whole. */
  lemma PrefixesAgree(numbers: seq<int>, n: nat)
    requires n <= |numbers|
    ensures forall k :: 0 <= k <= n ==> numbers[..k] == numbers[..n][..k]
  {
  }

  /** Once a run of calls makes a board a winner, every longer run does too. */
  lemma {:induction false} WinStays(b: Board, numbers: seq<int>, j: nat, k: nat)
    requires Consistent(b) && j <= k <= |numbers|
    requires CallAll(b, numbers[..j]).isWinner
    ensures CallAll(b, numbers[..k]).isWinner
    decreases k - j
  {
    if j < k {
      WinStays(b, numbers, j, k - 1);
      var pre := numbers[..k];
      assert pre[..k - 1] == numbers[..k - 1];
      CallAllKeepsConsistent(b, numbers[..k - 1]);
      CallKeepsConsistent(CallAll(b, numbers[..k - 1]), numbers[k - 1]);
    }
  }

  // ----- the winner and the loser -------------------------------------------------------

  predicate AllPlayable(boards: seq<Board>) {
    forall k :: 0 <= k < |boards| ==> Playable(boards[k])
  }

  /** One draw: `call_number` on every board. */
  function Round(boards: seq<Board>, number: int): (next: seq<Board>)
    requires AllPlayable(boards)
    ensures |next| == |boards| && AllPlayable(next)
    ensures forall k :: 0 <= k < |boards| ==> next[k] == CallNumber(boards[k], number)
  {
    seq(|boards|, k requires 0 <= k < |boards| => CallNumber(boards[k], number))
  }

  /** The largest score among the boards from `k` on, if any board there has one. */
  function TopScoreFrom(boards: seq<Board>, k: nat): (r: Option<int>)
    requires k <= |boards|
    ensures r.None? <==> forall j :: k <= j < |boards| ==> boards[j].score.None?
    ensures r.Some? ==> (exists j :: k <= j < |boards| && boards[j].score == r)
                        && forall j :: k <= j < |boards| && boards[j].score.Some? ==> boards[j].score.value <= r.value
    decreases |boards| - k
  {
    if k == |boards| then None
    else
      var rest := TopScoreFrom(boards, k + 1);
      match boards[k].score
      case None => rest
      case Some(s) => if rest.Some? && rest.value > s then rest else Some(s)
  }

  /** Some draw from `i` on gives a board a score, so `find_winner` does not reach its
      `unreachable!`. */
  predicate WinnerAhead(boards: seq<Board>, numbers: seq<int>, i: nat)
    requires AllPlayable(boards) && i <= |numbers|
    decreases |numbers| - i
  {
    i < |numbers|
    && var next := Round(boards, numbers[i]);
       TopScoreFrom(next, 0).Some? || WinnerAhead(next, numbers, i + 1)
  }

  /** The loop of `find_winner` from draw `i` on. The boards are returned too: the source
      changes them in place, and `find_loser` continues from them. */
  function FindWinnerFrom(boards: seq<Board>, numbers: seq<int>, i: nat): (r: (int, seq<Board>))
    requires AllPlayable(boards) && i <= |numbers| && WinnerAhead(boards, numbers, i)
    decreases |numbers| - i
  {
    var next := Round(boards, numbers[i]);
    match TopScoreFrom(next, 0)
    case Some(top) => (top, next)
    case None => FindWinnerFrom(next, numbers, i + 1)
  }

  /** Every board after the draws `numbers`. */
  function Played(boards: seq<Board>, numbers: seq<int>): (after: seq<Board>)
    requires AllPlayable(boards)
    ensures |after| == |boards| && AllPlayable(after)
  {
    seq(|boards|, k requires 0 <= k < |boards| => CallAll(boards[k], numbers))
  }

  lemma PlayedStep(boards: seq<Board>, numbers: seq<int>, i: nat)
    requires AllPlayable(boards) && i < |numbers|
    ensures Round(Played(boards, numbers[..i]), numbers[i]) == Played(boards, numbers[..i + 1])
  {
    assert numbers[..i + 1][..i] == numbers[..i];
  }

  /** `find_winner` stops at the first draw after which some board has a score, and returns
      the best score at that point together with the boards as they are then. */
  lemma {:induction false} FindWinnerIsFirst(boards: seq<Board>, numbers: seq<int>, i: nat)
    requires AllPlayable(boards) && i <= |numbers|
    requires WinnerAhead(Played(boards, numbers[..i]), numbers, i)
    ensures var r := FindWinnerFrom(Played(boards, numbers[..i]), numbers, i);
            exists j :: i < j <= |numbers| && r.1 == Played(boards, numbers[..j])
                        && TopScoreFrom(r.1, 0) == Some(r.0)
                        && forall k :: i < k < j ==> TopScoreFrom(Played(boards, numbers[..k]), 0).None?
    decreases |numbers| - i
  {
    var cur := Played(boards, numbers[..i]);
    var r := FindWinnerFrom(cur, numbers, i);
    PlayedStep(boards, numbers, i);
    var next := Played(boards, numbers[..i + 1]);
    assert Round(cur, numbers[i]) == next;
    if TopScoreFrom(next, 0).Some? {
      assert r == (TopScoreFrom(next, 0).value, next);
      assert r.1 == Played(boards, numbers[..i + 1]);
    } else {
      assert WinnerAhead(next, numbers, i + 1);
      assert r == FindWinnerFrom(next, numbers, i + 1);
      FindWinnerIsFirst(boards, numbers, i + 1);
      var j :| i + 1 < j <= |numbers| && r.1 == Played(boards, numbers[..j])
               && TopScoreFrom(r.1, 0) == Some(r.0)
               && forall k :: i + 1 < k < j ==> TopScoreFrom(Played(boards, numbers[..k]), 0).None?;
      assert forall k :: i < k < j ==> TopScoreFrom(Played(boards, numbers[..k]), 0).None?;
    }
  }

  /** `find_winner`. */
  function FindWinner(boards: seq<Board>, numbers: seq<int>): (int, seq<Board>)
    requires AllPlayable(boards) && WinnerAhead(boards, numbers, 0)
  {
    FindWinnerFrom(boards, numbers, 0)
  }

  /** The largest `last_move` among the boards from `k` on. */
  function FinalMoveFrom(boards: seq<Board>, k: nat): (m: nat)
    requires k < |boards|
    ensures exists j :: k <= j < |boards| && boards[j].lastMove == m
    ensures forall j :: k <= j < |boards| ==> boards[j].lastMove <= m
    decreases |boards| - k
  {
    if k == |boards| - 1 then boards[k].lastMove
    else
      var rest := FinalMoveFrom(boards, k + 1);
      if boards[k].lastMove >= rest then boards[k].lastMove else rest
  }

  /** The smallest score among the boards from `k` on whose `last_move` is `m`. */
  function LowestScoreFrom(boards: seq<Board>, k: nat, m: nat): (r: Option<int>)
    requires k <= |boards|
    ensures r.None? <==> forall j :: k <= j < |boards| && boards[j].lastMove == m ==> boards[j].score.None?
    ensures r.Some? ==> (exists j :: k <= j < |boards| && boards[j].lastMove == m && boards[j].score == r)
                        && forall j :: k <= j < |boards| && boards[j].lastMove == m && boards[j].score.Some? ==>
                             r.value <= boards[j].score.value
    decreases |boards| - k
  {
    if k == |boards| then None
    else
      var rest := LowestScoreFrom(boards, k + 1, m);
      if boards[k].lastMove != m || boards[k].score.None? then rest
      else if rest.Some? && rest.value < boards[k].score.value then rest
      else boards[k].score
  }

  /** After every draw, some board with the greatest `last_move` has a score, so neither
      unwrapping in `find_loser` panics. */
  predicate LoserScored(boards: seq<Board>, numbers: seq<int>)
    requires AllPlayable(boards)
  {
    var after := Played(boards, numbers);
    |after| > 0 && LowestScoreFrom(after, 0, FinalMoveFrom(after, 0)).Some?
  }

  /** The draw loop of `find_loser`: every number in turn is called on every board. */
  function Rounds(boards: seq<Board>, numbers: seq<int>): (after: seq<Board>)
    requires AllPlayable(boards)
    ensures after == Played(boards, numbers)
    decreases |numbers|
  {
    if |numbers| == 0 then boards
    else
      var n := |numbers| - 1;
      PlayedStep(boards, numbers, n);
      assert numbers[..n + 1] == numbers;
      Round(Rounds(boards, numbers[..n]), numbers[n])
  }

  /** Board `w` of `after` has the greatest `last_move`, and `score` is its score and the
      least score of any board with that move. */
  predicate LoserAt(after: seq<Board>, w: nat, score: int) {
    && w < |after| && after[w].score == Some(score)
    && (forall j :: 0 <= j < |after| ==> after[j].lastMove <= after[w].lastMove)
    && forall j :: 0 <= j < |after| && after[j].lastMove == after[w].lastMove && after[j].score.Some? ==>
         score <= after[j].score.value
  }

  /** `find_loser`: play every draw, then take the lowest score among the boards whose
      `last_move` is the greatest. */
  function FindLoser(boards: seq<Board>, numbers: seq<int>): (score: int)
    requires AllPlayable(boards) && LoserScored(boards, numbers)
    ensures exists w :: LoserAt(Played(boards, numbers), w, score)
  {
    var after := Rounds(boards, numbers);
    var m := FinalMoveFrom(after, 0);
    var lowest := LowestScoreFrom(after, 0, m);
    assert exists w :: LoserAt(after, w, lowest.value) by {
      var w :| 0 <= w < |after| && after[w].lastMove == m && after[w].score == lowest;
      assert LoserAt(after, w, lowest.value);
    }
    lowest.value
  }

  /** A board with the greatest `last_move` whose score `find_loser` returns. */
  lemma LoserBoard(boards: seq<Board>, numbers: seq<int>) returns (w: nat)
    requires AllPlayable(boards) && LoserScored(boards, numbers)
    ensures w < |boards| && CallAll(boards[w], numbers).score == Some(FindLoser(boards, numbers))
    ensures forall j :: 0 <= j < |boards| ==> CallAll(boards[j], numbers).lastMove <= CallAll(boards[w], numbers).lastMove
  {
    var after, score := Played(boards, numbers), FindLoser(boards, numbers);
    w :| LoserAt(after, w, score);
    assert w < |after| && after[w].score == Some(score);
    forall j | 0 <= j < |boards| ensures CallAll(boards[j], numbers).lastMove <= CallAll(boards[w], numbers).lastMove {
      assert after[j].lastMove <= after[w].lastMove;
    }
  }

  /** A board that no call has touched yet. */
  predicate Fresh(b: Board) {
    Consistent(b) && !b.isWinner && b.lastMove == 0
  }

  /** A fresh board that wins within all the draws, at a call no later than `m`, has
      already won after the first `m` draws. */
  lemma WonBy(b: Board, numbers: seq<int>, m: nat)
    requires Fresh(b) && m <= |numbers|
    requires CallAll(b, numbers).isWinner && CallAll(b, numbers).lastMove <= m
    ensures CallAll(b, numbers[..m]).isWinner
  {
    LastMoveIsWinTime(b, numbers);
    var mo := CallAll(b, numbers).lastMove;
    assert numbers[..|numbers|] == numbers;
    WinStays(b, numbers, mo, m);
  }

  /** Board `b` first wins on call `m`. */
  predicate FirstWinAt(b: Board, numbers: seq<int>, m: nat)
    requires Playable(b) && m <= |numbers|
  {
    && CallAll(b, numbers[..m]).isWinner
    && forall k :: 0 <= k < m ==> !CallAll(b, numbers[..k]).isWinner
  }

  /** Every board that wins at all within `numbers` has won within the first `m` calls. */
  predicate AllWinnersBy(boards: seq<Board>, numbers: seq<int>, m: nat)
    requires AllPlayable(boards) && m <= |numbers|
  {
    forall o :: 0 <= o < |boards| && CallAll(boards[o], numbers).isWinner ==>
      CallAll(boards[o], numbers[..m]).isWinner
  }

  /** On fresh boards `find_loser` scores the board that wins last: it first wins on some
      call `m`, and every board that wins at all has won by then. */
  lemma FindLoserIsLastWinner(boards: seq<Board>, numbers: seq<int>)
    requires AllPlayable(boards) && forall k :: 0 <= k < |boards| ==> Fresh(boards[k])
    requires LoserScored(boards, numbers)
    ensures exists w, m :: 0 <= w < |boards| && 0 < m <= |numbers|
                           && CallAll(boards[w], numbers).score == Some(FindLoser(boards, numbers))
                           && FirstWinAt(boards[w], numbers, m)
                           && AllWinnersBy(boards, numbers, m)
  {
    var w := LoserBoard(boards, numbers);
    var b := boards[w];
    LastMoveIsWinTime(b, numbers);
    CallAllKeepsConsistent(b, numbers);
    var m := CallAll(b, numbers).lastMove;
    assert m <= |numbers|;
    WonBy(b, numbers, m);
    assert m > 0 by {
      assert numbers[..0] == [];
      assert CallAll(b, numbers[..0]) == b;
    }
    assert FirstWinAt(b, numbers, m);
    AllWonBy(boards, numbers, m);
  }

  /** Every fresh board that wins at all, with its win no later than call `m`, has won by
      call `m`. */
  lemma AllWonBy(boards: seq<Board>, numbers: seq<int>, m: nat)
    requires AllPlayable(boards) && forall k :: 0 <= k < |boards| ==> Fresh(boards[k])
    requires m <= |numbers| && forall j :: 0 <= j < |boards| ==> CallAll(boards[j], numbers).lastMove <= m
    ensures AllWinnersBy(boards, numbers, m)
  {
    forall o | 0 <= o < |boards| && CallAll(boards[o], numbers).isWinner
      ensures CallAll(boards[o], numbers[..m]).isWinner
    {
      WonBy(boards[o], numbers, m);
    }
  }

  // ----- reading a board ----------------------------------------------------------------

  /** `BingoSquare::new`: an unmarked square holding the `i32` the text spells. */
  function NewSquare(val: string): (r: Result<Square, BingoError>)
    ensures r.Ok? <==> ParseI32(val).Ok?
    ensures r.Ok? ==> r.value == Square(ParseI32(val).value, false)
    ensures r.Err? ==> r.error == NotANumber
  {
    match ParseI32(val)
    case Ok(n) => Ok(Square(n, false))
    case Err(_) => Err(NotANumber)
  }

  /** The pieces of a row line. */
  function RowWords(data: string): seq<string> {
    SplitWhitespace(Trim(data))
  }

  /** The pieces from `i` on read as unmarked squares; the first piece that is not an
      `i32` fails them all. */
  function SquaresFrom(words: seq<string>, i: nat): (r: Result<seq<Square>, BingoError>)
    requires i <= |words|
    ensures r.Ok? <==> forall k :: i <= k < |words| ==> ParseI32(words[k]).Ok?
    ensures r.Err? ==> r.error == NotANumber
    ensures r.Ok? ==> && |r.value| == |words| - i
                      && forall k :: i <= k < |words| ==> r.value[k - i] == Square(ParseI32(words[k]).value, false)
    decreases |words| - i
  {
    if i == |words| then Ok([])
    else
      match NewSquare(words[i])
      case Err(e) => Err(e)
      case Ok(sq) =>
        match SquaresFrom(words, i + 1)
        case Err(e) => Err(e)
        case Ok(rest) => Ok([sq] + rest)
  }

  /** The pieces of a row line read as unmarked squares: every piece must be an `i32`,
      and the first one that is not fails the row. */
  function ParseRow(data: string): (r: Result<seq<Square>, BingoError>)
    ensures var words := RowWords(data);
            && (r.Ok? <==> forall k :: 0 <= k < |words| ==> ParseI32(words[k]).Ok?)
            && (r.Err? ==> r.error == NotANumber)
            && (r.Ok? ==> && |r.value| == |words|
                          && forall k :: 0 <= k < |words| ==> r.value[k] == Square(ParseI32(words[k]).value, false))
  {
    SquaresFrom(RowWords(data), 0)
  }

  /** `add_row`. */
  function AddRow(b: Board, data: string): Result<Board, BingoError> {
    var row := ParseRow(data);
    if row.Err? then Err(row.error)
    else if |row.value| != b.rowLen then Err(InvalidRowLength)
    else Ok(b.(squares := b.squares + row.value))
  }

  /** `add_row` takes a line of exactly `rowLen` pieces that are all `i32`s and appends
      them as unmarked squares, changing nothing else; a piece that is not an `i32` fails
      with `NotANumber` before the length is looked at. */
  lemma AddRowSpec(b: Board, data: string)
    ensures var r, words := AddRow(b, data), RowWords(data);
            && (r.Ok? <==> (forall k :: 0 <= k < |words| ==> ParseI32(words[k]).Ok?) && |words| == b.rowLen)
            && (r.Err? ==> (r.error == InvalidRowLength <==> forall k :: 0 <= k < |words| ==> ParseI32(words[k]).Ok?))
            && (r.Ok? ==> && r.value == b.(squares := r.value.squares)
                          && |r.value.squares| == |b.squares| + |words|
                          && r.value.squares[..|b.squares|] == b.squares
                          && forall k :: 0 <= k < |words| ==>
                               r.value.squares[|b.squares| + k] == Square(ParseI32(words[k]).value, false))
  {
  }

  /** What reading a row does to the board, without the contents of the row. */
  lemma AddRowGrows(b: Board, data: string)
    ensures var r := AddRow(b, data);
            && (r.Ok? ==> && r.value == b.(squares := r.value.squares)
                          && |r.value.squares| == |b.squares| + b.rowLen
                          && r.value.squares[..|b.squares|] == b.squares)
  {
    var r := AddRow(b, data);
    if r.Ok? {
      assert r.value.squares[..|b.squares|] == b.squares;
    }
  }

  /** Whether and why a row is refused depends only on the row length. */
  lemma AddRowFailsAlike(b: Board, c: Board, data: string)
    requires c.rowLen == b.rowLen
    ensures AddRow(c, data).Err? <==> AddRow(b, data).Err?
    ensures AddRow(b, data).Err? ==> AddRow(c, data) == AddRow(b, data)
  {
  }

  /** A board before any row is read. */
  const EMPTY_BOARD: Board := Board([], 5, 5, false, None, 0)

  /** `Board::new` does not panic from line `k` on: a line is there for every iteration of
      its loop that is reached. */
  predicate LinesLast(lines: seq<string>, k: nat, b: Board)
    requires k <= b.colLen
    decreases b.colLen - k
  {
    k == b.colLen
    || (k < |lines|
        && (lines[k] == ""
            || match AddRow(b, lines[k])
               case Err(_) => true
               case Ok(more) => more.colLen == b.colLen && LinesLast(lines, k + 1, more)))
  }

  /** How many rows the lines `k..used` hold: all of them, except a closing empty line. */
  function RowsRead(lines: seq<string>, k: nat, used: nat): nat
    requires k <= used <= |lines|
  {
    if used > k && lines[used - 1] == "" then used - k - 1 else used - k
  }

  /** What reading lines `k..used` into `b` gives: `nb` is `b` with one row more for each
      line read, where only the last line read may be empty. */
  predicate ReadShape(lines: seq<string>, k: nat, b: Board, nb: Board, used: nat) {
    && k <= used <= b.colLen && used <= |lines|
    && nb == b.(squares := nb.squares)
    && |nb.squares| == |b.squares| + Times(b.rowLen, RowsRead(lines, k, used))
    && nb.squares[..|b.squares|] == b.squares
    && (forall j :: k <= j < used - 1 ==> lines[j] != "")
  }

  /** The loop of `Board::new` from iteration `k` on; also says how many lines it took. */
  function ReadRows(lines: seq<string>, k: nat, b: Board): Result<(Board, nat), BingoError>
    requires k <= b.colLen && LinesLast(lines, k, b)
    decreases b.colLen - k
  {
    if k == b.colLen then Ok((b, k))
    else if lines[k] == "" then Ok((b, k + 1))
    else
      match AddRow(b, lines[k])
      case Err(e) => Err(e)
      case Ok(more) => ReadRows(lines, k + 1, more)
  }

  /** A row added in front keeps the shape of what is read after it. */
  lemma ReadShapeStep(lines: seq<string>, k: nat, b: Board, more: Board, nb: Board, used: nat)
    requires k < b.colLen && k < |lines| && lines[k] != "" && AddRow(b, lines[k]) == Ok(more)
    requires ReadShape(lines, k + 1, more, nb, used)
    ensures ReadShape(lines, k, b, nb, used)
  {
    AddRowGrows(b, lines[k]);
    assert RowsRead(lines, k, used) == RowsRead(lines, k + 1, used) + 1;
    assert nb.squares[..|b.squares|] == more.squares[..|b.squares|];
  }

  /** `n` rows of `a` squares, counted row by row. */
  function Times(a: nat, n: nat): (t: nat)
    ensures t == a * n
  {
    if n == 0 then 0 else Times(a, n - 1) + a
  }

  /** Reading stops without a new row at an empty line or once all rows are read. */
  lemma ReadRowsStops(lines: seq<string>, k: nat, b: Board)
    requires k <= b.colLen && k <= |lines| && LinesLast(lines, k, b)
    requires k == b.colLen || lines[k] == ""
    ensures var used := if k == b.colLen then k else k + 1;
            ReadRows(lines, k, b) == Ok((b, used)) && ReadShape(lines, k, b, b, used)
  {
    var used := if k == b.colLen then k else k + 1;
    assert RowsRead(lines, k, used) == 0 && Times(b.rowLen, 0) == 0;
    assert b.squares[..|b.squares|] == b.squares;
  }

  /** What reading from line `k` into `b` gives when it ends in `r`: the rows read, or the
      error of the first line refused. */
  ghost predicate ReadOutcome(lines: seq<string>, k: nat, b: Board, r: Result<(Board, nat), BingoError>) {
    && (r.Ok? ==> ReadShape(lines, k, b, r.value.0, r.value.1))
    && (r.Err? ==> exists j :: FirstRefused(lines, k, b, j, r.error))
  }

  /** Each line read before an empty one, or before the board has `colLen` rows, adds a
      row; the first row that `add_row` refuses fails the board, and every line before it
      is a row it accepts. Whether a row is accepted depends only on the board's width
      (`AddRowFailsAlike`), so `b` stands for the board the row is added to. */
  lemma {:induction false} ReadRowsSpec(lines: seq<string>, k: nat, b: Board)
    requires k <= b.colLen && k <= |lines| && LinesLast(lines, k, b)
    ensures ReadOutcome(lines, k, b, ReadRows(lines, k, b))
    decreases b.colLen - k
  {
    if k == b.colLen || lines[k] == "" {
      ReadRowsStops(lines, k, b);
    } else if AddRow(b, lines[k]).Err? {
      ReadRowsRefused(lines, k, b);
    } else {
      var more := AddRow(b, lines[k]).value;
      AddRowGrows(b, lines[k]);
      assert LinesLast(lines, k + 1, more);
      ReadRowsSpec(lines, k + 1, more);
      ReadRowsAfterRow(lines, k, b, more);
    }
  }

  /** A refused row at line `k` fails the board with its error. */
  lemma ReadRowsRefused(lines: seq<string>, k: nat, b: Board)
    requires k < b.colLen && k < |lines| && LinesLast(lines, k, b)
    requires lines[k] != "" && AddRow(b, lines[k]).Err?
    ensures ReadRows(lines, k, b) == Err(AddRow(b, lines[k]).error)
    ensures FirstRefused(lines, k, b, k, AddRow(b, lines[k]).error)
  {
  }

  /** A row accepted at line `k` leaves what is read after it what is read from `k` on. */
  lemma ReadRowsAfterRow(lines: seq<string>, k: nat, b: Board, more: Board)
    requires k < b.colLen && k < |lines| && lines[k] != "" && AddRow(b, lines[k]) == Ok(more)
    requires more == b.(squares := more.squares) && LinesLast(lines, k, b) && LinesLast(lines, k + 1, more)
    requires ReadOutcome(lines, k + 1, more, ReadRows(lines, k + 1, more))
    ensures ReadOutcome(lines, k, b, ReadRows(lines, k, b))
  {
    var r := ReadRows(lines, k + 1, more);
    assert ReadRows(lines, k, b) == r;
    if r.Ok? {
      ReadShapeStep(lines, k, b, more, r.value.0, r.value.1);
    } else {
      var j :| FirstRefused(lines, k + 1, more, j, r.error);
      assert Accepted(b, lines[k]);
      RefusedAfterRow(lines, k, b, more, j, r.error);
    }
  }

  /** Line `j` is the first line from `k` on that `add_row` refuses, with error `e`: it is
      not empty, and every line before it is a row `add_row` accepts. */
  predicate FirstRefused(lines: seq<string>, k: nat, b: Board, j: nat, e: BingoError) {
    && k <= j < b.colLen && j < |lines| && Refused(b, lines[j], e)
    && forall i :: k <= i < j ==> Accepted(b, lines[i])
  }

  /** `add_row` refuses line `l` as a row of `b`, with error `e`. */
  predicate Refused(b: Board, l: string, e: BingoError) {
    l != "" && AddRow(b, l) == Err(e)
  }

  /** Whether a line is taken as a row depends only on the board's width. */
  lemma AcceptedAlike(b: Board, c: Board, l: string)
    requires c.rowLen == b.rowLen
    ensures Accepted(b, l) <==> Accepted(c, l)
    ensures forall e :: Refused(b, l, e) <==> Refused(c, l, e)
  {
    AddRowFailsAlike(b, c, l);
    AddRowFailsAlike(c, b, l);
  }

  /** `add_row` takes line `l` as a row of `b`. */
  predicate Accepted(b: Board, l: string) {
    l != "" && AddRow(b, l).Ok?
  }

  /** A row accepted at line `k` leaves the first refused line after it the first one from
      `k` on. */
  lemma RefusedAfterRow(lines: seq<string>, k: nat, b: Board, more: Board, j: nat, e: BingoError)
    requires k < |lines| && Accepted(b, lines[k])
    requires more.rowLen == b.rowLen && more.colLen == b.colLen
    requires FirstRefused(lines, k + 1, more, j, e)
    ensures FirstRefused(lines, k, b, j, e)
  {
    AcceptedAlike(b, more, lines[j]);
    AcceptedBefore(lines, k + 1, b, more, j);
  }

  /** Lines taken as rows of one board are taken as rows of any board of its width. */
  lemma AcceptedBefore(lines: seq<string>, k: nat, b: Board, more: Board, j: nat)
    requires more.rowLen == b.rowLen && j <= |lines|
    requires forall i :: k <= i < j ==> Accepted(more, lines[i])
    ensures forall i :: k <= i < j ==> Accepted(b, lines[i])
  {
    forall i | k <= i < j ensures Accepted(b, lines[i]) {
      AcceptedAlike(b, more, lines[i]);
    }
  }

  /** `Board::new`: at most five rows of five, ended early by an empty line. */
  function NewBoard(lines: seq<string>): (r: Result<(Board, nat), BingoError>)
    requires LinesLast(lines, 0, EMPTY_BOARD)
    ensures r.Ok? ==> ReadShape(lines, 0, EMPTY_BOARD, r.value.0, r.value.1)
    ensures r.Err? ==> exists j :: FirstRefused(lines, 0, EMPTY_BOARD, j, r.error)
  {
    ReadRowsSpec(lines, 0, EMPTY_BOARD);
    ReadRows(lines, 0, EMPTY_BOARD)
  }

  // ----- reading what was written -------------------------------------------------------

  /** A row as the puzzle prints it: the numbers separated by single spaces. */
  function ShowRow(row: seq<int>): string
    requires |row| >= 1
  {
    Join(seq(|row|, k requires 0 <= k < |row| => ShowInt(row[k])), " ")
  }

  predicate InI32(row: seq<int>) {
    forall k :: 0 <= k < |row| ==> I32_MIN <= row[k] <= I32_MAX
  }

  /** A printed row splits back into its numbers. */
  lemma RowWordsOfShowRow(row: seq<int>)
    requires |row| >= 1
    ensures RowWords(ShowRow(row)) == seq(|row|, k requires 0 <= k < |row| => ShowInt(row[k]))
    ensures ShowRow(row) != ""
  {
    var words := seq(|row|, k requires 0 <= k < |row| => ShowInt(row[k]));
    forall k | 0 <= k < |words|
      ensures IsWord(words[k])
    {
      assert forall c :: c in words[k] ==> c == '-' || IsDigit(c);
      forall i | 0 <= i < |words[k]|
        ensures !IsWhitespace(words[k][i])
      {
        assert words[k][i] in words[k];
      }
    }
    JoinEnds(words);
    TrimWords(Join(words, " "));
    SplitWhitespaceJoin(words);
  }

  /** Numbers as unmarked squares. */
  function Unmarked(row: seq<int>): (squares: seq<Square>)
    ensures |squares| == |row|
  {
    seq(|row|, k requires 0 <= k < |row| => Square(row[k], false))
  }

  /** `add_row` reads a printed row of `rowLen` numbers back as those numbers, unmarked. */
  lemma AddRowRoundTrip(b: Board, row: seq<int>)
    requires |row| == b.rowLen >= 1 && InI32(row)
    ensures AddRow(b, ShowRow(row)) == Ok(b.(squares := b.squares + Unmarked(row)))
  {
    RowWordsOfShowRow(row);
    var words := RowWords(ShowRow(row));
    forall k | 0 <= k < |row|
      ensures ParseI32(words[k]) == Ok(row[k])
    {
      assert words[k] == ShowInt(row[k]);
      ParseShowInt(row[k]);
    }
    var parsed := ParseRow(ShowRow(row));
    assert parsed.Ok?;
    assert parsed.value == Unmarked(row) by {
      forall k | 0 <= k < |row| ensures parsed.value[k] == Unmarked(row)[k] {
        assert parsed.value[k] == Square(ParseI32(words[k]).value, false);
      }
    }
  }

  /** Rows of numbers one after the other, as a board keeps them. */
  function Grid(rows: seq<seq<int>>): seq<Square>
    decreases |rows|
  {
    if |rows| == 0 then [] else Grid(rows[..|rows| - 1]) + Unmarked(rows[|rows| - 1])
  }

  /** Up to five printed rows of five `i32`s, followed by an empty line unless there are
      five. */
  predicate PrintedBoard(lines: seq<string>, rows: seq<seq<int>>) {
    && |rows| <= 5
    && (forall i :: 0 <= i < |rows| ==> |rows[i]| == 5 && InI32(rows[i]))
    && |rows| <= |lines|
    && (forall i :: 0 <= i < |rows| ==> lines[i] == ShowRow(rows[i]))
    && (|rows| == 5 || (|rows| < |lines| && lines[|rows|] == ""))
  }

  lemma {:induction false} ReadPrintedRows(lines: seq<string>, rows: seq<seq<int>>, k: nat)
    requires PrintedBoard(lines, rows) && k <= |rows|
    ensures var b := EMPTY_BOARD.(squares := Grid(rows[..k]));
            && LinesLast(lines, k, b)
            && ReadRows(lines, k, b) == Ok((EMPTY_BOARD.(squares := Grid(rows)), if |rows| == 5 then 5 else |rows| + 1))
    decreases |rows| - k
  {
    var b := EMPTY_BOARD.(squares := Grid(rows[..k]));
    if k == |rows| {
      assert rows[..k] == rows;
    } else {
      var more := ReadPrintedRow(lines, rows, k);
      ReadPrintedRows(lines, rows, k + 1);
      assert ReadRows(lines, k, b) == ReadRows(lines, k + 1, more);
    }
  }

  /** Printed row `k` is added to the rows before it. */
  lemma ReadPrintedRow(lines: seq<string>, rows: seq<seq<int>>, k: nat) returns (more: Board)
    requires PrintedBoard(lines, rows) && k < |rows|
    ensures more == EMPTY_BOARD.(squares := Grid(rows[..k + 1]))
    ensures lines[k] != "" && AddRow(EMPTY_BOARD.(squares := Grid(rows[..k])), lines[k]) == Ok(more)
  {
    var b := EMPTY_BOARD.(squares := Grid(rows[..k]));
    AddRowRoundTrip(b, rows[k]);
    RowWordsOfShowRow(rows[k]);
    assert rows[..k + 1][..k] == rows[..k];
    assert Grid(rows[..k + 1]) == Grid(rows[..k]) + Unmarked(rows[k]);
    more := EMPTY_BOARD.(squares := Grid(rows[..k + 1]));
  }

  /** `Board::new` reads a printed board back: the rows, in order, as unmarked squares,
      having taken the five rows or the rows and the empty line after them. */
  lemma NewBoardRoundTrip(lines: seq<string>, rows: seq<seq<int>>)
    requires PrintedBoard(lines, rows)
    ensures LinesLast(lines, 0, EMPTY_BOARD)
    ensures NewBoard(lines) == Ok((EMPTY_BOARD.(squares := Grid(rows)), if |rows| == 5 then 5 else |rows| + 1))
  {
    ReadPrintedRows(lines, rows, 0);
    assert rows[..0] == [];
    assert EMPTY_BOARD.(squares := Grid(rows[..0])) == EMPTY_BOARD;
  }
}
