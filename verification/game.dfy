/** The tic-tac-toe `Game` and its states (ticTacToeMain.java, sections 10-14).
    Players are identified by their marks; player input is a given sequence
    of positions, one consumed per in-progress turn. */
module Games {
  import opened Boards

  datatype GameState = InProgress | Won(winner: Mark) | Drawn

  datatype Game = Game(board: Board, current: Mark, state: GameState, running: bool)

  /** `switchPlayer`: hands the turn to the other player. */
  function SwitchPlayer(m: Mark): (r: Mark)
    ensures r != m
  {
    if m == X then O else X
  }

  /** Switching twice gives the turn back: the players strictly alternate. */
  lemma SwitchPlayerAlternates(m: Mark)
    ensures SwitchPlayer(SwitchPlayer(m)) == m
    ensures m == X <==> SwitchPlayer(m) == O
  {
  }

  /** The `Game` constructor: X moves first, the game is in progress. */
  function NewGame(b: Board): (g: Game)
    ensures g.board == b && g.current == X && g.state == InProgress && g.running
  {
    Game(b, X, InProgress, true)
  }

  /** `InProgressState.play` with the current player's chosen position. */
  function PlayInProgress(g: Game, p: Position): (r: Game)
    requires Valid(g.board) && g.state == InProgress
    ensures Valid(r.board) && r.board.size == g.board.size && r.running == g.running
    ensures !IsValidMove(g.board, p) ==> r == g
    ensures IsValidMove(g.board, p) ==>
      var (_, b') := MakeMove(g.board, p, g.current);
      && r.board == b'
      && (HasLine(b', g.current) ==> r.state == Won(g.current) && r.current == g.current)
      && (!HasLine(b', g.current) && Full(b') ==> r.state == Drawn && r.current == g.current)
      && (!HasLine(b', g.current) && !Full(b') ==>
            r.state == InProgress && r.current == SwitchPlayer(g.current))
  {
    var (ok, b') := MakeMove(g.board, p, g.current);
    if !ok then g
    else if HasLine(b', g.current) then g.(board := b', state := Won(g.current))
    else if Full(b') then g.(board := b', state := Drawn)
    else g.(board := b', current := SwitchPlayer(g.current))
  }

  /** `WinState.play` and `DrawState.play`: announce the result and stop. */
  function PlayOver(g: Game): (r: Game)
    requires g.state != InProgress
    ensures !r.running
    ensures r.board == g.board && r.state == g.state && r.current == g.current
  {
    g.(running := false)
  }

  /** `Game.start`: play while running, one move from `moves` per in-progress
      turn. Stops early when the input is exhausted in mid-game. */
  function Run(g: Game, moves: seq<Position>): (r: Game)
    requires Valid(g.board)
    ensures Valid(r.board) && r.board.size == g.board.size
    ensures !g.running ==> r == g
    ensures r.running ==> r.state == InProgress
    decreases |moves| + (if g.running then 1 else 0)
  {
    if !g.running then g
    else if g.state == InProgress then
      if |moves| == 0 then g
      else Run(PlayInProgress(g, moves[0]), moves[1..])
    else Run(PlayOver(g), moves)
  }

  /** The player to move is X when both have moved equally often, O when X
      has moved once more. */
  ghost predicate Balanced(b: Board, toMove: Mark) {
    if toMove == X then Count(b, X) == Count(b, O) else Count(b, X) == Count(b, O) + 1
  }

  /** What holds of every game reachable from a new board of size at least
      one: a game in progress has no line and a free cell; a won game has a
      line for the winner only, who moved last; a drawn game is full. */
  ghost predicate GameInvariant(g: Game) {
    && Valid(g.board)
    && g.board.size >= 1
    && match g.state
       case InProgress =>
         && g.running
         && Balanced(g.board, g.current)
         && !HasLine(g.board, X) && !HasLine(g.board, O)
         && !Full(g.board)
       case Won(w) =>
         && w == g.current
         && Balanced(g.board, SwitchPlayer(w))
         && HasLine(g.board, w) && !HasLine(g.board, SwitchPlayer(w))
       case Drawn =>
         && Balanced(g.board, SwitchPlayer(g.current))
         && Full(g.board)
  }

  lemma NewGameSatisfiesInvariant(n: nat)
    requires n >= 1
    ensures GameInvariant(NewGame(NewBoard(n)))
  {
    NewBoardIsOpen(n);
  }

  /** One in-progress turn keeps the invariant. */
  lemma PlayKeepsInvariant(g: Game, p: Position)
    requires GameInvariant(g) && g.state == InProgress
    ensures GameInvariant(PlayInProgress(g, p))
  {
    if IsValidMove(g.board, p) {
      var other := SwitchPlayer(g.current);
      MoveCounts(g.board, p, g.current, other);
      MoveKeepsOtherLines(g.board, p, g.current, other);
    }
  }

  /** Running the game on any input keeps the invariant. */
  lemma {:induction false} RunKeepsInvariant(g: Game, moves: seq<Position>)
    requires GameInvariant(g)
    ensures GameInvariant(Run(g, moves))
    decreases |moves| + (if g.running then 1 else 0)
  {
    if !g.running {
    } else if g.state == InProgress {
      if |moves| > 0 {
        PlayKeepsInvariant(g, moves[0]);
        RunKeepsInvariant(PlayInProgress(g, moves[0]), moves[1..]);
      }
    } else {
      RunKeepsInvariant(PlayOver(g), moves);
    }
  }

  /** Once won or drawn, the next turn stops the game: no further move is
      read and the board stays as it is. */
  lemma FinishedGameStops(g: Game, moves: seq<Position>)
    requires Valid(g.board) && g.state != InProgress
    ensures Run(g, moves) == g.(running := false)
  {
  }

  /** A game that has stopped ignores any further input. */
  lemma {:induction false} StoppedGameIgnoresMoreInput(g: Game, moves: seq<Position>, more: seq<Position>)
    requires Valid(g.board)
    requires !Run(g, moves).running
    ensures Run(g, moves + more) == Run(g, moves)
    decreases |moves| + (if g.running then 1 else 0)
  {
    if !g.running {
    } else if g.state == InProgress {
      assert |moves| > 0;
      assert (moves + more)[0] == moves[0];
      assert (moves + more)[1..] == moves[1..] + more;
      StoppedGameIgnoresMoreInput(PlayInProgress(g, moves[0]), moves[1..], more);
    } else {
      StoppedGameIgnoresMoreInput(PlayOver(g), moves, more);
    }
  }

  /** A stopped game from a new board ended with a winner holding a line or
      with a full board. */
  lemma StoppedGameHasResult(n: nat, moves: seq<Position>)
    requires n >= 1
    ensures var g := Run(NewGame(NewBoard(n)), moves);
            !g.running ==>
              (g.state.Won? && HasLine(g.board, g.state.winner)) || (g.state == Drawn && Full(g.board))
  {
    NewGameSatisfiesInvariant(n);
    RunKeepsInvariant(NewGame(NewBoard(n)), moves);
  }

  /** Every empty cell of `b` is among the positions of `moves`. */
  ghost predicate ListsEveryEmptyCell(b: Board, moves: seq<Position>)
    requires Valid(b)
  {
    forall i, j :: 0 <= i < b.size && 0 <= j < b.size && b.grid[i][j] == Empty ==> Position(i, j) in moves
  }

  /** Each in-progress turn plays the next position: an input that names
      every empty cell ends any reachable game, by a win or a draw. */
  lemma {:induction false} ListingEveryEmptyCellEndsGame(g: Game, moves: seq<Position>)
    requires GameInvariant(g) && ListsEveryEmptyCell(g.board, moves)
    ensures !Run(g, moves).running
    decreases |moves| + (if g.running then 1 else 0)
  {
    if !g.running {
    } else if g.state == InProgress {
      if |moves| == 0 {
        // An in-progress game has an empty cell, and no input lists it.
        assert false;
      } else {
        var p := moves[0];
        var g' := PlayInProgress(g, p);
        assert moves == [p] + moves[1..];
        forall i, j | 0 <= i < g.board.size && 0 <= j < g.board.size && g'.board.grid[i][j] == Empty
          ensures Position(i, j) in moves[1..]
        {
          assert g.board.grid[i][j] == Empty;
          assert Position(i, j) != p;
        }
        PlayKeepsInvariant(g, p);
        ListingEveryEmptyCellEndsGame(g', moves[1..]);
      }
    } else {
      ListingEveryEmptyCellEndsGame(PlayOver(g), moves);
    }
  }

  /** From a new board, an input that lists every cell ends the game. */
  lemma ListingEveryCellEndsNewGame(n: nat, moves: seq<Position>)
    requires n >= 1
    requires forall i, j :: 0 <= i < n && 0 <= j < n ==> Position(i, j) in moves
    ensures var g := Run(NewGame(NewBoard(n)), moves);
            && !g.running
            && ((g.state.Won? && HasLine(g.board, g.state.winner)) || (g.state == Drawn && Full(g.board)))
  {
    NewGameSatisfiesInvariant(n);
    ListingEveryEmptyCellEndsGame(NewGame(NewBoard(n)), moves);
    StoppedGameHasResult(n, moves);
  }

  /** A valid move that gives the mover fewer than `size` marks and leaves
      the cell `q` free can neither win nor draw: it only passes the turn. */
  lemma QuietMove(g: Game, p: Position, q: Position)
    requires Valid(g.board) && g.state == InProgress && IsValidMove(g.board, p)
    requires Count(g.board, g.current) + 1 < g.board.size
    requires InBounds(g.board, q) && q != p && g.board.grid[q.row][q.col] == Empty
    ensures PlayInProgress(g, p) == g.(board := MakeMove(g.board, p, g.current).1, current := SwitchPlayer(g.current))
  {
    var b' := MakeMove(g.board, p, g.current).1;
    MoveCounts(g.board, p, g.current, SwitchPlayer(g.current));
    if HasLine(b', g.current) {
      LineNeedsSizeMarks(b', g.current);
    }
    assert b'.grid[q.row][q.col] == Empty;
  }

  /** The game after the first `k` moves of `TopRowMoves` (up to four). */
  function TopRowGame(k: nat): Game
    requires k <= 4
  {
    var x, o, e := Taken(X), Taken(O), Empty;
    match k
    case 0 => Game(Board(3, [[e, e, e], [e, e, e], [e, e, e]]), X, InProgress, true)
    case 1 => Game(Board(3, [[x, e, e], [e, e, e], [e, e, e]]), O, InProgress, true)
    case 2 => Game(Board(3, [[x, e, e], [o, e, e], [e, e, e]]), X, InProgress, true)
    case 3 => Game(Board(3, [[x, x, e], [o, e, e], [e, e, e]]), O, InProgress, true)
    case _ => Game(Board(3, [[x, x, e], [o, o, e], [e, e, e]]), X, InProgress, true)
  }

  /** X takes the top row while O fills the middle row. */
  const TopRowMoves: seq<Position> :=
    [Position(0, 0), Position(1, 0), Position(0, 1), Position(1, 1), Position(0, 2)]

  /** Two valid boards of one size with the same cells are equal. */
  lemma SameCells(b1: Board, b2: Board)
    requires Valid(b1) && Valid(b2) && b1.size == b2.size
    requires forall i, j :: 0 <= i < b1.size && 0 <= j < b1.size ==> b1.grid[i][j] == b2.grid[i][j]
    ensures b1 == b2
  {
    forall i | 0 <= i < b1.size
      ensures b1.grid[i] == b2.grid[i]
    {
    }
  }

  /** `g'` is `g` after the player to move marks the empty cell `p` of a
      3x3 board, with the corner (2,2) still free and the turn passed. */
  ghost predicate QuietlyFollows(g: Game, p: Position, g': Game) {
    && Valid(g.board) && g.board.size == 3 && g.state == InProgress
    && IsValidMove(g.board, p) && p != Position(2, 2) && g.board.grid[2][2] == Empty
    && Valid(g'.board) && g'.board.size == 3
    && g' == g.(board := g'.board, current := SwitchPlayer(g.current))
    && forall i, j :: 0 <= i < 3 && 0 <= j < 3 ==>
         g'.board.grid[i][j] == (if (i, j) == (p.row, p.col) then Taken(g.current) else g.board.grid[i][j])
  }

  /** A quiet move of the top-row game passes the turn and adds one mark. */
  lemma TopRowStep(g: Game, p: Position, g': Game)
    requires QuietlyFollows(g, p, g') && Count(g.board, g.current) + 1 < 3
    ensures PlayInProgress(g, p) == g'
    ensures Count(g'.board, g.current) == Count(g.board, g.current) + 1
    ensures Count(g'.board, SwitchPlayer(g.current)) == Count(g.board, SwitchPlayer(g.current))
  {
    QuietMove(g, p, Position(2, 2));
    MoveCounts(g.board, p, g.current, SwitchPlayer(g.current));
    SameCells(MakeMove(g.board, p, g.current).1, g'.board);
  }

  /** Each of the first four moves marks its cell and passes the turn. */
  lemma TopRowFollows(k: nat)
    requires 1 <= k <= 4
    ensures QuietlyFollows(TopRowGame(k - 1), TopRowMoves[k - 1], TopRowGame(k))
  {
  }

  /** The top-row game starts as a new game on a 3x3 board. */
  lemma TopRowStartsNew()
    ensures TopRowGame(0) == NewGame(NewBoard(3))
    ensures Count(TopRowGame(0).board, X) == 0 && Count(TopRowGame(0).board, O) == 0
  {
    SameCells(TopRowGame(0).board, NewBoard(3));
    NewBoardIsOpen(3);
  }

  lemma TopRowFirstMove()
    ensures PlayInProgress(TopRowGame(0), TopRowMoves[0]) == TopRowGame(1)
    ensures Count(TopRowGame(1).board, X) == 1 && Count(TopRowGame(1).board, O) == 0
  {
    TopRowStartsNew();
    TopRowFollows(1);
    TopRowStep(TopRowGame(0), TopRowMoves[0], TopRowGame(1));
  }

  lemma TopRowSecondMove()
    ensures PlayInProgress(TopRowGame(1), TopRowMoves[1]) == TopRowGame(2)
    ensures Count(TopRowGame(2).board, X) == 1 && Count(TopRowGame(2).board, O) == 1
  {
    TopRowFirstMove();
    TopRowFollows(2);
    TopRowStep(TopRowGame(1), TopRowMoves[1], TopRowGame(2));
  }

  lemma TopRowThirdMove()
    ensures PlayInProgress(TopRowGame(2), TopRowMoves[2]) == TopRowGame(3)
    ensures Count(TopRowGame(3).board, X) == 2 && Count(TopRowGame(3).board, O) == 1
  {
    TopRowSecondMove();
    TopRowFollows(3);
    TopRowStep(TopRowGame(2), TopRowMoves[2], TopRowGame(3));
  }

  lemma TopRowFourthMove()
    ensures PlayInProgress(TopRowGame(3), TopRowMoves[3]) == TopRowGame(4)
  {
    TopRowThirdMove();
    TopRowFollows(4);
    TopRowStep(TopRowGame(3), TopRowMoves[3], TopRowGame(4));
  }

  /** X's third mark completes the top row: X wins, and the game is still
      running until the next turn announces the result. */
  lemma TopRowLastMove()
    ensures var g := PlayInProgress(TopRowGame(4), TopRowMoves[4]);
            && g.running && g.state == Won(X)
            && g.board.grid[0] == [Taken(X), Taken(X), Taken(X)]
  {
    var g4, p := TopRowGame(4), Position(0, 2);
    assert IsValidMove(g4.board, p);
    var b := MakeMove(g4.board, p, X).1;
    assert b.grid[0] == [Taken(X), Taken(X), Taken(X)];
    assert RowComplete(b, 0, X);
  }

  /** On a 3x3 board, X at (0,0), (0,1), (0,2) against O at (1,0), (1,1)
      completes the top row on the fifth move: X wins and the game stops.
      Each in-progress turn plays the next position of the input. */
  lemma TopRowWin()
    ensures var g := Run(NewGame(NewBoard(3)), TopRowMoves);
            && !g.running && g.state == Won(X)
            && g.board.grid[0] == [Taken(X), Taken(X), Taken(X)]
  {
    var moves := TopRowMoves;
    TopRowStartsNew();
    TopRowFirstMove();
    TopRowSecondMove();
    TopRowThirdMove();
    TopRowFourthMove();
    TopRowLastMove();
    var g5 := PlayInProgress(TopRowGame(4), moves[4]);
    assert Run(TopRowGame(0), moves) == Run(TopRowGame(1), moves[1..]);
    assert Run(TopRowGame(1), moves[1..]) == Run(TopRowGame(2), moves[2..]);
    assert Run(TopRowGame(2), moves[2..]) == Run(TopRowGame(3), moves[3..]);
    assert Run(TopRowGame(3), moves[3..]) == Run(TopRowGame(4), moves[4..]);
    assert Run(TopRowGame(4), moves[4..]) == Run(g5, []);
  }
}
