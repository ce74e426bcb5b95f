/**
 * A game: a board, the side to move, a status and the history of moves made.
 * Moving delegates to the board and, on success, records the move and passes
 * the turn. Neither the side to move nor the status restricts which piece moves.
 */
module Games {
  import opened Models
  import opened Grids
  import MoveRules
  import opened Chessboard

  datatype GameStatus = InProgress | Checkmate | Stalemate

  /** One history line: the side to move when the move was made, and the move. */
  datatype HistoryEntry = HistoryEntry(mover: Color, src: Square, dst: Square)

  class Game {
    /** An identifier supplied by the caller; it plays no part in the rules. */
    const id: string
    const board: Board
    var turn: Color
    var status: GameStatus
    var history: seq<HistoryEntry>

    ghost predicate Valid()
      reads this, board, board.grid
    {
      board.Valid()
    }

    /** A fresh game: the starting position, White to move, in progress, no history. */
    constructor (id: string)
      ensures Valid() && fresh(board) && fresh(board.grid)
      ensures this.id == id
      ensures board.cells == StartGrid()
      ensures turn == White && status == InProgress && history == []
    {
      this.id := id;
      board := new Board();
      turn := White;
      status := InProgress;
      history := [];
    }

    /**
     * Moves the piece on `src` to `dst` if the game is in progress and the board
     * accepts the move. On success the history gains one entry naming the side
     * that was to move, whatever the colour of the piece moved, and the turn
     * passes; on failure nothing changes. The status is never changed.
     */
    method Move(src: Square, dst: Square) returns (moved: bool)
      requires Valid() && (status == InProgress ==> InBounds(src))
      modifies this, board, board.grid
      ensures Valid()
      ensures status == old(status)
      ensures moved <==>
        old(status) == InProgress && At(old(board.cells), src).Some? &&
        dst in MoveRules.Moves(old(board.cells), src)
      ensures moved ==> InBounds(dst) && src != dst
      ensures moved ==> board.cells == Apply(old(board.cells), src, dst)
      ensures moved ==> history == old(history) + [HistoryEntry(old(turn), src, dst)]
      ensures moved ==> turn == Opposite(old(turn))
      ensures !moved ==> board.cells == old(board.cells) && history == old(history) && turn == old(turn)
    {
      if status != InProgress {
        return false;
      }
      moved := board.Move(src, dst);
      if moved {
        history := history + [HistoryEntry(turn, src, dst)];
        turn := Opposite(turn);
      }
    }
  }

  /** The opening from the game tests: e2-e4 for White, then e7-e5 for Black, both accepted. */
  method OpeningScenario() returns (first: bool, second: bool)
    ensures first && second
  {
    var game := new Game("opening");
    MoveRules.StartingPawnMoves(4);
    first := game.Move((4, 1), (4, 3));
    KingsPawnReply();
    second := game.Move((4, 6), (4, 4));
  }

  /** After e2-e4 Black's e-pawn may still make its double step. */
  lemma KingsPawnReply()
    ensures (4, 4) in MoveRules.Moves(Apply(StartGrid(), (4, 1), (4, 3)), (4, 6))
  {
    var g := Apply(StartGrid(), (4, 1), (4, 3));
    assert At(g, (4, 6)) == Some(Piece(Black, Pawn));
    assert IsEmpty(g, (4, 5)) && IsEmpty(g, (4, 4));
    MoveRules.PawnMovesSpec(g, Black, (4, 6));
  }

  /**
   * Black may move first: the move is accepted, the turn passes to Black, and the
   * history records White, the side that was to move, beside Black's pawn move.
   */
  method BlackMovesFirstScenario() returns (moved: bool, turn: Color, history: seq<HistoryEntry>)
    ensures moved && turn == Black
    ensures history == [HistoryEntry(White, (4, 6), (4, 4))]
  {
    var game := new Game("black first");
    MoveRules.StartingPawnMoves(4);
    moved := game.Move((4, 6), (4, 4));
    turn := game.turn;
    history := game.history;
  }

  /** A pawn may not advance three squares: the move is refused and the turn stays with White. */
  method TripleStepRefused() returns (moved: bool, turn: Color, history: seq<HistoryEntry>)
    ensures !moved && turn == White && history == []
  {
    var game := new Game("triple");
    assert (4, 4) !in MoveRules.Moves(StartGrid(), (4, 1)) by {
      MoveRules.StartingPawnMoves(4);
    }
    moved := game.Move((4, 1), (4, 4));
    turn := game.turn;
    history := game.history;
  }
}
