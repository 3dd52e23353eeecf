/** The state of a shogi game and the human player's actions on it: moving a
    selected piece, dropping a piece from hand, and handing the turn over
    with the check / checkmate announcement. */
module ShogiGame {
  import opened Wrappers
  import opened Grid
  import opened Seqs
  import opened ShogiPieces
  import opened ShogiBoard
  import opened ShogiMoves
  import opened ShogiRules

  /** What the status line announces for the side to move. */
  datatype Status = Ongoing | Check | Mate(winner: Player)

  /** A game: the board, each player's captured pieces (base types, in
      capture order), the side to move, the announcement, and whether Gote
      is played by the computer. */
  datatype GameState = GameState(
    board: Board,
    senteHand: seq<PieceType>,
    goteHand: seq<PieceType>,
    turn: Player,
    status: Status,
    singlePlayer: bool)

  /** Why a human action was refused. Every refusal leaves the game as it
      was. */
  datatype Rejection =
    | GameOver          // the game has ended in checkmate
    | ComputerToMove    // Gote's turn in a game against the computer
    | NotOwnPiece       // no piece of the side to move on the selected square
    | SameSquare        // the selected square again: the selection is dropped
    | OwnPieceOnTarget  // another own piece: the selection moves to it
    | Unreachable       // the piece cannot move there
    | NotInHand         // no such piece in the mover's hand
    | Occupied          // a drop onto an occupied square
    | InvalidDrop       // a drop the drop rules forbid
    | SelfCheck         // the action would leave the mover's king in check

  predicate IsOver(s: GameState) {
    s.status.Mate?
  }

  function Hand(s: GameState, p: Player): seq<PieceType> {
    if p == Sente then s.senteHand else s.goteHand
  }

  /** `s` with `p`'s hand replaced by `h`; the other hand unchanged. */
  function WithHand(s: GameState, p: Player, h: seq<PieceType>): (r: GameState)
    ensures Hand(r, p) == h && Hand(r, Opponent(p)) == Hand(s, Opponent(p))
    ensures r.board == s.board && r.turn == s.turn && r.status == s.status
  {
    if p == Sente then s.(senteHand := h) else s.(goteHand := h)
  }

  /** Pieces on the board plus pieces in both hands. */
  function TotalPieces(s: GameState): nat {
    PieceCount(s.board) + |s.senteHand| + |s.goteHand|
  }

  /** A new game: the starting layout, empty hands, Sente to move. */
  function NewGame(singlePlayer: bool): (s: GameState)
    ensures s.turn == Sente && s.status == Ongoing && s.singlePlayer == singlePlayer
    ensures s.senteHand == [] && s.goteHand == []
  {
    GameState(InitialBoard(), [], [], Sente, Ongoing, singlePlayer)
  }

  /** A board in the starting layout holds two full sets (40 pieces, each
      side one king, rook and bishop, two golds, silvers, knights and
      lances and nine pawns), has the kings on the middle of the back
      ranks, and no file holding two pawns of one side. */
  lemma LayoutFacts(b: Board)
    requires StartLayout(b)
    ensures PieceCount(b) == 40
    ensures forall x :: Count(b, x) == StartCount(x)
    ensures KingPosition(b, Sente) == Some(Pos(8, 4)) && KingPosition(b, Gote) == Some(Pos(0, 4))
    ensures NoNifu(b, Sente) && NoNifu(b, Gote)
  {
    forall x ensures Count(b, x) == StartCount(x) {
      LayoutComposition(b, x);
    }
    LayoutKing(b, Sente);
    LayoutKing(b, Gote);
    forall p: Player, r1, r2, c |
      0 <= r1 < 9 && 0 <= r2 < 9 && 0 <= c < 9
      && At(b, Pos(r1, c)) == Some(Piece(Pawn, p, false))
      && At(b, Pos(r2, c)) == Some(Piece(Pawn, p, false))
      ensures r1 == r2
    {
      LayoutPlacement(b, Pos(r1, c), p);
      LayoutPlacement(b, Pos(r2, c), p);
    }
  }

  /** A new game starts with empty hands and 40 pieces on the board. */
  lemma NewGamePieces(singlePlayer: bool)
    ensures TotalPieces(NewGame(singlePlayer)) == 40
  {
    InitialLayout();
    LayoutFacts(InitialBoard());
  }

  /** In a new game each king stands on the middle of its back rank. */
  lemma NewGameKings(singlePlayer: bool)
    ensures KingPosition(NewGame(singlePlayer).board, Sente) == Some(Pos(8, 4))
    ensures KingPosition(NewGame(singlePlayer).board, Gote) == Some(Pos(0, 4))
  {
    InitialLayout();
    LayoutFacts(InitialBoard());
  }

  /** A new game has no file with two pawns of one side. */
  lemma NewGameNoNifu(singlePlayer: bool)
    ensures NoNifu(NewGame(singlePlayer).board, Sente) && NoNifu(NewGame(singlePlayer).board, Gote)
  {
    InitialLayout();
    LayoutFacts(InitialBoard());
  }

  /** The turn passes to the opponent, who is announced checkmated (the
      game is over and the previous mover wins), in check, or neither. */
  function SwitchPlayer(s: GameState): (r: GameState)
    ensures r.turn == Opponent(s.turn)
    ensures r.board == s.board && r.senteHand == s.senteHand && r.goteHand == s.goteHand
    ensures r.singlePlayer == s.singlePlayer
    ensures IsOver(r) <==> IsCheckmate(r.board, r.turn, Hand(r, r.turn))
    ensures IsOver(r) ==> r.status.winner == s.turn
    ensures r.status == Check <==> InCheck(r.board, r.turn) && !IsCheckmate(r.board, r.turn, Hand(r, r.turn))
    ensures r.status == Ongoing <==> !InCheck(r.board, r.turn)
  {
    var next := Opponent(s.turn);
    var status :=
      if IsCheckmate(s.board, next, Hand(s, next)) then Mate(s.turn)
      else if InCheck(s.board, next) then Check
      else Ongoing;
    s.(turn := next, status := status)
  }

  /** Whether promotion happens when the human moves `pc` from row `fromRow`
      to row `toRow`: only when it may promote, and then when it must or the
      player accepts (`confirm`). */
  function HumanPromotes(pc: Piece, fromRow: int, toRow: int, p: Player, confirm: bool): (promote: bool)
    ensures promote ==> CanPromote(pc, toRow, fromRow, p)
    ensures CanPromote(pc, toRow, fromRow, p) && MustPromote(pc, toRow, p) ==> promote
    ensures promote <==> CanPromote(pc, toRow, fromRow, p) && (MustPromote(pc, toRow, p) || confirm)
  {
    CanPromote(pc, toRow, fromRow, p) && (MustPromote(pc, toRow, p) || confirm)
  }

  /** The human side to move moves the piece on `from` to `to`; `confirm` is
      the answer to the promotion prompt. A captured piece goes to the
      mover's hand as its base type. */
  function HumanMove(s: GameState, from: Pos, to: Pos, confirm: bool): (r: Result<GameState, Rejection>)
    requires OnBoard(from) && OnBoard(to)
  {
    if IsOver(s) then Err(GameOver)
    else if s.singlePlayer && s.turn == Gote then Err(ComputerToMove)
    else if !OwnedBy(s.board, from, s.turn) then Err(NotOwnPiece)
    else if from == to then Err(SameSquare)
    else if OwnedBy(s.board, to, s.turn) then Err(OwnPieceOnTarget)
    else
      var pc := At(s.board, from).value;
      if to !in ValidMoves(pc, from, s.board) then Err(Unreachable)
      else
        var board' := MoveOnBoard(s.board, from, to, HumanPromotes(pc, from.row, to.row, s.turn, confirm));
        if InCheck(board', s.turn) then Err(SelfCheck)
        else
          var target := At(s.board, to);
          var s' := if target.Some? then WithHand(s, s.turn, Hand(s, s.turn) + [Base(target.value.kind)]) else s;
          Ok(SwitchPlayer(s'.(board := board')))
  }

  /** The human side to move drops a `k` from hand on `to`, using up the
      first matching hand entry. */
  function HumanDrop(s: GameState, k: PieceType, to: Pos): (r: Result<GameState, Rejection>)
    requires OnBoard(to)
  {
    if IsOver(s) then Err(GameOver)
    else if s.singlePlayer && s.turn == Gote then Err(ComputerToMove)
    else if k !in Hand(s, s.turn) then Err(NotInHand)
    else if At(s.board, to).Some? then Err(Occupied)
    else if !IsValidDrop(k, to, s.turn, s.board) then Err(InvalidDrop)
    else
      var board' := DropOnBoard(s.board, to, k, s.turn);
      if InCheck(board', s.turn) then Err(SelfCheck)
      else Ok(SwitchPlayer(WithHand(s, s.turn, RemoveFirst(Hand(s, s.turn), k)).(board := board')))
  }

  /** A move takes one piece off the board exactly when it captures. */
  lemma MoveCount(b: Board, from: Pos, to: Pos, promote: bool)
    requires OnBoard(from) && OnBoard(to) && from != to && At(b, from).Some?
    ensures PieceCount(MoveOnBoard(b, from, to, promote))
         == PieceCount(b) - (if At(b, to).Some? then 1 else 0)
  {
    var b1 := Put(9, b, from, None);
    CountAfterSet(b, from, None, None);
    assert Get(b1, to) == At(b, to);
    CountAfterSet(b1, to, Some(Moved(At(b, from).value, promote)), None);
  }

  /** A drop onto an empty square adds one piece to the board. */
  lemma DropCount(b: Board, to: Pos, k: PieceType, p: Player)
    requires OnBoard(to) && At(b, to).None?
    ensures PieceCount(DropOnBoard(b, to, k, p)) == PieceCount(b) + 1
  {
    CountAfterSet(b, to, Some(Piece(k, p, false)), None);
  }

  /** What an accepted human move does: the piece on `from` lands on `to`,
      promoted exactly as `HumanPromotes` decides, leaving `from` empty
      and every other square as it was; a captured piece's base
      type joins the end of the mover's hand; the opponent's hand is
      untouched; the mover is not left in check; the turn passes; no piece
      is created or lost; and the game is over exactly when the new side to
      move is checkmated. */
  lemma HumanMoveEffects(s: GameState, from: Pos, to: Pos, confirm: bool)
    requires OnBoard(from) && OnBoard(to) && HumanMove(s, from, to, confirm).Ok?
    ensures var r := HumanMove(s, from, to, confirm).value;
      && !IsOver(s)
      && OwnedBy(s.board, from, s.turn) && to in ValidMoves(At(s.board, from).value, from, s.board)
      && At(r.board, to) == Some(Moved(At(s.board, from).value,
                                       HumanPromotes(At(s.board, from).value, from.row, to.row, s.turn, confirm)))
      && At(r.board, from) == None
      && (forall q :: OnBoard(q) && q != from && q != to ==> At(r.board, q) == At(s.board, q))
      && Hand(r, s.turn) == Hand(s, s.turn) + (if At(s.board, to).Some? then [Base(At(s.board, to).value.kind)] else [])
      && Hand(r, Opponent(s.turn)) == Hand(s, Opponent(s.turn))
      && !InCheck(r.board, s.turn)
      && r.turn == Opponent(s.turn)
      && TotalPieces(r) == TotalPieces(s)
      && (IsOver(r) <==> IsCheckmate(r.board, r.turn, Hand(r, r.turn)))
  {
    var pc := At(s.board, from).value;
    MoveCount(s.board, from, to, HumanPromotes(pc, from.row, to.row, s.turn, confirm));
  }

  /** What an accepted human drop does: an unpromoted `k` of the mover's
      stands on the empty square `to`, one `k` leaves the mover's hand, the
      opponent's hand is untouched, no other square changes, the mover is
      not left in check, the turn passes, no piece is created or lost, and
      the game is over exactly when the new side to move is checkmated. */
  lemma HumanDropEffects(s: GameState, k: PieceType, to: Pos)
    requires OnBoard(to) && HumanDrop(s, k, to).Ok?
    ensures var r := HumanDrop(s, k, to).value;
      && !IsOver(s) && k in Hand(s, s.turn) && IsEmpty(s.board, to) && IsValidDrop(k, to, s.turn, s.board)
      && At(r.board, to) == Some(Piece(k, s.turn, false))
      && (forall q :: OnBoard(q) && q != to ==> At(r.board, q) == At(s.board, q))
      && multiset(Hand(r, s.turn)) == multiset(Hand(s, s.turn)) - multiset{k}
      && Hand(r, s.turn) == RemoveFirst(Hand(s, s.turn), k)
      && |Hand(r, s.turn)| == |Hand(s, s.turn)| - 1
      && Hand(r, Opponent(s.turn)) == Hand(s, Opponent(s.turn))
      && !InCheck(r.board, s.turn)
      && r.turn == Opponent(s.turn)
      && TotalPieces(r) == TotalPieces(s)
      && (IsOver(r) <==> IsCheckmate(r.board, r.turn, Hand(r, r.turn)))
  {
    DropCount(s.board, to, k, s.turn);
  }

  /** A move is refused for self-check exactly when it is otherwise
      acceptable and the board it would produce leaves the mover in check. */
  lemma SelfCheckMoveRefused(s: GameState, from: Pos, to: Pos, confirm: bool)
    requires OnBoard(from) && OnBoard(to)
    ensures HumanMove(s, from, to, confirm) == Err(SelfCheck)
        <==> !IsOver(s) && !(s.singlePlayer && s.turn == Gote)
             && OwnedBy(s.board, from, s.turn) && from != to && !OwnedBy(s.board, to, s.turn)
             && to in ValidMoves(At(s.board, from).value, from, s.board)
             && InCheck(MoveOnBoard(s.board, from, to, false), s.turn)
  {
    if OwnedBy(s.board, from, s.turn) {
      var pc := At(s.board, from).value;
      PromotionKeepsCheck(s.board, from, to, s.turn, HumanPromotes(pc, from.row, to.row, s.turn, confirm));
    }
  }
}
