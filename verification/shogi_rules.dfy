/** Shogi rules on top of move generation: making a move or a drop on a
    board, drop legality (including nifu, two unpromoted pawns on a file),
    check and checkmate. */
module ShogiRules {
  import opened Wrappers
  import opened Grid
  import opened ShogiPieces
  import opened ShogiBoard
  import opened ShogiMoves

  /** `pc` after a move that promotes it when `promote` holds. */
  function Moved(pc: Piece, promote: bool): Piece {
    pc.(promoted := pc.promoted || promote)
  }

  /** The board after the piece on `from` moves to `to`, promoting when
      `promote`; whatever stood on `to` leaves the board. */
  function MoveOnBoard(b: Board, from: Pos, to: Pos, promote: bool): (b': Board)
    requires OnBoard(from) && OnBoard(to) && At(b, from).Some?
    ensures At(b', to) == Some(Moved(At(b, from).value, promote))
    ensures from != to ==> At(b', from) == None
    ensures forall q :: OnBoard(q) && q != from && q != to ==> At(b', q) == At(b, q)
  {
    Put(9, Put(9, b, from, None), to, Some(Moved(At(b, from).value, promote)))
  }

  /** The board after `p` drops an unpromoted `k` on `to`. */
  function DropOnBoard(b: Board, to: Pos, k: PieceType, p: Player): (b': Board)
    requires OnBoard(to)
    ensures At(b', to) == Some(Piece(k, p, false))
    ensures forall q :: OnBoard(q) && q != to ==> At(b', q) == At(b, q)
  {
    Put(9, b, to, Some(Piece(k, p, false)))
  }

  /** Whether the file `col` holds one of `p`'s unpromoted pawns in row
      `r` or below. */
  function PawnOnFileFrom(b: Board, col: int, p: Player, r: nat): (found: bool)
    requires 0 <= col < 9 && r <= 9
    ensures found <==> exists row :: r <= row < 9 && At(b, Pos(row, col)) == Some(Piece(Pawn, p, false))
    decreases 9 - r
  {
    if r == 9 then false
    else if At(b, Pos(r, col)) == Some(Piece(Pawn, p, false)) then true
    else PawnOnFileFrom(b, col, p, r + 1)
  }

  /** Whether the file `col` already holds one of `p`'s unpromoted pawns
      (a promoted pawn does not count). */
  function PawnOnFile(b: Board, col: int, p: Player): (found: bool)
    requires 0 <= col < 9
    ensures found <==> exists row :: 0 <= row < 9 && At(b, Pos(row, col)) == Some(Piece(Pawn, p, false))
  {
    PawnOnFileFrom(b, col, p, 0)
  }

  /** Whether `p` may drop a `k` from hand on `to`: the square is empty, the
      dropped piece would not have to promote there, and a pawn does not
      join an unpromoted pawn of its owner on the same file. */
  function IsValidDrop(k: PieceType, to: Pos, p: Player, b: Board): (ok: bool)
    requires OnBoard(to)
    ensures ok <==> IsEmpty(b, to)
                    && !MustPromote(Piece(k, p, false), to.row, p)
                    && !(k == Pawn && exists row :: 0 <= row < 9 && At(b, Pos(row, to.col)) == Some(Piece(Pawn, p, false)))
  {
    if At(b, to).Some? then false
    else if (k == Pawn || k == Lance) && (if p == Sente then to.row == 0 else to.row == 8) then false
    else if k == Knight && (if p == Sente then to.row == 0 || to.row == 1 else to.row == 7 || to.row == 8) then false
    else if k == Pawn && PawnOnFile(b, to.col, p) then false
    else true
  }

  /** No file holds two unpromoted pawns of `p`. */
  ghost predicate NoNifu(b: Board, p: Player) {
    forall r1, r2, c ::
      0 <= r1 < 9 && 0 <= r2 < 9 && 0 <= c < 9
      && At(b, Pos(r1, c)) == Some(Piece(Pawn, p, false))
      && At(b, Pos(r2, c)) == Some(Piece(Pawn, p, false))
      ==> r1 == r2
  }

  /** A legal drop never creates two unpromoted pawns on a file. */
  lemma DropKeepsNoNifu(b: Board, to: Pos, k: PieceType, p: Player)
    requires OnBoard(to) && IsValidDrop(k, to, p, b) && NoNifu(b, p)
    ensures NoNifu(DropOnBoard(b, to, k, p), p)
  {
    var b' := DropOnBoard(b, to, k, p);
    forall r1, r2, c |
      0 <= r1 < 9 && 0 <= r2 < 9 && 0 <= c < 9
      && At(b', Pos(r1, c)) == Some(Piece(Pawn, p, false))
      && At(b', Pos(r2, c)) == Some(Piece(Pawn, p, false))
      ensures r1 == r2
    {
      if Pos(r1, c) != to && Pos(r2, c) != to {
        assert At(b, Pos(r1, c)) == At(b', Pos(r1, c));
        assert At(b, Pos(r2, c)) == At(b', Pos(r2, c));
      }
    }
  }

  /** The opponent's piece on `q` can move onto `k`. */
  predicate Attacks(b: Board, q: Pos, k: Pos, p: Player) {
    OnBoard(q) && At(b, q).Some? && At(b, q).value.owner == Opponent(p)
    && k in ValidMoves(At(b, q).value, q, b)
  }

  /** Whether `p`'s king (the first found in row-major order) is attacked;
      a player without a king is never in check. */
  function InCheck(b: Board, p: Player): (r: bool)
    ensures (forall q :: !IsKingOf(b, q, p)) ==> !r
    ensures r <==> exists k, q :: KingPosition(b, p) == Some(k) && Attacks(b, q, k, p)
  {
    match KingPosition(b, p)
    case None => false
    case Some(k) => AnySquare(q => Attacks(b, q, k, p))
  }

  /** Two boards with the same occupancy, the same opponent pieces and the
      same squares holding `p`'s king agree on whether `p` is in check. */
  lemma CheckSameOccupancy(b1: Board, b2: Board, p: Player)
    requires SameOccupancy(b1, b2)
    requires forall q :: OnBoard(q) && OwnerOf(At(b1, q)) == Some(Opponent(p)) ==> At(b1, q) == At(b2, q)
    requires forall q :: IsKingOf(b1, q, p) <==> IsKingOf(b2, q, p)
    ensures InCheck(b1, p) == InCheck(b2, p)
  {
    KingPositionSame(b1, b2, p);
    if KingPosition(b1, p).Some? {
      var k := KingPosition(b1, p).value;
      forall q ensures Attacks(b1, q, k, p) == Attacks(b2, q, k, p) {
        if OnBoard(q) && At(b1, q).Some? && At(b1, q).value.owner == Opponent(p) {
          assert At(b1, q) == At(b2, q);
          MovesSameOccupancy(At(b1, q).value, q, b1, b2);
        } else if OnBoard(q) {
          assert OwnerOf(At(b1, q)) == OwnerOf(At(b2, q));
        }
      }
    }
  }

  /** The king search sees only where the king stands. */
  lemma KingPositionSame(b1: Board, b2: Board, p: Player)
    requires forall q :: IsKingOf(b1, q, p) <==> IsKingOf(b2, q, p)
    ensures KingPosition(b1, p) == KingPosition(b2, p)
  {
    var k1, k2 := KingPosition(b1, p), KingPosition(b2, p);
    if k1.Some? && k2.Some? {
      assert !Before(k2.value, k1.value) by { assert IsKingOf(b1, k2.value, p); }
      assert !Before(k1.value, k2.value) by { assert IsKingOf(b2, k1.value, p); }
    }
  }

  /** Whether `p`'s piece moves to `q` promoted or not makes no difference to
      whether `p` is then in check. */
  lemma PromotionKeepsCheck(b: Board, from: Pos, to: Pos, p: Player, promote: bool)
    requires OnBoard(from) && OnBoard(to) && OwnedBy(b, from, p)
    ensures InCheck(MoveOnBoard(b, from, to, promote), p) == InCheck(MoveOnBoard(b, from, to, false), p)
  {
    var b1 := MoveOnBoard(b, from, to, promote);
    var b2 := MoveOnBoard(b, from, to, false);
    forall q | OnBoard(q) ensures OwnerOf(At(b1, q)) == OwnerOf(At(b2, q)) {
      if q != to && q != from { assert At(b1, q) == At(b2, q); }
    }
    assert OwnerOf(At(b1, to)) == Some(p) != Some(Opponent(p));
    forall q | OnBoard(q) && q != to ensures At(b1, q) == At(b2, q) {
    }
    forall q ensures IsKingOf(b1, q, p) <==> IsKingOf(b2, q, p) {
      if OnBoard(q) && q != to && q != from { assert At(b1, q) == At(b2, q); }
    }
    CheckSameOccupancy(b1, b2, p);
  }

  /** `p` escapes check by moving the piece on `q` to `m`, promoting it
      whenever the move allows (as the checkmate search does). */
  predicate EscapeMove(b: Board, p: Player, q: Pos, m: Pos) {
    OnBoard(q) && OwnedBy(b, q, p) && m in ValidMoves(At(b, q).value, q, b)
    && !InCheck(MoveOnBoard(b, q, m, CanPromote(At(b, q).value, m.row, q.row, p)), p)
  }

  /** `p` escapes check by dropping `k` on `s`. */
  predicate EscapeDrop(b: Board, p: Player, k: PieceType, s: Pos) {
    OnBoard(s) && IsValidDrop(k, s, p, b) && !InCheck(DropOnBoard(b, s, k, p), p)
  }

  /** Whether `p`, holding `hand`, is checkmated: in check, with no move of a
      piece on the board and no drop from hand that ends the check. */
  function IsCheckmate(b: Board, p: Player, hand: seq<PieceType>): (r: bool)
    ensures r ==> InCheck(b, p)
    ensures r <==> InCheck(b, p)
                   && (forall q, m :: !EscapeMove(b, p, q, m))
                   && (forall k, s :: k in hand ==> !EscapeDrop(b, p, k, s))
  {
    InCheck(b, p)
    && !AnySquare(q => OnBoard(q) && OwnedBy(b, q, p)
                       && exists m | m in ValidMoves(At(b, q).value, q, b) :: EscapeMove(b, p, q, m))
    && !(exists k | k in hand :: AnySquare(s => EscapeDrop(b, p, k, s)))
  }

  /** Every move of one of `p`'s pieces, promoted or not, leaves `p` in
      check. */
  ghost predicate NoReplyMove(b: Board, p: Player) {
    forall q, m, promote :: OnBoard(q) && OwnedBy(b, q, p) && m in ValidMoves(At(b, q).value, q, b)
      ==> InCheck(MoveOnBoard(b, q, m, promote), p)
  }

  /** Every legal drop from `hand` leaves `p` in check. */
  ghost predicate NoReplyDrop(b: Board, p: Player, hand: seq<PieceType>) {
    forall k, s :: k in hand && OnBoard(s) && IsValidDrop(k, s, p, b) ==> InCheck(DropOnBoard(b, s, k, p), p)
  }

  /** Checkmate is check with no legal reply: every move of one of `p`'s
      pieces, promoted or not, and every legal drop leaves `p` in check. */
  lemma CheckmateIffNoReply(b: Board, p: Player, hand: seq<PieceType>)
    ensures IsCheckmate(b, p, hand) <==> InCheck(b, p) && NoReplyMove(b, p) && NoReplyDrop(b, p, hand)
  {
    if forall q, m :: !EscapeMove(b, p, q, m) {
      forall q, m, promote | OnBoard(q) && OwnedBy(b, q, p) && m in ValidMoves(At(b, q).value, q, b)
        ensures InCheck(MoveOnBoard(b, q, m, promote), p)
      {
        assert !EscapeMove(b, p, q, m);
        PromotionKeepsCheck(b, q, m, p, promote);
        PromotionKeepsCheck(b, q, m, p, CanPromote(At(b, q).value, m.row, q.row, p));
      }
    }
    if NoReplyMove(b, p) {
      forall q, m ensures !EscapeMove(b, p, q, m) {
        if OnBoard(q) && OwnedBy(b, q, p) && m in ValidMoves(At(b, q).value, q, b) {
          assert InCheck(MoveOnBoard(b, q, m, CanPromote(At(b, q).value, m.row, q.row, p)), p);
        }
      }
    }
  }
}
