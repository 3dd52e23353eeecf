/** Shogi piece taxonomy: players, the fourteen piece types, the promotion
    tables, AI piece values and the promotion-zone predicates. */
module ShogiPieces {

  /** Sente moves first and sits on rows 6..8; Gote sits on rows 0..2. */
  datatype Player = Sente | Gote

  function Opponent(p: Player): (q: Player)
    ensures q != p
  {
    if p == Sente then Gote else Sente
  }

  /** The piece types, one per display symbol of the game. */
  datatype PieceType =
    | King | Rook | Bishop | Gold | Silver | Knight | Lance | Pawn
    | PromotedRook | PromotedBishop | PromotedSilver | PromotedKnight | PromotedLance | PromotedPawn

  /** A piece on the board stores its base type and a promotion flag; the type
      it moves as is `Effective`. */
  datatype Piece = Piece(kind: PieceType, owner: Player, promoted: bool)

  /** The types that have a promoted form (the keys of the promotion table). */
  predicate Promotable(t: PieceType) {
    t in {Rook, Bishop, Silver, Knight, Lance, Pawn}
  }

  predicate IsPromotedType(t: PieceType) {
    t in {PromotedRook, PromotedBishop, PromotedSilver, PromotedKnight, PromotedLance, PromotedPawn}
  }

  /** The promotion table. */
  function PromoteType(t: PieceType): (u: PieceType)
    requires Promotable(t)
    ensures IsPromotedType(u)
    ensures Base(u) == t
  {
    match t
    case Rook => PromotedRook
    case Bishop => PromotedBishop
    case Silver => PromotedSilver
    case Knight => PromotedKnight
    case Lance => PromotedLance
    case Pawn => PromotedPawn
  }

  /** The un-promotion table, extended by the identity on the other types:
      the form a captured piece takes in its captor's hand. */
  function Base(t: PieceType): (u: PieceType)
    ensures IsPromotedType(t) ==> Promotable(u)
    ensures !IsPromotedType(t) ==> u == t
  {
    match t
    case PromotedRook => Rook
    case PromotedBishop => Bishop
    case PromotedSilver => Silver
    case PromotedKnight => Knight
    case PromotedLance => Lance
    case PromotedPawn => Pawn
    case _ => t
  }

  /** Promotion and un-promotion are mutually inverse between the promotable
      and the promoted types. */
  lemma PromotionBijective(t: PieceType)
    ensures Promotable(t) ==> Base(PromoteType(t)) == t
    ensures IsPromotedType(t) ==> PromoteType(Base(t)) == t
    ensures Promotable(t) <==> !IsPromotedType(t) && t != King && t != Gold
  {
  }

  /** The type a piece moves as: its promoted form when it is flagged promoted
      and has one, its stored type otherwise. */
  function Effective(pc: Piece): (t: PieceType)
    ensures pc.promoted && Promotable(pc.kind) ==> IsPromotedType(t) && Base(t) == pc.kind
    ensures !(pc.promoted && Promotable(pc.kind)) ==> t == pc.kind
  {
    if pc.promoted && Promotable(pc.kind) then PromoteType(pc.kind) else pc.kind
  }

  /** The AI's piece-value table. */
  function PieceValue(t: PieceType): nat {
    match t
    case Pawn => 1
    case Lance => 3
    case Knight => 3
    case Silver => 5
    case Gold => 6
    case Bishop => 8
    case Rook => 10
    case King => 1000
    case PromotedPawn => 4
    case PromotedLance => 4
    case PromotedKnight => 4
    case PromotedSilver => 6
    case PromotedBishop => 10
    case PromotedRook => 12
  }

  /** Row step of "forward" for the owner: Sente moves up the board. */
  function Forward(p: Player): int {
    if p == Sente then -1 else 1
  }

  /** The farthest rank from the player's own side. */
  function LastRank(p: Player): int {
    if p == Sente then 0 else 8
  }

  /** The player's promotion zone: the three ranks nearest the opponent. */
  predicate InPromotionZone(row: int, p: Player) {
    if p == Sente then row in [0, 1, 2] else row in [6, 7, 8]
  }

  /** `row` is the last rank or the one before it, seen from `p`. */
  predicate InLastTwoRanks(row: int, p: Player) {
    row == LastRank(p) || row == LastRank(p) - Forward(p)
  }

  /** Whether moving `pc` from `fromRow` to `toRow` may promote it. */
  function CanPromote(pc: Piece, toRow: int, fromRow: int, p: Player): (r: bool)
    ensures pc.promoted || pc.kind == King || pc.kind == Gold || IsPromotedType(pc.kind) ==> !r
    ensures !pc.promoted && Promotable(pc.kind) ==>
              (r <==> InPromotionZone(toRow, p) || InPromotionZone(fromRow, p))
  {
    if pc.promoted || !Promotable(pc.kind) then false
    else InPromotionZone(toRow, p) || InPromotionZone(fromRow, p)
  }

  /** Whether `pc` reaching `toRow` has to promote: a Pawn or Lance on the last
      rank, a Knight on either of the last two. */
  function MustPromote(pc: Piece, toRow: int, p: Player): (r: bool)
    ensures r <==> ((pc.kind == Pawn || pc.kind == Lance) && toRow == LastRank(p))
                   || (pc.kind == Knight && InLastTwoRanks(toRow, p))
    ensures r ==> InPromotionZone(toRow, p)
    ensures r && !pc.promoted ==> forall fromRow :: CanPromote(pc, toRow, fromRow, p)
  {
    if pc.kind == Pawn || pc.kind == Lance then
      (if p == Sente then toRow == 0 else toRow == 8)
    else if pc.kind == Knight then
      (if p == Sente then toRow == 0 || toRow == 1 else toRow == 7 || toRow == 8)
    else false
  }
}
