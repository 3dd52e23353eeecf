/** The 9 x 9 shogi board: squares, king search, piece counting and the
    starting layout. Row 0 is Gote's back rank, row 8 Sente's. */
module ShogiBoard {
  import opened Wrappers
  import opened Grid
  import opened Seqs
  import opened ShogiPieces

  type Square = Option<Piece>

  type Board = b: seq<seq<Square>> | IsGrid(b, 9) witness Fill(9, None)

  predicate OnBoard(p: Pos) {
    InSquare(p, 9)
  }

  function At(b: Board, p: Pos): Square
    requires OnBoard(p)
  {
    Get(b, p)
  }

  predicate IsEmpty(b: Board, p: Pos)
    requires OnBoard(p)
  {
    At(b, p).None?
  }

  predicate OwnedBy(b: Board, p: Pos, player: Player)
    requires OnBoard(p)
  {
    At(b, p).Some? && At(b, p).value.owner == player
  }

  predicate IsKingOf(b: Board, p: Pos, player: Player) {
    OnBoard(p) && At(b, p).Some? && At(b, p).value.kind == King && At(b, p).value.owner == player
  }

  const EmptyBoard: Board := Fill(9, None)

  /** Row-major search for the player's king from square (r, c) on. */
  function KingFrom(b: Board, player: Player, r: int, c: int): (k: Option<Pos>)
    requires 0 <= r <= 9 && 0 <= c < 9
    ensures k.Some? ==> IsKingOf(b, k.value, player) && AtOrAfter(k.value, r, c)
    ensures k.Some? ==>
              forall q :: OnBoard(q) && AtOrAfter(q, r, c) && Before(q, k.value) ==> !IsKingOf(b, q, player)
    ensures k.None? ==> forall q :: OnBoard(q) && AtOrAfter(q, r, c) ==> !IsKingOf(b, q, player)
    decreases 9 - r, 9 - c
  {
    if r == 9 then None
    else if IsKingOf(b, Pos(r, c), player) then Some(Pos(r, c))
    else if c == 8 then KingFrom(b, player, r + 1, 0)
    else KingFrom(b, player, r, c + 1)
  }

  /** The first square in row-major order holding the player's king, if any. */
  function KingPosition(b: Board, player: Player): (k: Option<Pos>)
    ensures k.Some? ==> IsKingOf(b, k.value, player)
    ensures k.Some? ==> forall q :: Before(q, k.value) && OnBoard(q) ==> !IsKingOf(b, q, player)
    ensures k.None? <==> forall q :: !IsKingOf(b, q, player)
  {
    KingFrom(b, player, 0, 0)
  }

  /** The 81 squares in row-major order. */
  function Squares(): (sq: seq<Pos>)
    ensures |sq| == 81
    ensures forall i :: 0 <= i < 81 ==> OnBoard(sq[i])
    ensures forall q :: OnBoard(q) ==> q in sq
  {
    var sq := seq(81, i requires 0 <= i < 81 => Pos(i / 9, i % 9));
    forall q | OnBoard(q) ensures q in sq {
      assert sq[q.row * 9 + q.col] == q;
    }
    sq
  }

  /** Whether some square of the board satisfies `f`. */
  function AnySquare(f: Pos -> bool): (found: bool)
    ensures found <==> exists q :: OnBoard(q) && f(q)
  {
    AnyCell(9, f)
  }

  /** Number of pieces on the board. */
  function PieceCount(b: Board): (n: nat)
    ensures n <= 81
  {
    FlattenLength(b, 9);
    CountBounded(Flatten(b), None);
    81 - Count(b, None)
  }

  /** Player `p`'s unpromoted piece of type `t`. */
  function P(t: PieceType, p: Player): Square {
    Some(Piece(t, p, false))
  }

  /** Nine copies of `v`: a row of pawns, or an empty row. */
  function UniformRow(v: Square): seq<Square> {
    [v, v, v, v, v, v, v, v, v]
  }

  /** A back rank: lance, knight, silver, gold, king, gold, silver, knight,
      lance. */
  function BackRow(p: Player): seq<Square> {
    [P(Lance, p), P(Knight, p), P(Silver, p), P(Gold, p), P(King, p),
     P(Gold, p), P(Silver, p), P(Knight, p), P(Lance, p)]
  }

  /** The second rank: `left` on column 1, `right` on column 7. */
  function OfficerRow(left: Square, right: Square): seq<Square> {
    [None, left, None, None, None, None, None, right, None]
  }

  /** `b` is laid out row by row as the starting position. */
  predicate StartLayout(b: Board) {
    && b[0] == BackRow(Gote) && b[8] == BackRow(Sente)
    && b[1] == OfficerRow(P(Bishop, Gote), P(Rook, Gote))
    && b[7] == OfficerRow(P(Rook, Sente), P(Bishop, Sente))
    && b[2] == UniformRow(P(Pawn, Gote)) && b[6] == UniformRow(P(Pawn, Sente))
    && b[3] == UniformRow(None) && b[4] == UniformRow(None) && b[5] == UniformRow(None)
  }

  /** The canonical starting layout: Gote's back rank, bishop and rook,
      and pawns on rows 0 to 2, Sente's mirrored on rows 8 to 6. */
  function InitialBoard(): Board
  {
    [ BackRow(Gote),
      OfficerRow(P(Bishop, Gote), P(Rook, Gote)),
      UniformRow(P(Pawn, Gote)),
      UniformRow(None), UniformRow(None), UniformRow(None),
      UniformRow(P(Pawn, Sente)),
      OfficerRow(P(Rook, Sente), P(Bishop, Sente)),
      BackRow(Sente) ]
  }

  /** How many of each square a full set of pieces on the starting layout
      gives: for each side one king, rook and bishop, two golds, silvers,
      knights and lances, nine pawns, nothing promoted; 41 empty squares. */
  function StartCount(sq: Square): nat {
    match sq
    case None => 41
    case Some(pc) =>
      if pc.promoted then 0
      else
        match pc.kind
        case Pawn => 9
        case King => 1
        case Rook => 1
        case Bishop => 1
        case Gold => 2
        case Silver => 2
        case Knight => 2
        case Lance => 2
        case _ => 0
  }

  /** The count of `x` on a nine-row board, row by row. */
  lemma CountNineRows(b: Board, x: Square)
    ensures Count(b, x) == multiset(b[0])[x] + multiset(b[1])[x] + multiset(b[2])[x]
                         + multiset(b[3])[x] + multiset(b[4])[x] + multiset(b[5])[x]
                         + multiset(b[6])[x] + multiset(b[7])[x] + multiset(b[8])[x]
  {
    var g: seq<seq<Square>> := b;
    CountCons(g, x);
    CountCons(g[1..], x);
    CountCons(g[2..], x);
    CountCons(g[3..], x);
    CountCons(g[4..], x);
    CountCons(g[5..], x);
    CountCons(g[6..], x);
    CountCons(g[7..], x);
    CountCons(g[8..], x);
    assert g[1..][1..] == g[2..] && g[2..][1..] == g[3..] && g[3..][1..] == g[4..];
    assert g[4..][1..] == g[5..] && g[5..][1..] == g[6..] && g[6..][1..] == g[7..];
    assert g[7..][1..] == g[8..] && g[8..][1..] == [];
  }

  lemma UniformRowCount(v: Square, x: Square)
    ensures multiset(UniformRow(v))[x] == if x == v then 9 else 0
  {
  }

  /** How often `x` occurs in the back rank of `p`. */
  function BackCount(p: Player, x: Square): nat {
    if x == P(King, p) then 1
    else if x == P(Gold, p) || x == P(Silver, p) || x == P(Knight, p) || x == P(Lance, p) then 2
    else 0
  }

  /** How often `x` occurs in a row holding only the pieces `left` and `right`. */
  function OfficerCount(left: Square, right: Square, x: Square): nat {
    if x == None then 7 else if x == left || x == right then 1 else 0
  }

  lemma BackRowCount(p: Player, x: Square)
    ensures multiset(BackRow(p))[x] == BackCount(p, x)
  {
  }

  lemma OfficerRowCount(left: Square, right: Square, x: Square)
    requires left.Some? && right.Some? && left != right
    ensures multiset(OfficerRow(left, right))[x] == OfficerCount(left, right, x)
  {
  }

  /** Row by row, the counts of one square value in the starting layout
      add up to its number in two full sets. */
  lemma LayoutSum(x: Square, c0: nat, c1: nat, c2: nat, c3: nat, c4: nat,
                  c5: nat, c6: nat, c7: nat, c8: nat)
    requires c0 == BackCount(Gote, x) && c8 == BackCount(Sente, x)
    requires c1 == OfficerCount(P(Bishop, Gote), P(Rook, Gote), x)
    requires c7 == OfficerCount(P(Rook, Sente), P(Bishop, Sente), x)
    requires c2 == (if x == P(Pawn, Gote) then 9 else 0)
    requires c6 == (if x == P(Pawn, Sente) then 9 else 0)
    requires c3 == c4 == c5 == (if x == None then 9 else 0)
    ensures c0 + c1 + c2 + c3 + c4 + c5 + c6 + c7 + c8 == StartCount(x)
  {
    match x
    case None =>
    case Some(pc) =>
      if pc.promoted {
        assert c0 == c1 == c2 == c6 == c7 == c8 == 0;
      } else if pc.owner == Sente {
        assert c0 == c1 == c2 == 0;
      } else {
        assert c6 == c7 == c8 == 0;
      }
  }

  /** How often `x` occurs in each of Gote's three starting rows. */
  lemma GoteRowCounts(b: Board, x: Square)
    requires StartLayout(b)
    ensures multiset(b[0])[x] == BackCount(Gote, x)
    ensures multiset(b[1])[x] == OfficerCount(P(Bishop, Gote), P(Rook, Gote), x)
    ensures multiset(b[2])[x] == (if x == P(Pawn, Gote) then 9 else 0)
  {
    BackRowCount(Gote, x);
    OfficerRowCount(P(Bishop, Gote), P(Rook, Gote), x);
    UniformRowCount(P(Pawn, Gote), x);
  }

  /** How often `x` occurs in each of Sente's three starting rows. */
  lemma SenteRowCounts(b: Board, x: Square)
    requires StartLayout(b)
    ensures multiset(b[8])[x] == BackCount(Sente, x)
    ensures multiset(b[7])[x] == OfficerCount(P(Rook, Sente), P(Bishop, Sente), x)
    ensures multiset(b[6])[x] == (if x == P(Pawn, Sente) then 9 else 0)
  {
    BackRowCount(Sente, x);
    OfficerRowCount(P(Rook, Sente), P(Bishop, Sente), x);
    UniformRowCount(P(Pawn, Sente), x);
  }

  /** A board whose rows hold `x` as often as the starting layout's rows
      do holds it as often as two full sets do. */
  lemma CountFromRows(b: Board, x: Square)
    requires multiset(b[0])[x] == BackCount(Gote, x) && multiset(b[8])[x] == BackCount(Sente, x)
    requires multiset(b[1])[x] == OfficerCount(P(Bishop, Gote), P(Rook, Gote), x)
    requires multiset(b[7])[x] == OfficerCount(P(Rook, Sente), P(Bishop, Sente), x)
    requires multiset(b[2])[x] == (if x == P(Pawn, Gote) then 9 else 0)
    requires multiset(b[6])[x] == (if x == P(Pawn, Sente) then 9 else 0)
    requires multiset(b[3])[x] == multiset(b[4])[x] == multiset(b[5])[x] == (if x == None then 9 else 0)
    ensures Count(b, x) == StartCount(x)
  {
    CountNineRows(b, x);
    LayoutSum(x, multiset(b[0])[x], multiset(b[1])[x], multiset(b[2])[x],
              multiset(b[3])[x], multiset(b[4])[x], multiset(b[5])[x],
              multiset(b[6])[x], multiset(b[7])[x], multiset(b[8])[x]);
  }

  /** Any board laid out row by row as the starting position holds
      exactly the pieces of two full sets. */
  lemma LayoutComposition(b: Board, x: Square)
    requires StartLayout(b)
    ensures Count(b, x) == StartCount(x)
  {
    GoteRowCounts(b, x);
    SenteRowCounts(b, x);
    UniformRowCount(None, x);
    CountFromRows(b, x);
  }

  /** The starting layout holds exactly the pieces of two full sets. */
  lemma InitialComposition(x: Square)
    ensures Count(InitialBoard(), x) == StartCount(x)
  {
    InitialLayout();
    LayoutComposition(InitialBoard(), x);
  }

  /** Where each side's king starts: the middle of its back rank. */
  function KingStart(p: Player): Pos {
    if p == Sente then Pos(8, 4) else Pos(0, 4)
  }

  /** The row each side's pawns start on. */
  function PawnRow(p: Player): int {
    if p == Sente then 6 else 2
  }

  lemma BackRowSquare(p: Player, c: int)
    requires 0 <= c < 9
    ensures BackRow(p)[c].Some? && BackRow(p)[c].value.owner == p
    ensures BackRow(p)[c].value.kind == King <==> c == 4
    ensures BackRow(p)[c].value.kind != Pawn
  {
  }

  lemma OfficerRowSquare(left: Square, right: Square, c: int)
    requires 0 <= c < 9
    ensures OfficerRow(left, right)[c] == if c == 1 then left else if c == 7 then right else None
  {
  }

  lemma UniformRowSquare(v: Square, c: int)
    requires 0 <= c < 9
    ensures UniformRow(v)[c] == v
  {
  }

  /** In the starting layout each king stands on its own back rank's middle
      square and nowhere else, and every pawn stands on its side's pawn row. */
  lemma LayoutPlacement(b: Board, q: Pos, p: Player)
    requires StartLayout(b) && OnBoard(q)
    ensures IsKingOf(b, q, p) <==> q == KingStart(p)
    ensures At(b, q).Some? && At(b, q).value.kind == Pawn && At(b, q).value.owner == p ==> q.row == PawnRow(p)
  {
    var r, c := q.row, q.col;
    assert At(b, q) == b[r][c];
    if r == 0 || r == 8 {
      BackRowSquare(if r == 0 then Gote else Sente, c);
    } else if r == 1 {
      OfficerRowSquare(P(Bishop, Gote), P(Rook, Gote), c);
    } else if r == 7 {
      OfficerRowSquare(P(Rook, Sente), P(Bishop, Sente), c);
    } else {
      UniformRowSquare(b[r][0], c);
    }
  }

  /** In the starting layout each king is found on its starting square. */
  lemma LayoutKing(b: Board, p: Player)
    requires StartLayout(b)
    ensures KingPosition(b, p) == Some(KingStart(p))
  {
    LayoutPlacement(b, KingStart(p), p);
    var k := KingPosition(b, p);
    if k.Some? {
      LayoutPlacement(b, k.value, p);
    }
  }

  /** The starting layout is laid out row by row as described. */
  lemma InitialLayout()
    ensures StartLayout(InitialBoard())
  {
  }
}
