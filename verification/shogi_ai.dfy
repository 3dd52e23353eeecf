/** The computer player (always Gote): it lists every move and drop that
    does not leave its king in check, scores each one, and plays one of the
    best. The random tie-break is the `pick` parameter. */
module ShogiAi {
  import opened Wrappers
  import opened Grid
  import opened Seqs
  import opened ShogiPieces
  import opened ShogiBoard
  import opened ShogiMoves
  import opened ShogiRules
  import opened ShogiGame

  /** A scored candidate action. */
  datatype Action =
    | MoveAction(from: Pos, to: Pos, promotion: bool, score: int)
    | DropAction(kind: PieceType, to: Pos, score: int)

  /** Score of Gote moving the piece on `from` to `to`: ten times the value
      of the piece captured there, two more for promoting, fifty more if
      Sente is then in check. */
  function MoveScore(b: Board, from: Pos, to: Pos, promotion: bool): int
    requires OnBoard(from) && OnBoard(to) && At(b, from).Some?
  {
    (if At(b, to).Some? then 10 * PieceValue(At(b, to).value.kind) else 0)
    + (if promotion then 2 else 0)
    + (if InCheck(MoveOnBoard(b, from, to, promotion), Sente) then 50 else 0)
  }

  /** Score of Gote dropping `k` on `to`: one, fifty more for check. */
  function DropScore(b: Board, to: Pos, k: PieceType): int
    requires OnBoard(to)
  {
    1 + (if InCheck(DropOnBoard(b, to, k, Gote), Sente) then 50 else 0)
  }

  /** Reference definition of a candidate move: a move of one of Gote's
      pieces to one of its valid targets, promoting whenever promotion is
      allowed, that does not leave Gote in check, with its score. */
  predicate LegalMove(b: Board, a: Action) {
    a.MoveAction? && OnBoard(a.from) && OwnedBy(b, a.from, Gote)
    && a.to in ValidMoves(At(b, a.from).value, a.from, b)
    && a.promotion == CanPromote(At(b, a.from).value, a.to.row, a.from.row, Gote)
    && !InCheck(MoveOnBoard(b, a.from, a.to, a.promotion), Gote)
    && a.score == MoveScore(b, a.from, a.to, a.promotion)
  }

  /** Reference definition of a candidate drop of a piece in `hand`. */
  predicate LegalDrop(b: Board, hand: seq<PieceType>, a: Action) {
    a.DropAction? && a.kind in hand && OnBoard(a.to) && IsValidDrop(a.kind, a.to, Gote, b)
    && !InCheck(DropOnBoard(b, a.to, a.kind, Gote), Gote)
    && a.score == DropScore(b, a.to, a.kind)
  }

  /** The candidate moves of the Gote piece on `q` to the targets `ms`, in
      order. */
  function MovesOver(b: Board, q: Pos, ms: seq<Pos>): (acts: seq<Action>)
    requires OnBoard(q) && OwnedBy(b, q, Gote) && forall m :: m in ms ==> OnBoard(m)
    ensures forall a :: a in acts <==>
              a.MoveAction? && a.from == q && a.to in ms
              && a.promotion == CanPromote(At(b, q).value, a.to.row, q.row, Gote)
              && !InCheck(MoveOnBoard(b, q, a.to, a.promotion), Gote)
              && a.score == MoveScore(b, q, a.to, a.promotion)
  {
    if ms == [] then []
    else
      var m := ms[0];
      var promotion := CanPromote(At(b, q).value, m.row, q.row, Gote);
      var rest := MovesOver(b, q, ms[1..]);
      if InCheck(MoveOnBoard(b, q, m, promotion), Gote) then rest
      else [MoveAction(q, m, promotion, MoveScore(b, q, m, promotion))] + rest
  }

  /** The candidate moves of the piece on `q`, if it is Gote's. */
  function MovesAt(b: Board, q: Pos): seq<Action>
    requires OnBoard(q)
  {
    if OwnedBy(b, q, Gote) then MovesOver(b, q, ValidMoves(At(b, q).value, q, b)) else []
  }

  /** The candidate drops of `k` on `s`. */
  function DropsAt(b: Board, k: PieceType, s: Pos): seq<Action>
    requires OnBoard(s)
  {
    if IsValidDrop(k, s, Gote, b) && !InCheck(DropOnBoard(b, s, k, Gote), Gote)
    then [DropAction(k, s, DropScore(b, s, k))]
    else []
  }

  /** Every candidate drop of `k`, squares in row-major order. */
  function DropsOf(b: Board, k: PieceType): seq<Action> {
    Flatten(seq(81, i requires 0 <= i < 81 => DropsAt(b, k, Squares()[i])))
  }

  /** All candidate actions: the moves, square by square in row-major order,
      then the drops, hand entry by hand entry (a type held twice yields its
      drops twice). */
  function Actions(b: Board, hand: seq<PieceType>): seq<Action> {
    Flatten(seq(81, i requires 0 <= i < 81 => MovesAt(b, Squares()[i])))
    + Flatten(seq(|hand|, j requires 0 <= j < |hand| => DropsOf(b, hand[j])))
  }

  lemma MovesAtSpec(b: Board, q: Pos, a: Action)
    requires OnBoard(q)
    ensures a in MovesAt(b, q) <==> LegalMove(b, a) && a.from == q
  {
  }

  lemma DropsOfSpec(b: Board, k: PieceType, a: Action)
    ensures a in DropsOf(b, k) <==> LegalDrop(b, [k], a)
  {
    var per := seq(81, i requires 0 <= i < 81 => DropsAt(b, k, Squares()[i]));
    FlattenMember(per, a);
    if LegalDrop(b, [k], a) {
      var i :| 0 <= i < 81 && Squares()[i] == a.to;
      assert a in per[i];
    }
  }

  /** The candidate list holds exactly the legal moves and the legal drops
      of pieces in hand. */
  lemma ActionsSpec(b: Board, hand: seq<PieceType>, a: Action)
    ensures a in Actions(b, hand) <==> LegalMove(b, a) || LegalDrop(b, hand, a)
  {
    var moves := seq(81, i requires 0 <= i < 81 => MovesAt(b, Squares()[i]));
    var drops := seq(|hand|, j requires 0 <= j < |hand| => DropsOf(b, hand[j]));
    FlattenMember(moves, a);
    FlattenMember(drops, a);
    forall i | 0 <= i < 81 ensures a in moves[i] <==> LegalMove(b, a) && a.from == Squares()[i] {
      MovesAtSpec(b, Squares()[i], a);
    }
    forall j | 0 <= j < |hand| ensures a in drops[j] <==> LegalDrop(b, [hand[j]], a) {
      DropsOfSpec(b, hand[j], a);
    }
    if LegalMove(b, a) {
      var i :| 0 <= i < 81 && Squares()[i] == a.from;
      assert a in moves[i];
    }
    if LegalDrop(b, hand, a) {
      var j :| 0 <= j < |hand| && hand[j] == a.kind;
      assert a in drops[j];
    }
  }

  /** The best score among `acts`. */
  function MaxScore(acts: seq<Action>): (m: int)
    requires acts != []
    ensures forall a :: a in acts ==> a.score <= m
    ensures exists i :: 0 <= i < |acts| && acts[i].score == m
  {
    if |acts| == 1 then acts[0].score
    else
      var rest := MaxScore(acts[1..]);
      if acts[0].score >= rest then acts[0].score else rest
  }

  /** The candidates with the best score, in list order. */
  function Best(acts: seq<Action>): (best: seq<Action>)
    requires acts != []
    ensures best != []
    ensures forall a :: a in best <==> a in acts && a.score == MaxScore(acts)
  {
    var m := MaxScore(acts);
    var best := Filter(acts, (a: Action) => a.score == m);
    var i :| 0 <= i < |acts| && acts[i].score == m;
    assert acts[i] in best;
    best
  }

  /** The action played when the random draw gives `pick`: one of the best. */
  function Choose(acts: seq<Action>, pick: nat): (a: Action)
    requires acts != []
    ensures a in acts
    ensures forall x :: x in acts ==> x.score <= a.score
  {
    var best := Best(acts);
    best[pick % |best|]
  }

  /** Every best-scoring action is the choice for some draw. */
  lemma ChooseCoversBest(acts: seq<Action>, x: Action)
    requires acts != [] && x in acts && x.score == MaxScore(acts)
    ensures exists pick: nat :: Choose(acts, pick) == x
  {
    var best := Best(acts);
    assert x in best;
    var i := IndexOf(best, x);
    SmallRemainder(i, |best|);
    assert Choose(acts, i) == x;
  }

  lemma SmallRemainder(i: nat, n: nat)
    requires i < n
    ensures i % n == i
  {
  }

  /** Gote plays `a`: a move sends a captured piece's base type to Gote's
      hand and lands the mover, promoted if it was or if the action
      promotes; a drop uses up Gote's first matching hand entry. */
  function ApplyAction(s: GameState, a: Action): (r: GameState)
    requires a.MoveAction? ==> OnBoard(a.from) && OnBoard(a.to) && At(s.board, a.from).Some?
    requires a.DropAction? ==> OnBoard(a.to)
    ensures a.MoveAction? ==>
      var pc := At(s.board, a.from).value;
      && At(r.board, a.to).Some?
      && At(r.board, a.to).value.kind == pc.kind && At(r.board, a.to).value.owner == pc.owner
      && (pc.promoted ==> At(r.board, a.to).value.promoted)
      && (a.promotion ==> At(r.board, a.to).value.promoted)
      && (At(r.board, a.to).value.promoted ==> pc.promoted || a.promotion)
      && (a.from != a.to ==> At(r.board, a.from) == None)
      && (forall q :: OnBoard(q) && q != a.from && q != a.to ==> At(r.board, q) == At(s.board, q))
      && r.goteHand == s.goteHand + (if At(s.board, a.to).Some? then [Base(At(s.board, a.to).value.kind)] else [])
    ensures a.DropAction? ==>
      && At(r.board, a.to) == Some(Piece(a.kind, Gote, false))
      && (forall q :: OnBoard(q) && q != a.to ==> At(r.board, q) == At(s.board, q))
      && (a.kind in s.goteHand ==> multiset(r.goteHand) == multiset(s.goteHand) - multiset{a.kind})
      && (a.kind !in s.goteHand ==> r.goteHand == s.goteHand)
      && r.goteHand == RemoveFirst(s.goteHand, a.kind)
    ensures r.senteHand == s.senteHand && r.turn == s.turn
    ensures r.status == s.status && r.singlePlayer == s.singlePlayer
  {
    match a
    case MoveAction(from, to, promotion, _) =>
      var target := At(s.board, to);
      var hand := if target.Some? then s.goteHand + [Base(target.value.kind)] else s.goteHand;
      s.(board := MoveOnBoard(s.board, from, to, promotion), goteHand := hand)
    case DropAction(k, to, _) =>
      s.(board := DropOnBoard(s.board, to, k, Gote), goteHand := RemoveFirst(s.goteHand, k))
  }

  /** As the code applies a move: the moved piece's promotion flag is set to
      the action's flag, which is false for a piece that is already
      promoted. */
  function ApplyActionAsWritten(s: GameState, a: Action): (r: GameState)
    requires a.MoveAction? ==> OnBoard(a.from) && OnBoard(a.to) && At(s.board, a.from).Some?
    requires a.DropAction? ==> OnBoard(a.to)
    ensures a.MoveAction? ==> At(r.board, a.to).Some? && At(r.board, a.to).value.promoted == a.promotion
  {
    match a
    case MoveAction(from, to, promotion, _) =>
      var target := At(s.board, to);
      var hand := if target.Some? then s.goteHand + [Base(target.value.kind)] else s.goteHand;
      var pc := At(s.board, from).value;
      s.(board := Put(9, Put(9, s.board, from, None), to, Some(pc.(promoted := promotion))), goteHand := hand)
    case DropAction(k, to, _) =>
      s.(board := DropOnBoard(s.board, to, k, Gote), goteHand := RemoveFirst(s.goteHand, k))
  }

  /** One turn of the computer: with no candidate nothing happens (the turn
      does not pass); otherwise it plays the best action chosen by `pick`
      and hands the turn over. */
  function AiTurn(s: GameState, pick: nat): GameState {
    var acts := Actions(s.board, s.goteHand);
    if acts == [] then s
    else
      var a := Choose(acts, pick);
      ActionsSpec(s.board, s.goteHand, a);
      SwitchPlayer(ApplyAction(s, a))
  }

  /** What a computer turn does: nothing without candidates; otherwise it
      plays a legal move or drop whose score no candidate beats, Gote is not
      left in check, Sente's hand is untouched, no piece is created or lost,
      and the turn passes. */
  lemma AiTurnEffects(s: GameState, pick: nat)
    ensures Actions(s.board, s.goteHand) == [] ==> AiTurn(s, pick) == s
    ensures Actions(s.board, s.goteHand) != [] ==>
      var acts := Actions(s.board, s.goteHand);
      var a := Choose(acts, pick);
      var r := AiTurn(s, pick);
      && (LegalMove(s.board, a) || LegalDrop(s.board, s.goteHand, a))
      && (forall x :: LegalMove(s.board, x) || LegalDrop(s.board, s.goteHand, x) ==> x.score <= a.score)
      && !InCheck(r.board, Gote)
      && r.senteHand == s.senteHand
      && TotalPieces(r) == TotalPieces(s)
      && r.board == ApplyAction(s, a).board && r.goteHand == ApplyAction(s, a).goteHand
      && r.turn == Opponent(s.turn)
      && (IsOver(r) <==> IsCheckmate(r.board, r.turn, Hand(r, r.turn)))
      && (IsOver(r) ==> r.status.winner == s.turn)
  {
    var acts := Actions(s.board, s.goteHand);
    if acts != [] {
      var a := Choose(acts, pick);
      ActionsSpec(s.board, s.goteHand, a);
      forall x | LegalMove(s.board, x) || LegalDrop(s.board, s.goteHand, x) ensures x.score <= a.score {
        ActionsSpec(s.board, s.goteHand, x);
      }
      if a.MoveAction? {
        MoveCount(s.board, a.from, a.to, a.promotion);
      } else {
        DropCount(s.board, a.to, a.kind, Gote);
      }
    }
  }

  /** A candidate move of an already promoted piece never carries the
      promotion flag, so the code as written demotes the piece while the
      intended application keeps it promoted. */
  lemma PromotedPieceDemotedAsWritten(s: GameState, a: Action)
    requires LegalMove(s.board, a) && At(s.board, a.from).value.promoted
    ensures !a.promotion
    ensures At(ApplyActionAsWritten(s, a).board, a.to) == Some(At(s.board, a.from).value.(promoted := false))
    ensures At(ApplyAction(s, a).board, a.to) == Some(At(s.board, a.from).value)
  {
  }

  /** A Gote tokin alone on the board, stepping forward from (4, 4) to
      (5, 4): a candidate move without the promotion flag, after which the
      code as written leaves a plain pawn on (5, 4). */
  lemma TokinDemotedAsWritten()
    ensures var s := GameState(Put(9, EmptyBoard, Pos(4, 4), Some(Piece(Pawn, Gote, true))), [], [], Gote, Ongoing, true);
            var a := MoveAction(Pos(4, 4), Pos(5, 4), false, 0);
            && LegalMove(s.board, a)
            && At(ApplyActionAsWritten(s, a).board, Pos(5, 4)) == Some(Piece(Pawn, Gote, false))
            && At(ApplyAction(s, a).board, Pos(5, 4)) == Some(Piece(Pawn, Gote, true))
  {
    var tokin := Piece(Pawn, Gote, true);
    var b := Put(9, EmptyBoard, Pos(4, 4), Some(tokin));
    var a := MoveAction(Pos(4, 4), Pos(5, 4), false, 0);
    assert Effective(tokin) == PromotedPawn;
    assert ShogiMoves.Candidates(tokin, Pos(4, 4), b) == GoldSteps(Pos(4, 4), 1);
    assert Pos(5, 4) in ValidMoves(tokin, Pos(4, 4), b);
    var after := MoveOnBoard(b, Pos(4, 4), Pos(5, 4), false);
    forall q ensures !IsKingOf(after, q, Gote) && !IsKingOf(after, q, Sente) {
      if OnBoard(q) && q != Pos(5, 4) && q != Pos(4, 4) {
        assert At(after, q) == At(EmptyBoard, q);
      }
    }
    assert !InCheck(after, Gote) && !InCheck(after, Sente);
    assert MoveScore(b, Pos(4, 4), Pos(5, 4), false) == 0;
  }
}
