/** Shogi move generation: per-type candidate squares, sliding rays, and the
    on-board / not-own-piece filter (`ValidMoves`). */
module ShogiMoves {
  import opened Wrappers
  import opened Grid
  import opened Seqs
  import opened ShogiPieces
  import opened ShogiBoard

  /** The sliding walk from `cur` along `d`: the empty squares in turn and then
      the first occupied square if it holds an enemy piece, for at most `left`
      steps (the source walks at most eight). */
  function Ray(b: Board, cur: Pos, d: Dir, owner: Player, left: nat): seq<Pos>
    decreases left
  {
    if left == 0 then []
    else
      var next := Step(cur, d);
      if !OnBoard(next) then []
      else match At(b, next)
        case Some(pc) => if pc.owner != owner then [next] else []
        case None => [next] + Ray(b, next, d, owner, left - 1)
  }

  /** Every square strictly between `from` and its `k`-th step along `d` is
      on the board and empty. */
  predicate ClearPath(b: Board, from: Pos, d: Dir, k: nat) {
    forall j :: 1 <= j < k ==> OnBoard(Walk(from, d, j)) && IsEmpty(b, Walk(from, d, j))
  }

  /** Reference definition of a slide: `t` is `k` steps from `from` along `d`,
      on the board, not the mover's own piece, with a clear path to it. */
  predicate SlideTarget(b: Board, from: Pos, d: Dir, owner: Player, k: nat, t: Pos) {
    1 <= k && t == Walk(from, d, k) && OnBoard(t) && !OwnedBy(b, t, owner) && ClearPath(b, from, d, k)
  }

  /** `t` is reachable by sliding at most eight steps from `from` along `d`. */
  predicate Slides(b: Board, from: Pos, d: Dir, owner: Player, t: Pos) {
    exists k :: 1 <= k <= 8 && SlideTarget(b, from, d, owner, k, t)
  }

  lemma ShiftSlide(b: Board, cur: Pos, d: Dir, owner: Player, k: nat, t: Pos)
    requires OnBoard(Step(cur, d)) && IsEmpty(b, Step(cur, d)) && k >= 1
    ensures SlideTarget(b, cur, d, owner, k + 1, t) <==> SlideTarget(b, Step(cur, d), d, owner, k, t)
  {
    var next := Step(cur, d);
    assert forall j :: 1 <= j <= k ==> Walk(cur, d, j) == Walk(next, d, j - 1);
    assert Walk(cur, d, 1) == next by { assert Walk(next, d, 0) == next; }
    if ClearPath(b, next, d, k) {
      forall j | 1 <= j < k + 1
        ensures OnBoard(Walk(cur, d, j)) && IsEmpty(b, Walk(cur, d, j))
      {
        if j > 1 { assert Walk(cur, d, j) == Walk(next, d, j - 1); }
      }
    }
    if ClearPath(b, cur, d, k + 1) {
      forall j | 1 <= j < k
        ensures OnBoard(Walk(next, d, j)) && IsEmpty(b, Walk(next, d, j))
      {
        assert Walk(cur, d, j + 1) == Walk(next, d, j);
      }
    }
  }

  /** The ray is exactly the set of slide targets (stops at the first occupied
      square, which is included only when it holds an enemy piece). */
  lemma {:induction false} RaySpec(b: Board, cur: Pos, d: Dir, owner: Player, left: nat, t: Pos)
    ensures t in Ray(b, cur, d, owner, left)
        <==> exists k :: 1 <= k <= left && SlideTarget(b, cur, d, owner, k, t)
    decreases left
  {
    if left > 0 {
      var next := Step(cur, d);
      assert Walk(cur, d, 1) == next by { assert Walk(next, d, 0) == next; }
      if !OnBoard(next) {
        forall k | 1 <= k <= left ensures !SlideTarget(b, cur, d, owner, k, t) {
          assert !OnBoard(Walk(cur, d, 1));
        }
      } else if At(b, next).Some? {
        forall k | 2 <= k <= left ensures !SlideTarget(b, cur, d, owner, k, t) {
          assert !(OnBoard(Walk(cur, d, 1)) && IsEmpty(b, Walk(cur, d, 1)));
        }
        assert SlideTarget(b, cur, d, owner, 1, t) <==> t == next && !OwnedBy(b, next, owner);
      } else {
        RaySpec(b, next, d, owner, left - 1, t);
        assert SlideTarget(b, cur, d, owner, 1, t) <==> t == next;
        if t in Ray(b, next, d, owner, left - 1) {
          var k :| 1 <= k <= left - 1 && SlideTarget(b, next, d, owner, k, t);
          ShiftSlide(b, cur, d, owner, k, t);
        }
        if exists k :: 2 <= k <= left && SlideTarget(b, cur, d, owner, k, t) {
          var k :| 2 <= k <= left && SlideTarget(b, cur, d, owner, k, t);
          ShiftSlide(b, cur, d, owner, k - 1, t);
        }
      }
    }
  }

  /** The eight-step ray from `from` is exactly the slides along `d`. */
  lemma RayIsSlides(b: Board, from: Pos, d: Dir, owner: Player, t: Pos)
    ensures t in Ray(b, from, d, owner, 8) <==> Slides(b, from, d, owner, t)
  {
    RaySpec(b, from, d, owner, 8, t);
  }

  /** The candidate targets of `pc` standing on `from`, before filtering,
      dispatched on the type it moves as. */
  function Candidates(pc: Piece, from: Pos, b: Board): seq<Pos> {
    var f := Forward(pc.owner);
    var r := from.row;
    var c := from.col;
    match Effective(pc)
    case Pawn => [Pos(r + f, c)]
    case Lance => RaysFrom(b, from, SlideDirs(Lance, pc.owner), pc.owner)
    case Knight => [Pos(r + 2 * f, c - 1), Pos(r + 2 * f, c + 1)]
    case Silver => [Pos(r + f, c), Pos(r + f, c - 1), Pos(r + f, c + 1), Pos(r - f, c - 1), Pos(r - f, c + 1)]
    case Gold | PromotedPawn | PromotedLance | PromotedKnight | PromotedSilver => GoldSteps(from, f)
    case Bishop | Rook | PromotedBishop | PromotedRook =>
      RaysFrom(b, from, SlideDirs(Effective(pc), pc.owner), pc.owner) + ExtraSteps(Effective(pc), from)
    case King => [Pos(r - 1, c - 1), Pos(r - 1, c), Pos(r - 1, c + 1), Pos(r, c - 1),
                  Pos(r, c + 1), Pos(r + 1, c - 1), Pos(r + 1, c), Pos(r + 1, c + 1)]
  }

  /** Gold's steps (shared by the promoted pawn, lance, knight and silver):
      forward, backward, both sideways and both forward diagonals. */
  function GoldSteps(from: Pos, f: int): seq<Pos> {
    var r := from.row;
    var c := from.col;
    [Pos(r + f, c), Pos(r - f, c), Pos(r, c - 1), Pos(r, c + 1), Pos(r + f, c - 1), Pos(r + f, c + 1)]
  }

  const DiagonalDirs: seq<Dir> := [Dir(-1, -1), Dir(-1, 1), Dir(1, -1), Dir(1, 1)]
  const OrthogonalDirs: seq<Dir> := [Dir(-1, 0), Dir(1, 0), Dir(0, -1), Dir(0, 1)]

  /** The rays along each of `ds`, one after the other. */
  function RaysFrom(b: Board, from: Pos, ds: seq<Dir>, owner: Player): seq<Pos> {
    Flatten(seq(|ds|, i requires 0 <= i < |ds| => Ray(b, from, ds[i], owner, 8)))
  }

  /** The single steps a promoted bishop (orthogonal) or promoted rook
      (diagonal) adds to its slides. */
  function ExtraSteps(t: PieceType, from: Pos): seq<Pos> {
    var r := from.row;
    var c := from.col;
    match t
    case PromotedBishop => [Pos(r + 1, c), Pos(r - 1, c), Pos(r, c + 1), Pos(r, c - 1)]
    case PromotedRook => [Pos(r + 1, c + 1), Pos(r + 1, c - 1), Pos(r - 1, c + 1), Pos(r - 1, c - 1)]
    case _ => []
  }

  /** The candidates that are on the board and not occupied by the owner. */
  function KeepTargets(ms: seq<Pos>, b: Board, owner: Player): (r: seq<Pos>)
    ensures forall t :: t in r <==> t in ms && OnBoard(t) && !OwnedBy(b, t, owner)
    ensures |r| <= |ms|
  {
    if |ms| == 0 then []
    else
      var rest := KeepTargets(ms[1..], b, owner);
      if OnBoard(ms[0]) && !OwnedBy(b, ms[0], owner) then [ms[0]] + rest else rest
  }

  /** The squares `pc` standing on `from` may move to. This is the intended
      behaviour, in which a promoted rook or bishop keeps its slides and adds
      its four single steps; `ValidMovesAsWritten` is the code's behaviour. */
  function ValidMoves(pc: Piece, from: Pos, b: Board): (r: seq<Pos>)
    ensures forall t :: t in r ==> OnBoard(t) && !OwnedBy(b, t, pc.owner)
  {
    KeepTargets(Candidates(pc, from, b), b, pc.owner)
  }

  /** Move generation as the code is written: the lookup of the promoted
      symbol finds no movement rule for a promoted rook or bishop, and the
      function returns no moves before reaching its slider branch. */
  function ValidMovesAsWritten(pc: Piece, from: Pos, b: Board): (r: seq<Pos>)
    ensures Effective(pc) == PromotedRook || Effective(pc) == PromotedBishop ==> r == []
    ensures Effective(pc) != PromotedRook && Effective(pc) != PromotedBishop ==> r == ValidMoves(pc, from, b)
  {
    if Effective(pc) == PromotedRook || Effective(pc) == PromotedBishop then []
    else KeepTargets(Candidates(pc, from, b), b, pc.owner)
  }

  /** A dragon in the middle of an empty board: the code gives it no move, the
      intended rule gives it the square in front of it. */
  lemma DragonStuckAsWritten()
    ensures ValidMovesAsWritten(Piece(Rook, Sente, true), Pos(4, 4), EmptyBoard) == []
    ensures Pos(3, 4) in ValidMoves(Piece(Rook, Sente, true), Pos(4, 4), EmptyBoard)
  {
    var pc := Piece(Rook, Sente, true);
    assert Effective(pc) == PromotedRook;
    var up := Ray(EmptyBoard, Pos(4, 4), OrthogonalDirs[0], Sente, 8);
    assert At(EmptyBoard, Pos(3, 4)).None?;
    assert up[0] == Pos(3, 4);
    var rays := seq(4, i requires 0 <= i < 4 => Ray(EmptyBoard, Pos(4, 4), OrthogonalDirs[i], Sente, 8));
    FlattenMember(rays, Pos(3, 4));
    assert Pos(3, 4) in rays[0];
    assert Pos(3, 4) in Candidates(pc, Pos(4, 4), EmptyBoard);
  }

  // ---- Reference definitions of the movement rules ----

  /** The step pieces' moves, as row/column offsets from the piece with `f`
      the owner's forward direction. */
  predicate StepOffset(t: PieceType, f: int, dr: int, dc: int) {
    match t
    case Pawn => dr == f && dc == 0
    case Knight => dr == 2 * f && (dc == -1 || dc == 1)
    case Silver => (dr == f && -1 <= dc <= 1) || (dr == -f && (dc == -1 || dc == 1))
    case King => -1 <= dr <= 1 && -1 <= dc <= 1 && !(dr == 0 && dc == 0)
    case Gold => GoldOffset(f, dr, dc)
    case PromotedPawn => GoldOffset(f, dr, dc)
    case PromotedLance => GoldOffset(f, dr, dc)
    case PromotedKnight => GoldOffset(f, dr, dc)
    case PromotedSilver => GoldOffset(f, dr, dc)
    case _ => false
  }

  /** Forward three, both sideways, and straight back. */
  predicate GoldOffset(f: int, dr: int, dc: int) {
    (dr == f && -1 <= dc <= 1) || (dr == 0 && (dc == -1 || dc == 1)) || (dr == -f && dc == 0)
  }

  predicate IsSlider(t: PieceType) {
    t in {Lance, Bishop, Rook, PromotedBishop, PromotedRook}
  }

  /** The directions a slider slides in. */
  function SlideDirs(t: PieceType, owner: Player): seq<Dir> {
    match t
    case Lance => [Dir(Forward(owner), 0)]
    case Bishop => DiagonalDirs
    case PromotedBishop => DiagonalDirs
    case Rook => OrthogonalDirs
    case PromotedRook => OrthogonalDirs
    case _ => []
  }

  /** The extra single steps of the promoted sliders. */
  predicate ExtraStep(t: PieceType, dr: int, dc: int) {
    match t
    case PromotedBishop => (dr == 0 && (dc == 1 || dc == -1)) || (dc == 0 && (dr == 1 || dr == -1))
    case PromotedRook => (dr == 1 || dr == -1) && (dc == 1 || dc == -1)
    case _ => false
  }

  /** The candidates of a step piece are exactly its offset pattern. */
  lemma StepCandidates(pc: Piece, from: Pos, b: Board, t: Pos)
    requires !IsSlider(Effective(pc))
    ensures t in Candidates(pc, from, b)
        <==> StepOffset(Effective(pc), Forward(pc.owner), t.row - from.row, t.col - from.col)
  {
    var e := Effective(pc);
    var f := Forward(pc.owner);
    var r := from.row;
    var c := from.col;
    if e == Pawn {
      assert Candidates(pc, from, b) == [Pos(r + f, c)];
    } else if e == Knight {
      assert Candidates(pc, from, b) == [Pos(r + 2 * f, c - 1), Pos(r + 2 * f, c + 1)];
    } else if e == Silver {
      assert Candidates(pc, from, b)
          == [Pos(r + f, c), Pos(r + f, c - 1), Pos(r + f, c + 1), Pos(r - f, c - 1), Pos(r - f, c + 1)];
    } else if e == King {
      assert Candidates(pc, from, b)
          == [Pos(r - 1, c - 1), Pos(r - 1, c), Pos(r - 1, c + 1), Pos(r, c - 1),
              Pos(r, c + 1), Pos(r + 1, c - 1), Pos(r + 1, c), Pos(r + 1, c + 1)];
    } else {
      assert e in {Gold, PromotedPawn, PromotedLance, PromotedKnight, PromotedSilver};
      assert Candidates(pc, from, b) == GoldSteps(from, f);
      assert StepOffset(e, f, t.row - r, t.col - c) == GoldOffset(f, t.row - r, t.col - c);
    }
  }

  /** Pawn, knight, silver, gold, the gold-moving promoted pieces and the king
      move exactly by their offset pattern, onto squares not holding their own
      pieces. */
  lemma StepMoves(pc: Piece, from: Pos, b: Board, t: Pos)
    requires !IsSlider(Effective(pc))
    ensures t in ValidMoves(pc, from, b)
        <==> OnBoard(t) && !OwnedBy(b, t, pc.owner)
             && StepOffset(Effective(pc), Forward(pc.owner), t.row - from.row, t.col - from.col)
  {
    StepCandidates(pc, from, b, t);
  }

  /** Membership in the rays along `ds` is sliding along one of them. */
  lemma InRays(b: Board, from: Pos, ds: seq<Dir>, owner: Player, t: Pos)
    ensures t in RaysFrom(b, from, ds, owner) <==> exists i :: 0 <= i < |ds| && Slides(b, from, ds[i], owner, t)
  {
    var rays := seq(|ds|, i requires 0 <= i < |ds| => Ray(b, from, ds[i], owner, 8));
    FlattenMember(rays, t);
    forall i | 0 <= i < |ds| ensures t in rays[i] <==> Slides(b, from, ds[i], owner, t) {
      RayIsSlides(b, from, ds[i], owner, t);
    }
  }

  /** A slide never ends on the mover's own piece or off the board. */
  lemma SlideIsTarget(b: Board, from: Pos, d: Dir, owner: Player, t: Pos)
    requires Slides(b, from, d, owner, t)
    ensures OnBoard(t) && !OwnedBy(b, t, owner)
  {
  }

  /** The candidates of a slider are exactly its slides and extra steps. */
  lemma SliderCandidates(pc: Piece, from: Pos, b: Board, t: Pos)
    requires IsSlider(Effective(pc))
    ensures t in Candidates(pc, from, b)
        <==> (exists i :: 0 <= i < |SlideDirs(Effective(pc), pc.owner)|
                          && Slides(b, from, SlideDirs(Effective(pc), pc.owner)[i], pc.owner, t))
             || ExtraStep(Effective(pc), t.row - from.row, t.col - from.col)
  {
    var e := Effective(pc);
    var ds := SlideDirs(e, pc.owner);
    InRays(b, from, ds, pc.owner, t);
    if e == Lance {
      assert Candidates(pc, from, b) == RaysFrom(b, from, ds, pc.owner);
    } else {
      assert Candidates(pc, from, b) == RaysFrom(b, from, ds, pc.owner) + ExtraSteps(e, from);
      assert t in ExtraSteps(e, from) <==> ExtraStep(e, t.row - from.row, t.col - from.col);
    }
  }

  /** Lance, bishop, rook and the promoted bishop and rook move exactly by
      sliding in their directions, plus the promoted pieces' extra steps onto
      squares on the board not holding their own pieces. */
  lemma SliderMoves(pc: Piece, from: Pos, b: Board, t: Pos)
    requires IsSlider(Effective(pc))
    ensures t in ValidMoves(pc, from, b)
        <==> (exists i :: 0 <= i < |SlideDirs(Effective(pc), pc.owner)|
                          && Slides(b, from, SlideDirs(Effective(pc), pc.owner)[i], pc.owner, t))
             || (OnBoard(t) && !OwnedBy(b, t, pc.owner)
                 && ExtraStep(Effective(pc), t.row - from.row, t.col - from.col))
  {
    SliderCandidates(pc, from, b, t);
    var ds := SlideDirs(Effective(pc), pc.owner);
    if exists i :: 0 <= i < |ds| && Slides(b, from, ds[i], pc.owner, t) {
      var i :| 0 <= i < |ds| && Slides(b, from, ds[i], pc.owner, t);
      SlideIsTarget(b, from, ds[i], pc.owner, t);
    }
  }

  /** A pawn or lance on the last rank, or a knight on the last two, is
      exactly an unpromoted piece that would have no move even on an empty
      board: the reason such a piece must promote. */
  lemma MustPromoteIffStuck(t: PieceType, p: Player, from: Pos)
    requires t == Pawn || t == Lance || t == Knight
    requires OnBoard(from)
    ensures MustPromote(Piece(t, p, false), from.row, p)
        <==> ValidMoves(Piece(t, p, false), from, EmptyBoard) == []
  {
    if t == Pawn { PawnStuck(p, from); }
    else if t == Lance { LanceStuck(p, from); }
    else { KnightStuck(p, from); }
  }

  lemma PawnStuck(p: Player, from: Pos)
    requires OnBoard(from)
    ensures MustPromote(Piece(Pawn, p, false), from.row, p)
        <==> ValidMoves(Piece(Pawn, p, false), from, EmptyBoard) == []
  {
    var pc := Piece(Pawn, p, false);
    var ahead := Pos(from.row + Forward(p), from.col);
    assert Candidates(pc, from, EmptyBoard) == [ahead];
    if OnBoard(ahead) {
      assert IsEmpty(EmptyBoard, ahead);
      assert ahead in ValidMoves(pc, from, EmptyBoard);
    }
  }

  lemma LanceStuck(p: Player, from: Pos)
    requires OnBoard(from)
    ensures MustPromote(Piece(Lance, p, false), from.row, p)
        <==> ValidMoves(Piece(Lance, p, false), from, EmptyBoard) == []
  {
    var pc := Piece(Lance, p, false);
    var d := Dir(Forward(p), 0);
    var ahead := Step(from, d);
    var ray := Ray(EmptyBoard, from, d, p, 8);
    assert SlideDirs(Lance, p) == [d];
    assert Candidates(pc, from, EmptyBoard) == RaysFrom(EmptyBoard, from, [d], p);
    assert RaysFrom(EmptyBoard, from, [d], p) == Flatten([ray]) by {
      assert seq(1, i requires 0 <= i < 1 => Ray(EmptyBoard, from, [d][i], p, 8)) == [ray];
    }
    assert Flatten([ray]) == ray by {
      assert [ray][1..] == [];
    }
    if OnBoard(ahead) {
      assert At(EmptyBoard, ahead) == None;
      assert ray == [ahead] + Ray(EmptyBoard, ahead, d, p, 7);
      KeepTargetsHead(ray, EmptyBoard, p);
    } else {
      assert ray == [];
    }
  }

  /** A first candidate that is on the board and free of own pieces is kept. */
  lemma KeepTargetsHead(ms: seq<Pos>, b: Board, owner: Player)
    requires |ms| > 0 && OnBoard(ms[0]) && !OwnedBy(b, ms[0], owner)
    ensures KeepTargets(ms, b, owner) != []
  {
  }

  lemma KnightStuck(p: Player, from: Pos)
    requires OnBoard(from)
    ensures MustPromote(Piece(Knight, p, false), from.row, p)
        <==> ValidMoves(Piece(Knight, p, false), from, EmptyBoard) == []
  {
    var pc := Piece(Knight, p, false);
    var f := Forward(p);
    var left := Pos(from.row + 2 * f, from.col - 1);
    var right := Pos(from.row + 2 * f, from.col + 1);
    assert Candidates(pc, from, EmptyBoard) == [left, right];
    if OnBoard(left) {
      assert IsEmpty(EmptyBoard, left);
      assert left in ValidMoves(pc, from, EmptyBoard);
    }
    if OnBoard(right) {
      assert IsEmpty(EmptyBoard, right);
      assert right in ValidMoves(pc, from, EmptyBoard);
    }
  }

  /** Whose piece, if any, stands on a square. */
  function OwnerOf(sq: Square): Option<Player> {
    if sq.Some? then Some(sq.value.owner) else None
  }

  /** The two boards have the same occupied squares with the same owners
      (the piece types may differ). */
  ghost predicate SameOccupancy(b1: Board, b2: Board) {
    forall q :: OnBoard(q) ==> OwnerOf(At(b1, q)) == OwnerOf(At(b2, q))
  }

  lemma {:induction false} RaySameOccupancy(b1: Board, b2: Board, cur: Pos, d: Dir, owner: Player, left: nat)
    requires SameOccupancy(b1, b2)
    ensures Ray(b1, cur, d, owner, left) == Ray(b2, cur, d, owner, left)
    decreases left
  {
    if left > 0 {
      var next := Step(cur, d);
      if OnBoard(next) {
        assert OwnerOf(At(b1, next)) == OwnerOf(At(b2, next));
        RaySameOccupancy(b1, b2, next, d, owner, left - 1);
      }
    }
  }

  lemma {:induction false} KeepSameOccupancy(ms: seq<Pos>, b1: Board, b2: Board, owner: Player)
    requires SameOccupancy(b1, b2)
    ensures KeepTargets(ms, b1, owner) == KeepTargets(ms, b2, owner)
  {
    if |ms| > 0 {
      KeepSameOccupancy(ms[1..], b1, b2, owner);
      if OnBoard(ms[0]) {
        assert OwnerOf(At(b1, ms[0])) == OwnerOf(At(b2, ms[0]));
      }
    }
  }

  /** Move generation sees only which squares are occupied and by whom: the
      types of the other pieces on the board do not matter. */
  lemma MovesSameOccupancy(pc: Piece, from: Pos, b1: Board, b2: Board)
    requires SameOccupancy(b1, b2)
    ensures ValidMoves(pc, from, b1) == ValidMoves(pc, from, b2)
  {
    var e := Effective(pc);
    if IsSlider(e) {
      var ds := SlideDirs(e, pc.owner);
      var rays1 := seq(|ds|, i requires 0 <= i < |ds| => Ray(b1, from, ds[i], pc.owner, 8));
      var rays2 := seq(|ds|, i requires 0 <= i < |ds| => Ray(b2, from, ds[i], pc.owner, 8));
      forall i | 0 <= i < |ds| ensures rays1[i] == rays2[i] {
        RaySameOccupancy(b1, b2, from, ds[i], pc.owner, 8);
      }
      assert rays1 == rays2;
      assert RaysFrom(b1, from, ds, pc.owner) == RaysFrom(b2, from, ds, pc.owner);
    }
    assert Candidates(pc, from, b1) == Candidates(pc, from, b2);
    KeepSameOccupancy(Candidates(pc, from, b1), b1, b2, pc.owner);
  }
}
