/** Othello on an 8 x 8 board: the discs a move flips, playing a move,
    the disc counts, the end of the game and its winner, the starting
    position and the computer's choice of move. */
module Othello {
  import opened Wrappers
  import opened Grid
  import opened Seqs

  datatype Disc = Black | White

  type Cell = Option<Disc>

  type Board = b: seq<seq<Cell>> | IsGrid(b, 8) witness Fill(8, None)

  function Other(d: Disc): (e: Disc)
    ensures e != d
  {
    if d == Black then White else Black
  }

  predicate OnBoard(p: Pos) {
    InSquare(p, 8)
  }

  function At(b: Board, p: Pos): Cell
    requires OnBoard(p)
  {
    Get(b, p)
  }

  /** The eight directions, in the order the flips are collected. */
  const Directions: seq<Dir> :=
    [Dir(-1, -1), Dir(-1, 0), Dir(-1, 1), Dir(0, -1), Dir(0, 1), Dir(1, -1), Dir(1, 0), Dir(1, 1)]

  /** `q` is on the board and holds a disc of colour `d`. */
  predicate DiscAt(b: Board, q: Pos, d: Disc) {
    OnBoard(q) && At(b, q) == Some(d)
  }

  /** How far `p` is from the edge that a walk along the unit direction
      `d` runs into: every step lowers it, and it stays positive while the
      walk is on the board. */
  function Reach(p: Pos, d: Dir): int {
    (if d.dr == 1 then 8 - p.row else if d.dr == -1 then p.row + 1 else 0)
    + (if d.dc == 1 then 8 - p.col else if d.dc == -1 then p.col + 1 else 0)
  }

  /** The number of `opp` discs met in a row stepping from `cur` along `d`. */
  function RunLength(b: Board, cur: Pos, d: Dir, opp: Disc): (n: nat)
    requires IsUnit(d)
    ensures forall j :: 1 <= j <= n ==> DiscAt(b, Walk(cur, d, j), opp)
    ensures !DiscAt(b, Walk(cur, d, n + 1), opp)
    decreases Reach(cur, d)
  {
    var next := Step(cur, d);
    assert Walk(cur, d, 1) == next by { assert Walk(next, d, 0) == next; }
    if DiscAt(b, next, opp) then
      var m := RunLength(b, next, d, opp);
      assert forall j :: 1 <= j <= m + 1 ==> Walk(cur, d, j) == Walk(next, d, j - 1);
      1 + m
    else 0
  }

  /** Reference definition of a bracket: placing `p` on `at` encloses
      exactly `k` >= 1 opponent discs along `d`, closed by a disc of `p`. */
  predicate Brackets(b: Board, at: Pos, d: Dir, p: Disc, k: nat) {
    1 <= k
    && (forall j :: 1 <= j <= k ==> DiscAt(b, Walk(at, d, j), Other(p)))
    && DiscAt(b, Walk(at, d, k + 1), p)
  }

  /** `t` lies strictly inside a bracket of `p` from `at` along `d`. */
  ghost predicate InBracket(b: Board, at: Pos, d: Dir, p: Disc, t: Pos) {
    exists k, j :: 1 <= j <= k && Brackets(b, at, d, p, k) && t == Walk(at, d, j)
  }

  /** A bracket is the whole opponent run, so there is at most one per
      direction. */
  lemma BracketIsRun(b: Board, at: Pos, d: Dir, p: Disc, k: nat)
    requires IsUnit(d) && Brackets(b, at, d, p, k)
    ensures RunLength(b, at, d, Other(p)) == k
  {
    var n := RunLength(b, at, d, Other(p));
    var afterRun, afterBracket := Walk(at, d, n + 1), Walk(at, d, k + 1);
    assert n + 1 > k || DiscAt(b, afterRun, Other(p));
    assert k + 1 > n || DiscAt(b, afterBracket, Other(p));
  }

  /** The discs `p` flips along `d` by playing on `at`: the run of opponent
      discs, provided it is non-empty and ends on the board at a disc of
      `p`; nothing otherwise. */
  function DirFlips(b: Board, at: Pos, d: Dir, p: Disc): (fs: seq<Pos>)
    requires IsUnit(d)
    ensures fs != [] ==> Brackets(b, at, d, p, |fs|)
    ensures forall j :: 0 <= j < |fs| ==> fs[j] == Walk(at, d, j + 1)
  {
    var n := RunLength(b, at, d, Other(p));
    if n > 0 && DiscAt(b, Walk(at, d, n + 1), p) then seq(n, j requires 0 <= j < n => Walk(at, d, j + 1))
    else []
  }

  /** The flips along one direction are exactly the discs inside a bracket. */
  lemma DirFlipsSpec(b: Board, at: Pos, d: Dir, p: Disc, t: Pos)
    requires IsUnit(d)
    ensures t in DirFlips(b, at, d, p) <==> InBracket(b, at, d, p, t)
  {
    var fs := DirFlips(b, at, d, p);
    if t in fs {
      var i :| 0 <= i < |fs| && fs[i] == t;
      assert Brackets(b, at, d, p, |fs|) && t == Walk(at, d, i + 1);
    }
    if InBracket(b, at, d, p, t) {
      var k, j :| 1 <= j <= k && Brackets(b, at, d, p, k) && t == Walk(at, d, j);
      BracketIsRun(b, at, d, p, k);
      assert |fs| == k;
      assert fs[j - 1] == t;
    }
  }

  lemma DirectionsUnit()
    ensures |Directions| == 8
    ensures forall i :: 0 <= i < 8 ==> IsUnit(Directions[i])
    ensures forall i, j :: 0 <= i < j < 8 ==> Directions[i] != Directions[j]
  {
  }

  /** The flips of each of the eight directions, in order. */
  function PerDirection(b: Board, at: Pos, p: Disc): (per: seq<seq<Pos>>)
    ensures |per| == 8
    ensures forall i :: 0 <= i < 8 ==> IsUnit(Directions[i]) && per[i] == DirFlips(b, at, Directions[i], p)
  {
    DirectionsUnit();
    seq(8, i requires 0 <= i < 8 => DirFlips(b, at, Directions[i], p))
  }

  /** The discs flipped by `p` playing on `at`, direction by direction;
      none when `at` is occupied. */
  function Flips(b: Board, at: Pos, p: Disc): (fs: seq<Pos>)
    requires OnBoard(at)
    ensures At(b, at).Some? ==> fs == []
  {
    if At(b, at).Some? then [] else Flatten(PerDirection(b, at, p))
  }

  /** A disc is flipped exactly when it lies inside a bracket in one of the
      eight directions from the empty square played. */
  lemma FlipsSpec(b: Board, at: Pos, p: Disc, t: Pos)
    requires OnBoard(at)
    ensures t in Flips(b, at, p)
        <==> At(b, at).None? && exists i :: 0 <= i < 8 && InBracket(b, at, Directions[i], p, t)
  {
    if At(b, at).None? {
      var per := PerDirection(b, at, p);
      FlattenMember(per, t);
      forall i | 0 <= i < 8 ensures t in per[i] <==> InBracket(b, at, Directions[i], p, t) {
        DirFlipsSpec(b, at, Directions[i], p, t);
      }
    }
  }

  /** Every flipped disc is an opponent disc on one of the rays from `at`. */
  lemma FlipsAreOpponentDiscs(b: Board, at: Pos, p: Disc, t: Pos)
    requires OnBoard(at) && t in Flips(b, at, p)
    ensures DiscAt(b, t, Other(p)) && t != at
    ensures exists i, j :: 0 <= i < 8 && 1 <= j && t == Walk(at, Directions[i], j)
  {
    FlipsSpec(b, at, p, t);
    var i :| 0 <= i < 8 && InBracket(b, at, Directions[i], p, t);
    var k, j :| 1 <= j <= k && Brackets(b, at, Directions[i], p, k) && t == Walk(at, Directions[i], j);
    assert At(b, at).None?;
  }

  /** No disc is flipped twice. */
  lemma FlipsDistinct(b: Board, at: Pos, p: Disc)
    requires OnBoard(at)
    ensures Distinct(Flips(b, at, p))
  {
    if At(b, at).None? {
      var per := PerDirection(b, at, p);
      DirectionsUnit();
      forall i | 0 <= i < 8 ensures Distinct(per[i]) {
        var fs := per[i];
        forall x, y | 0 <= x < y < |fs| ensures fs[x] != fs[y] {
          if fs[x] == fs[y] {
            WalkInjective(at, Directions[i], x + 1, Directions[i], y + 1);
          }
        }
      }
      forall i, j, t | 0 <= i < j < 8 && t in per[i] ensures t !in per[j] {
        if t in per[j] {
          var x :| 0 <= x < |per[i]| && per[i][x] == t;
          var y :| 0 <= y < |per[j]| && per[j][y] == t;
          WalkInjective(at, Directions[i], x + 1, Directions[j], y + 1);
        }
      }
      FlattenDistinct(per);
    }
  }

  /** `b` with every square of `ts` set to `p`, in order. */
  function FlipAll(b: Board, ts: seq<Pos>, p: Disc): (b': Board)
    requires forall t :: t in ts ==> OnBoard(t)
    ensures forall q :: OnBoard(q) ==> At(b', q) == if q in ts then Some(p) else At(b, q)
    decreases |ts|
  {
    if ts == [] then b
    else
      assert OnBoard(ts[0]);
      FlipAll(Put(8, b, ts[0], Some(p)), ts[1..], p)
  }

  /** Setting distinct opponent discs to `p` moves each of them from the
      opponent's count to `p`'s and leaves the empty squares alone. */
  lemma {:induction false} FlipAllCounts(b: Board, ts: seq<Pos>, p: Disc)
    requires forall t :: t in ts ==> OnBoard(t) && At(b, t) == Some(Other(p))
    requires Distinct(ts)
    ensures Count(FlipAll(b, ts, p), Some(p)) == Count(b, Some(p)) + |ts|
    ensures Count(FlipAll(b, ts, p), Some(Other(p))) == Count(b, Some(Other(p))) - |ts|
    ensures Count(FlipAll(b, ts, p), None) == Count(b, None)
    decreases |ts|
  {
    if ts != [] {
      assert OnBoard(ts[0]);
      var b1 := Put(8, b, ts[0], Some(p));
      CountAfterSet(b, ts[0], Some(p), Some(p));
      CountAfterSet(b, ts[0], Some(p), Some(Other(p)));
      CountAfterSet(b, ts[0], Some(p), None);
      forall t | t in ts[1..] ensures OnBoard(t) && At(b1, t) == Some(Other(p)) {
        assert t != ts[0];
      }
      assert Distinct(ts[1..]) by {
        forall x, y | 0 <= x < y < |ts[1..]| ensures ts[1..][x] != ts[1..][y] {
          assert ts[1..][x] == ts[x + 1] && ts[1..][y] == ts[y + 1];
        }
      }
      FlipAllCounts(b1, ts[1..], p);
    }
  }

  /** Why a move is refused. */
  datatype PlayError = Occupied | NoFlips

  /** `p` plays on `at`: refused on an occupied square or when nothing would
      flip; otherwise the disc is placed and the flips are turned over. */
  function Play(b: Board, at: Pos, p: Disc): (r: Result<Board, PlayError>)
    requires OnBoard(at)
    ensures r == Err(Occupied) <==> At(b, at).Some?
    ensures r == Err(NoFlips) <==> At(b, at).None? && Flips(b, at, p) == []
  {
    if At(b, at).Some? then Err(Occupied)
    else
      var fs := Flips(b, at, p);
      if fs == [] then Err(NoFlips)
      else
        forall t | t in fs ensures OnBoard(t) { FlipsAreOpponentDiscs(b, at, p, t); }
        Ok(FlipAll(Put(8, b, at, Some(p)), fs, p))
  }

  /** A played move sets the square played and every flipped disc to the
      mover's colour and leaves every other square as it was. */
  lemma PlayFrame(b: Board, at: Pos, p: Disc, q: Pos)
    requires OnBoard(at) && OnBoard(q) && Play(b, at, p).Ok?
    ensures At(Play(b, at, p).value, q)
         == if q == at || q in Flips(b, at, p) then Some(p) else At(b, q)
  {
  }

  /** After a move flipping `k` discs the mover has `k + 1` more discs, the
      opponent `k` fewer, and one square fewer is empty. */
  lemma PlayCounts(b: Board, at: Pos, p: Disc)
    requires OnBoard(at) && Play(b, at, p).Ok?
    ensures var b' := Play(b, at, p).value;
            var k := |Flips(b, at, p)|;
            && Count(b', Some(p)) == Count(b, Some(p)) + k + 1
            && Count(b', Some(Other(p))) == Count(b, Some(Other(p))) - k
            && Count(b', None) == Count(b, None) - 1
  {
    var fs := Flips(b, at, p);
    var b1 := Put(8, b, at, Some(p));
    CountAfterSet(b, at, Some(p), Some(p));
    CountAfterSet(b, at, Some(p), Some(Other(p)));
    CountAfterSet(b, at, Some(p), None);
    forall t | t in fs ensures OnBoard(t) && At(b1, t) == Some(Other(p)) {
      FlipsAreOpponentDiscs(b, at, p, t);
    }
    FlipsDistinct(b, at, p);
    FlipAllCounts(b1, fs, p);
  }

  /** The number of `d`'s discs on the board. */
  function Score(b: Board, d: Disc): nat {
    Count(b, Some(d))
  }

  /** Whether `p` has a move: an empty square where some disc would flip. */
  function HasAnyValidMoves(b: Board, p: Disc): (r: bool)
    ensures r <==> exists q :: OnBoard(q) && At(b, q).None? && Flips(b, q, p) != []
  {
    AnyCell(8, q => OnBoard(q) && At(b, q).None? && Flips(b, q, p) != [])
  }

  /** The game is over when neither colour can move. */
  predicate GameOver(b: Board) {
    !HasAnyValidMoves(b, Black) && !HasAnyValidMoves(b, White)
  }

  datatype Outcome = Winner(disc: Disc) | Draw

  /** The result: more discs wins, equal counts draw. */
  function Result(b: Board): (o: Outcome)
    ensures o == Winner(Black) <==> Score(b, Black) > Score(b, White)
    ensures o == Winner(White) <==> Score(b, White) > Score(b, Black)
    ensures o == Draw <==> Score(b, Black) == Score(b, White)
  {
    if Score(b, Black) > Score(b, White) then Winner(Black)
    else if Score(b, White) > Score(b, Black) then Winner(White)
    else Draw
  }

  /** The starting position: White on (3,3) and (4,4), Black on (3,4) and
      (4,3); Black moves first. */
  function InitialBoard(): (b: Board)
    ensures forall q :: OnBoard(q) ==>
      At(b, q) == (if q == Pos(3, 3) || q == Pos(4, 4) then Some(White)
                   else if q == Pos(3, 4) || q == Pos(4, 3) then Some(Black)
                   else None)
  {
    var b0: Board := Fill(8, None);
    var b1: Board := Set(b0, Pos(3, 3), Some(White));
    var b2: Board := Set(b1, Pos(3, 4), Some(Black));
    var b3: Board := Set(b2, Pos(4, 3), Some(Black));
    Set(b3, Pos(4, 4), Some(White))
  }

  const FirstPlayer: Disc := Black

  /** An empty board holds no disc of either colour. */
  lemma EmptyCounts(d: Disc)
    ensures Count(Fill(8, None), Some(d)) == 0
  {
    var g: seq<seq<Cell>> := Fill(8, None);
    forall i | 0 <= i < |g| ensures Some(d) !in g[i] {
      forall c | 0 <= c < |g[i]| ensures g[i][c] == None {
        assert Get(g, Pos(i, c)) == None;
      }
    }
    FlattenMember(g, Some(d));
  }

  /** A disc put on an empty square adds one to its colour's score and
      leaves the other colour's alone. */
  lemma PlaceOnEmpty(b: Board, p: Pos, d: Disc)
    requires OnBoard(p) && At(b, p) == None
    ensures Score(Set(b, p, Some(d)), d) == Score(b, d) + 1
    ensures Score(Set(b, p, Some(d)), Other(d)) == Score(b, Other(d))
  {
    CountAfterSet(b, p, Some(d), Some(d));
    CountAfterSet(b, p, Some(d), Some(Other(d)));
  }

  /** Placing the four starting discs on an empty board gives two of each
      colour. */
  lemma FourDiscCounts(b0: Board)
    requires Score(b0, Black) == 0 && Score(b0, White) == 0
    requires forall q :: OnBoard(q) ==> At(b0, q) == None
    ensures var b1 := Set(b0, Pos(3, 3), Some(White));
            var b2 := Set(b1, Pos(3, 4), Some(Black));
            var b3 := Set(b2, Pos(4, 3), Some(Black));
            var b4 := Set(b3, Pos(4, 4), Some(White));
            Score(b4, Black) == 2 && Score(b4, White) == 2
  {
    var b1: Board := Set(b0, Pos(3, 3), Some(White));
    var b2: Board := Set(b1, Pos(3, 4), Some(Black));
    var b3: Board := Set(b2, Pos(4, 3), Some(Black));
    var b4: Board := Set(b3, Pos(4, 4), Some(White));
    PlaceOnEmpty(b0, Pos(3, 3), White);
    assert Score(b1, Black) == 0 && Score(b1, White) == 1;
    assert At(b1, Pos(3, 4)) == At(b0, Pos(3, 4)) == None;
    PlaceOnEmpty(b1, Pos(3, 4), Black);
    assert Score(b2, Black) == 1 && Score(b2, White) == 1;
    assert At(b2, Pos(4, 3)) == At(b1, Pos(4, 3)) == At(b0, Pos(4, 3)) == None;
    PlaceOnEmpty(b2, Pos(4, 3), Black);
    assert Score(b3, Black) == 2 && Score(b3, White) == 1;
    assert At(b3, Pos(4, 4)) == At(b2, Pos(4, 4)) == At(b1, Pos(4, 4)) == At(b0, Pos(4, 4)) == None;
    PlaceOnEmpty(b3, Pos(4, 4), White);
  }

  /** The game starts with two discs of each colour. */
  lemma InitialScores()
    ensures Score(InitialBoard(), Black) == 2 && Score(InitialBoard(), White) == 2
  {
    EmptyCounts(Black);
    EmptyCounts(White);
    FourDiscCounts(Fill(8, None));
  }

  /** Downward from (2,3), a White disc on (3,3) is closed off by a Black
      disc on (4,3). */
  lemma BracketDown(b: Board)
    requires At(b, Pos(3, 3)) == Some(White) && At(b, Pos(4, 3)) == Some(Black)
    ensures InBracket(b, Pos(2, 3), Directions[6], Black, Pos(3, 3))
  {
    var at, down := Pos(2, 3), Dir(1, 0);
    assert Directions[6] == down;
    WalkClosedForm(at, down, 1);
    WalkClosedForm(at, down, 2);
    SingleBracket(b, at, down, Black);
  }

  /** One opponent disc followed by one of the player's own is a bracket. */
  lemma SingleBracket(b: Board, at: Pos, d: Dir, p: Disc)
    requires DiscAt(b, Walk(at, d, 1), Other(p)) && DiscAt(b, Walk(at, d, 2), p)
    ensures InBracket(b, at, d, p, Walk(at, d, 1))
  {
    assert Brackets(b, at, d, p, 1);
  }

  /** Black, moving first, can play (2,3), flipping White's (3,3). */
  lemma InitialMove()
    ensures Pos(3, 3) in Flips(InitialBoard(), Pos(2, 3), Black)
  {
    var b := InitialBoard();
    assert At(b, Pos(2, 3)) == None;
    assert At(b, Pos(3, 3)) == Some(White) && At(b, Pos(4, 3)) == Some(Black);
    BracketDown(b);
    FlipsSpec(b, Pos(2, 3), Black, Pos(3, 3));
  }

  /** So the game is not over at the start. */
  lemma InitialNotOver()
    ensures !GameOver(InitialBoard())
  {
    var b := InitialBoard();
    InitialMove();
    assert OnBoard(Pos(2, 3)) && At(b, Pos(2, 3)).None? && Flips(b, Pos(2, 3), Black) != [];
  }

  /** What the computer's scan has established once every square before
      `(r, c)` in row-major order has been looked at: `best` is the first
      empty square with the most flips seen so far, `maxFlips` its flip
      count, or -1 when no empty square has been seen. */
  ghost predicate Scanned(b: Board, best: Option<Pos>, maxFlips: int, r: int, c: int) {
    (best.None? <==> maxFlips == -1)
    && (best.None? ==> forall q :: OnBoard(q) && Before(q, Pos(r, c)) ==> At(b, q).Some?)
    && (best.Some? ==> OnBoard(best.value) && At(b, best.value).None? && Before(best.value, Pos(r, c))
                       && maxFlips == |Flips(b, best.value, White)|)
    && (forall q :: OnBoard(q) && Before(q, Pos(r, c)) && At(b, q).None? ==> |Flips(b, q, White)| <= maxFlips)
    && (best.Some? ==> forall q :: OnBoard(q) && At(b, q).None? && Before(q, best.value)
                                   ==> |Flips(b, q, White)| < maxFlips)
  }

  /** Looking at square `(r, c)`: it becomes the best when it is empty and
      strictly beats the best so far. */
  lemma ScanCell(b: Board, best: Option<Pos>, maxFlips: int, r: int, c: int)
    requires 0 <= r < 8 && 0 <= c < 8 && Scanned(b, best, maxFlips, r, c)
    ensures var q := Pos(r, c);
            if At(b, q).None? && |Flips(b, q, White)| > maxFlips
            then Scanned(b, Some(q), |Flips(b, q, White)|, r, c + 1)
            else Scanned(b, best, maxFlips, r, c + 1)
  {
    var q := Pos(r, c);
    forall q' | OnBoard(q') && Before(q', Pos(r, c + 1)) && q' != q ensures Before(q', q) {
    }
  }

  /** Finishing a row is starting the next. */
  lemma ScanRow(b: Board, best: Option<Pos>, maxFlips: int, r: int)
    requires 0 <= r < 8 && Scanned(b, best, maxFlips, r, 8)
    ensures Scanned(b, best, maxFlips, r + 1, 0)
  {
    forall q | OnBoard(q) ensures Before(q, Pos(r, 8)) == Before(q, Pos(r + 1, 0)) {
    }
  }

  /** The computer (White) plays the first empty square in row-major order
      with the largest number of flips, and only when that number is
      positive. */
  method AiMove(b: Board) returns (choice: Option<Pos>)
    ensures choice.Some? ==>
      var q := choice.value;
      && OnBoard(q) && At(b, q).None? && |Flips(b, q, White)| > 0 && Play(b, q, White).Ok?
      && (forall q' :: OnBoard(q') && At(b, q').None? ==> |Flips(b, q', White)| <= |Flips(b, q, White)|)
      && (forall q' :: OnBoard(q') && At(b, q').None? && Before(q', q) ==> |Flips(b, q', White)| < |Flips(b, q, White)|)
    ensures choice.None? ==> forall q :: OnBoard(q) && At(b, q).None? ==> Flips(b, q, White) == []
  {
    var best: Option<Pos> := None;
    var maxFlips := -1;
    var r := 0;
    while r < 8
      invariant 0 <= r <= 8
      invariant Scanned(b, best, maxFlips, r, 0)
    {
      var c := 0;
      while c < 8
        invariant 0 <= c <= 8
        invariant Scanned(b, best, maxFlips, r, c)
      {
        ScanCell(b, best, maxFlips, r, c);
        var q := Pos(r, c);
        if At(b, q).None? {
          var flips := Flips(b, q, White);
          if |flips| > maxFlips {
            maxFlips := |flips|;
            best := Some(q);
          }
        }
        c := c + 1;
      }
      ScanRow(b, best, maxFlips, r);
      r := r + 1;
    }
    assert forall q :: OnBoard(q) ==> Before(q, Pos(8, 0));
    if best.Some? && maxFlips > 0 {
      choice := best;
    } else {
      choice := None;
    }
  }
}
