/** Square boards shared by the shogi (9 x 9) and othello (8 x 8) models:
    coordinates, straight-line walks, cell update and cell counting. */
module Grid {
  import opened Seqs

  /** A board coordinate; rows and columns may lie off the board while
      candidate moves are being generated. */
  datatype Pos = Pos(row: int, col: int)

  /** A step direction, one of the eight king steps when `IsUnit`. */
  datatype Dir = Dir(dr: int, dc: int)

  predicate IsUnit(d: Dir) {
    -1 <= d.dr <= 1 && -1 <= d.dc <= 1 && !(d.dr == 0 && d.dc == 0)
  }

  function Step(p: Pos, d: Dir): Pos {
    Pos(p.row + d.dr, p.col + d.dc)
  }

  /** The square `k` steps from `p` along `d`, taking the first step first. */
  function Walk(p: Pos, d: Dir, k: nat): Pos
    decreases k
  {
    if k == 0 then p else Walk(Step(p, d), d, k - 1)
  }

  lemma {:induction false} WalkClosedForm(p: Pos, d: Dir, k: nat)
    ensures Walk(p, d, k) == Pos(p.row + k * d.dr, p.col + k * d.dc)
    decreases k
  {
    if k > 0 {
      WalkClosedForm(Step(p, d), d, k - 1);
      assert (k - 1) * d.dr + d.dr == k * d.dr;
      assert (k - 1) * d.dc + d.dc == k * d.dc;
    }
  }

  /** Two walks of positive length from the same square along unit
      directions meet only if they are the same walk. */
  lemma WalkInjective(p: Pos, d1: Dir, k1: nat, d2: Dir, k2: nat)
    requires IsUnit(d1) && IsUnit(d2) && k1 >= 1 && k2 >= 1
    requires Walk(p, d1, k1) == Walk(p, d2, k2)
    ensures d1 == d2 && k1 == k2
  {
    WalkClosedForm(p, d1, k1);
    WalkClosedForm(p, d2, k2);
    assert k1 * d1.dr == k2 * d2.dr && k1 * d1.dc == k2 * d2.dc;
    if d1.dr != 0 {
      assert k1 == k2 && d1.dr == d2.dr by {
        if d1.dr == 1 { SignOfProduct(k2, d2.dr, k1); } else { SignOfProduct(k2, d2.dr, -(k1 as int)); }
      }
      assert d1.dc == d2.dc by {
        if d1.dc == 1 { SignOfProduct(k2, d2.dc, k1); }
        else if d1.dc == -1 { SignOfProduct(k2, d2.dc, -(k1 as int)); }
        else { SignOfProduct(k2, d2.dc, 0); }
      }
    } else {
      assert d1.dc != 0;
      assert k1 == k2 && d1.dc == d2.dc by {
        if d1.dc == 1 { SignOfProduct(k2, d2.dc, k1); } else { SignOfProduct(k2, d2.dc, -(k1 as int)); }
      }
      SignOfProduct(k2, d2.dr, 0);
    }
  }

  /** For a unit component `u` and a positive `k`, `k * u` determines `u`. */
  lemma SignOfProduct(k: int, u: int, v: int)
    requires k >= 1 && -1 <= u <= 1 && k * u == v
    ensures v > 0 ==> u == 1 && v == k
    ensures v < 0 ==> u == -1 && v == -k
    ensures v == 0 ==> u == 0
  {
    if u == 1 { assert k * u == k; } else if u == -1 { assert k * u == -k; } else { assert k * u == 0; }
  }

  predicate InSquare(p: Pos, n: int) {
    0 <= p.row < n && 0 <= p.col < n
  }

  /** `q` comes strictly before `k` in row-major order. */
  predicate Before(q: Pos, k: Pos) {
    q.row < k.row || (q.row == k.row && q.col < k.col)
  }

  /** `q` is the square (r, c) or comes after it in row-major order. */
  predicate AtOrAfter(q: Pos, r: int, c: int) {
    q.row > r || (q.row == r && q.col >= c)
  }

  /** Whether some cell of the `n` x `n` square from (r, c) on, in
      row-major order, satisfies `f`: the nested row and column loops. */
  function AnyFrom(n: nat, f: Pos -> bool, r: int, c: int): (found: bool)
    requires 0 <= r <= n && 0 <= c < n
    ensures found <==> exists q :: InSquare(q, n) && AtOrAfter(q, r, c) && f(q)
    decreases n - r, n - c
  {
    if r == n then false
    else if f(Pos(r, c)) then true
    else if c == n - 1 then AnyFrom(n, f, r + 1, 0)
    else AnyFrom(n, f, r, c + 1)
  }

  /** Whether some cell of the `n` x `n` square satisfies `f`. */
  function AnyCell(n: nat, f: Pos -> bool): (found: bool)
    ensures found <==> exists q :: InSquare(q, n) && f(q)
  {
    if n == 0 then false else AnyFrom(n, f, 0, 0)
  }

  /** `g` is an `n` x `n` grid. */
  predicate IsGrid<T>(g: seq<seq<T>>, n: nat) {
    |g| == n && forall r :: 0 <= r < n ==> |g[r]| == n
  }

  predicate InBounds<T>(g: seq<seq<T>>, p: Pos) {
    0 <= p.row < |g| && 0 <= p.col < |g[p.row]|
  }

  function Get<T>(g: seq<seq<T>>, p: Pos): T
    requires InBounds(g, p)
  {
    g[p.row][p.col]
  }

  /** `g` with the cell at `p` replaced by `x`. */
  function Set<T>(g: seq<seq<T>>, p: Pos, x: T): (g': seq<seq<T>>)
    requires InBounds(g, p)
    ensures |g'| == |g| && forall r :: 0 <= r < |g| ==> |g'[r]| == |g[r]|
    ensures forall n: nat :: IsGrid(g, n) ==> IsGrid(g', n)
    ensures Get(g', p) == x
    ensures forall q :: InBounds(g, q) && q != p ==> Get(g', q) == Get(g, q)
  {
    g[p.row := g[p.row][p.col := x]]
  }

  /** The `n` x `n` grid `g` with the cell at `p` replaced by `x`; every
      other cell of the square unchanged. */
  function Put<T>(n: nat, g: seq<seq<T>>, p: Pos, x: T): (g': seq<seq<T>>)
    requires IsGrid(g, n) && InSquare(p, n)
    ensures IsGrid(g', n)
    ensures Get(g', p) == x
    ensures forall q :: InSquare(q, n) && q != p ==> Get(g', q) == Get(g, q)
  {
    Set(g, p, x)
  }

  /** The `n` x `n` grid with every cell `x`. */
  function Fill<T>(n: nat, x: T): (g: seq<seq<T>>)
    ensures IsGrid(g, n)
    ensures forall q :: InSquare(q, n) ==> Get(g, q) == x
  {
    seq(n, _ => seq(n, _ => x))
  }

  /** Replacing one occurrence inside a union: the other part is unaffected. */
  lemma MultisetReplace<T>(a: multiset<T>, m: multiset<T>, v: T, x: T)
    requires v in m
    ensures a + (m - multiset{v} + multiset{x}) == a + m - multiset{v} + multiset{x}
  {
  }

  lemma RowSet<T>(row: seq<T>, c: nat, x: T)
    requires c < |row|
    ensures multiset(row[c := x]) == multiset(row) - multiset{row[c]} + multiset{x}
  {
    assert row == row[..c] + [row[c]] + row[c + 1..];
    assert row[c := x] == row[..c] + [x] + row[c + 1..];
  }

  lemma FlattenCons<T>(g: seq<seq<T>>)
    requires |g| > 0
    ensures multiset(Flatten(g)) == multiset(g[0]) + multiset(Flatten(g[1..]))
  {
  }

  /** How `Set` acts on the first row and on the rows after it. */
  lemma SetSplit<T>(g: seq<seq<T>>, p: Pos, x: T)
    requires InBounds(g, p)
    ensures p.row == 0 ==> Set(g, p, x)[0] == g[0][p.col := x] && Set(g, p, x)[1..] == g[1..]
    ensures p.row > 0 ==>
      Set(g, p, x)[0] == g[0] && Set(g, p, x)[1..] == Set(g[1..], Pos(p.row - 1, p.col), x)
  {
  }

  lemma {:induction false} FlattenSet<T>(g: seq<seq<T>>, p: Pos, x: T)
    requires InBounds(g, p)
    ensures multiset(Flatten(Set(g, p, x)))
         == multiset(Flatten(g)) - multiset{Get(g, p)} + multiset{x}
    decreases |g|
  {
    var g' := Set(g, p, x);
    var v := Get(g, p);
    var rest := multiset(Flatten(g[1..]));
    FlattenCons(g);
    FlattenCons(g');
    SetSplit(g, p, x);
    if p.row == 0 {
      RowSet(g[0], p.col, x);
      MultisetReplace(rest, multiset(g[0]), v, x);
    } else {
      var p' := Pos(p.row - 1, p.col);
      FlattenSet(g[1..], p', x);
      assert v in rest by {
        FlattenMember(g[1..], v);
        assert v in g[1..][p'.row];
      }
      MultisetReplace(multiset(g[0]), rest, v, x);
    }
  }

  /** Number of cells of `g` holding `x`. */
  function Count<T(==)>(g: seq<seq<T>>, x: T): nat {
    multiset(Flatten(g))[x]
  }

  /** Counting row by row: the first row, then the rest. */
  lemma CountCons<T>(g: seq<seq<T>>, x: T)
    requires |g| > 0
    ensures Count(g, x) == multiset(g[0])[x] + Count(g[1..], x)
  {
    FlattenCons(g);
  }

  lemma CountBounded<T>(s: seq<T>, x: T)
    ensures multiset(s)[x] <= |s|
  {
    assert |multiset(s)| == |s|;
  }

  lemma CountAfterSet<T>(g: seq<seq<T>>, p: Pos, x: T, v: T)
    requires InBounds(g, p)
    ensures Count(Set(g, p, x), v)
         == Count(g, v) - (if Get(g, p) == v then 1 else 0) + (if x == v then 1 else 0)
  {
    FlattenSet(g, p, x);
    assert Get(g, p) in multiset(Flatten(g)) by {
      FlattenMember(g, Get(g, p));
      assert Get(g, p) in g[p.row];
    }
  }
}
