/** Multiplication, division and remainder of natural numbers by repeated addition
    and subtraction, so that index arithmetic can be proved by induction. */
module Naturals {

  function Times(q: nat, d: nat): nat {
    if q == 0 then 0 else Times(q - 1, d) + d
  }

  function Quot(x: nat, d: nat): nat
    requires d > 0
  {
    if x < d then 0 else Quot(x - d, d) + 1
  }

  function Rem(x: nat, d: nat): (r: nat)
    requires d > 0
    ensures r < d
  {
    if x < d then x else Rem(x - d, d)
  }

  lemma {:induction false} TimesIsMul(q: nat, d: nat)
    ensures Times(q, d) == q * d
  {
    if q > 0 { TimesIsMul(q - 1, d); }
  }

  lemma QuotRemIsDivMod(x: nat, d: nat)
    requires d > 0
    ensures Quot(x, d) == x / d && Rem(x, d) == x % d
  {
    var q, r := x / d, x % d;
    TimesIsMul(q, d);
    assert x == Times(q, d) + r;
    Pair(q, r, d);
  }

  lemma {:induction false} Unpair(x: nat, d: nat)
    requires d > 0
    ensures x == Times(Quot(x, d), d) + Rem(x, d)
  {
    if x >= d { Unpair(x - d, d); }
  }

  lemma {:induction false} Pair(q: nat, r: nat, d: nat)
    requires r < d
    ensures Quot(Times(q, d) + r, d) == q && Rem(Times(q, d) + r, d) == r
  {
    if q > 0 { Pair(q - 1, r, d); }
  }

  lemma {:induction false} TimesMono(x: nat, y: nat, d: nat)
    requires x <= y
    ensures Times(x, d) <= Times(y, d)
  {
    if x < y { TimesMono(x, y - 1, d); }
  }

  lemma PairBelow(q: nat, r: nat, d: nat, n: nat)
    requires r < d && q < n
    ensures Times(q, d) + r < Times(n, d)
  {
    TimesMono(q + 1, n, d);
  }

  lemma QuotBelow(x: nat, n: nat, d: nat)
    requires d > 0 && x < Times(n, d)
    ensures Quot(x, d) < n
  {
    Unpair(x, d);
    if Quot(x, d) >= n { TimesMono(n, Quot(x, d), d); }
  }

  lemma {:induction false} QuotMono(x: nat, y: nat, d: nat)
    requires x <= y && d > 0
    ensures Quot(x, d) <= Quot(y, d)
  {
    if x >= d { QuotMono(x - d, y - d, d); }
  }
}

/** The strided block assignment of worker_compute: which cell of the result each
    worker visits at each turn, and that together they visit every cell of the
    tiled square once. */
module Tiling {
  import opened Naturals

  datatype Cell = Cell(i: nat, j: nat)

  /** N, block_size and num_workers. */
  datatype Grid = Grid(n: nat, b: nat, workers: nat) {
    predicate Valid() { b > 0 && workers > 0 }

    /** num_blocks. */
    function Blocks(): nat
      requires Valid()
    {
      Quot(n, b)
    }

    function Area(): (r: nat)
      requires Valid()
      ensures r > 0
    {
      Times(b, b)
    }

    /** The block that worker w works on at its t-th cell. */
    function BlockAt(w: nat, t: nat): nat
      requires Valid()
    {
      w + Times(Quot(t, Area()), workers)
    }

    /** Worker w has a t-th cell. */
    predicate HasCell(w: nat, t: nat)
      requires Valid()
    {
      BlockAt(w, t) < Times(Blocks(), Blocks())
    }

    /** The t-th cell of worker w. */
    function CellAt(w: nat, t: nat): Cell
      requires Valid() && HasCell(w, t)
    {
      CellIn(BlockAt(w, t), Rem(t, Area()))
    }

    /** The cell at an offset inside a block. */
    function CellIn(block: nat, offset: nat): Cell
      requires Valid() && Blocks() > 0
    {
      var nb := Blocks();
      Cell(Times(Quot(block, nb), b) + Quot(offset, b), Times(Rem(block, nb), b) + Rem(offset, b))
    }

    predicate InSquare(c: Cell)
      requires Valid()
    {
      c.i < Times(Blocks(), b) && c.j < Times(Blocks(), b)
    }

    function BlockOf(c: Cell): nat
      requires Valid()
    {
      Times(Quot(c.i, b), Blocks()) + Quot(c.j, b)
    }

    function OffsetOf(c: Cell): nat
      requires Valid()
    {
      Times(Rem(c.i, b), b) + Rem(c.j, b)
    }

    function Owner(c: Cell): nat
      requires Valid()
    {
      Rem(BlockOf(c), workers)
    }

    function Turn(c: Cell): nat
      requires Valid()
    {
      Times(Quot(BlockOf(c), workers), Area()) + OffsetOf(c)
    }
  }

  /** The assignment in the terms of the loops: turn t of a worker is at this offset
      of this block, and the blocks are the rows and columns of a square of blocks. */
  lemma CellByDivision(g: Grid, w: nat, t: nat, nb: nat, area: nat, block: nat, offset: nat)
    requires g.Valid() && nb == g.n / g.b && area == g.b * g.b && area > 0
    requires block == w + t / area * g.workers && offset == t % area
    ensures g.HasCell(w, t) <==> block < nb * nb
    ensures g.HasCell(w, t) ==> nb > 0
    ensures g.HasCell(w, t) ==>
              var c := g.CellAt(w, t);
              c.i == block / nb * g.b + offset / g.b && c.j == block % nb * g.b + offset % g.b
  {
    TimesIsMul(g.b, g.b);
    QuotRemIsDivMod(g.n, g.b);
    QuotRemIsDivMod(t, area);
    TimesIsMul(nb, nb);
    TimesIsMul(t / area, g.workers);
    if g.HasCell(w, t) {
      CellInByDivision(g, block, offset);
    }
  }

  lemma CellInByDivision(g: Grid, block: nat, offset: nat)
    requires g.Valid() && g.Blocks() > 0
    ensures g.CellIn(block, offset).i == block / g.Blocks() * g.b + offset / g.b
    ensures g.CellIn(block, offset).j == block % g.Blocks() * g.b + offset % g.b
  {
    QuotRemIsDivMod(block, g.Blocks());
    QuotRemIsDivMod(offset, g.b);
    TimesIsMul(block / g.Blocks(), g.b);
    TimesIsMul(block % g.Blocks(), g.b);
  }

  // ----- exact tiling -----

  lemma BlockAndOffset(g: Grid, block: nat, offset: nat)
    requires g.Valid() && block < Times(g.Blocks(), g.Blocks()) && offset < g.Area()
    ensures var c := g.CellIn(block, offset); g.InSquare(c) && g.BlockOf(c) == block && g.OffsetOf(c) == offset
  {
    var nb, b := g.Blocks(), g.b;
    QuotBelow(block, nb, nb);
    QuotBelow(offset, b, b);
    Pair(Quot(block, nb), Quot(offset, b), b);
    Pair(Rem(block, nb), Rem(offset, b), b);
    PairBelow(Quot(block, nb), Quot(offset, b), b, nb);
    PairBelow(Rem(block, nb), Rem(offset, b), b, nb);
    Unpair(block, nb);
    Unpair(offset, b);
  }

  lemma CellBack(g: Grid, c: Cell)
    requires g.Valid() && g.InSquare(c)
    ensures g.BlockOf(c) < Times(g.Blocks(), g.Blocks()) && g.OffsetOf(c) < g.Area()
    ensures g.CellIn(g.BlockOf(c), g.OffsetOf(c)) == c
  {
    var nb, b := g.Blocks(), g.b;
    QuotBelow(c.i, nb, b);
    QuotBelow(c.j, nb, b);
    PairBelow(Quot(c.i, b), Quot(c.j, b), nb, nb);
    PairBelow(Rem(c.i, b), Rem(c.j, b), b, b);
    Pair(Quot(c.i, b), Quot(c.j, b), nb);
    Pair(Rem(c.i, b), Rem(c.j, b), b);
    Unpair(c.i, b);
    Unpair(c.j, b);
  }

  /** A worker's cell lies in the square, belongs to it, and comes at its turn. */
  lemma CellOfTurn(g: Grid, w: nat, t: nat)
    requires g.Valid() && w < g.workers && g.HasCell(w, t)
    ensures var c := g.CellAt(w, t);
            g.InSquare(c) && g.BlockOf(c) == g.BlockAt(w, t) && g.Owner(c) == w && g.Turn(c) == t
  {
    BlockAndOffset(g, g.BlockAt(w, t), Rem(t, g.Area()));
    Pair(Quot(t, g.Area()), w, g.workers);
    Unpair(t, g.Area());
  }

  /** Every cell of the square is visited, at its owner's turn. */
  lemma TurnOfCell(g: Grid, c: Cell)
    requires g.Valid() && g.InSquare(c)
    ensures g.Owner(c) < g.workers
    ensures g.HasCell(g.Owner(c), g.Turn(c)) && g.CellAt(g.Owner(c), g.Turn(c)) == c
  {
    CellBack(g, c);
    Unpair(g.BlockOf(c), g.workers);
    Pair(Quot(g.BlockOf(c), g.workers), g.OffsetOf(c), g.Area());
  }

  ghost predicate Visits(g: Grid, w: nat, t: nat, c: Cell)
    requires g.Valid()
  {
    w < g.workers && g.HasCell(w, t) && g.CellAt(w, t) == c
  }

  /** Over all workers each cell of the square is visited exactly once, and no
      other cell is. */
  lemma ExactTiling(g: Grid, c: Cell)
    requires g.Valid()
    ensures (exists w: nat, t: nat :: Visits(g, w, t, c)) <==> g.InSquare(c)
    ensures forall w: nat, t: nat, w': nat, t': nat ::
              Visits(g, w, t, c) && Visits(g, w', t', c) ==> w == w' && t == t'
  {
    forall w: nat, t: nat | Visits(g, w, t, c)
      ensures g.InSquare(c) && w == g.Owner(c) && t == g.Turn(c)
    {
      CellOfTurn(g, w, t);
    }
    if g.InSquare(c) {
      TurnOfCell(g, c);
      assert Visits(g, g.Owner(c), g.Turn(c), c);
    }
  }

  /** The square is the whole matrix iff the block size divides its size. */
  lemma SquareIsWhole(g: Grid)
    requires g.Valid()
    ensures (forall c: Cell | c.i < g.n && c.j < g.n :: g.InSquare(c)) <==> g.n % g.b == 0
    ensures forall c: Cell | g.InSquare(c) :: c.i < g.n && c.j < g.n
  {
    var side := Times(g.Blocks(), g.b);
    Unpair(g.n, g.b);
    QuotRemIsDivMod(g.n, g.b);
    if side < g.n {
      assert !g.InSquare(Cell(side, side));
    }
  }

  /** A worker goes through each row from left to right. */
  lemma RowOrder(g: Grid, c: Cell, d: Cell)
    requires g.Valid() && c.i == d.i && c.j < d.j && g.Owner(c) == g.Owner(d)
    ensures g.Turn(c) < g.Turn(d)
  {
    var x, y := g.BlockOf(c), g.BlockOf(d);
    QuotMono(c.j, d.j, g.b);
    Unpair(c.j, g.b);
    Unpair(d.j, g.b);
    Unpair(x, g.workers);
    Unpair(y, g.workers);
    if x < y {
      QuotMono(x, y, g.workers);
      PairBelow(Rem(c.i, g.b), Rem(c.j, g.b), g.b, g.b);
      PairBelow(Quot(x, g.workers), g.OffsetOf(c), g.Area(), Quot(y, g.workers));
    }
  }

  /** A worker that has no cell at some turn has none later. */
  lemma NoMoreCells(g: Grid, w: nat, t: nat, t': nat)
    requires g.Valid() && t <= t' && !g.HasCell(w, t)
    ensures !g.HasCell(w, t')
  {
    QuotMono(t, t', g.Area());
    TimesMono(Quot(t, g.Area()), Quot(t', g.Area()), g.workers);
  }

  // ----- the square block by block -----

  /** The number of cells before c when the blocks are taken in their order. */
  function Position(g: Grid, c: Cell): nat
    requires g.Valid()
  {
    Times(g.BlockOf(c), g.Area()) + g.OffsetOf(c)
  }

  /** The number of cells of the square. */
  function Total(g: Grid): nat
    requires g.Valid()
  {
    Times(Times(g.Blocks(), g.Blocks()), g.Area())
  }

  lemma PositionBelow(g: Grid, c: Cell)
    requires g.Valid() && g.InSquare(c)
    ensures Position(g, c) < Total(g)
  {
    CellBack(g, c);
    PairBelow(g.BlockOf(c), g.OffsetOf(c), g.Area(), Times(g.Blocks(), g.Blocks()));
  }

  lemma PositionInjective(g: Grid, c: Cell, d: Cell)
    requires g.Valid() && g.InSquare(c) && g.InSquare(d) && Position(g, c) == Position(g, d)
    ensures c == d
  {
    CellBack(g, c);
    CellBack(g, d);
    Pair(g.BlockOf(c), g.OffsetOf(c), g.Area());
    Pair(g.BlockOf(d), g.OffsetOf(d), g.Area());
  }

  /** The cell with a given position. */
  lemma CellAtPosition(g: Grid, r: nat) returns (c: Cell)
    requires g.Valid() && r < Total(g)
    ensures g.InSquare(c) && Position(g, c) == r
  {
    QuotBelow(r, Times(g.Blocks(), g.Blocks()), g.Area());
    c := g.CellIn(Quot(r, g.Area()), Rem(r, g.Area()));
    BlockAndOffset(g, Quot(r, g.Area()), Rem(r, g.Area()));
    Unpair(r, g.Area());
  }

  /** Each row is taken from left to right. */
  lemma RowPosition(g: Grid, c: Cell, d: Cell)
    requires g.Valid() && c.i == d.i && c.j < d.j
    ensures Position(g, c) < Position(g, d)
  {
    QuotMono(c.j, d.j, g.b);
    Unpair(c.j, g.b);
    Unpair(d.j, g.b);
    if g.BlockOf(c) < g.BlockOf(d) {
      PairBelow(Rem(c.i, g.b), Rem(c.j, g.b), g.b, g.b);
      PairBelow(g.BlockOf(c), g.OffsetOf(c), g.Area(), g.BlockOf(d));
    }
  }

  /** Each worker takes its cells in the order of their positions. */
  lemma TurnPosition(g: Grid, w: nat, t: nat, t': nat)
    requires g.Valid() && w < g.workers && t < t' && g.HasCell(w, t) && g.HasCell(w, t')
    ensures Position(g, g.CellAt(w, t)) < Position(g, g.CellAt(w, t'))
  {
    BlockAndOffset(g, g.BlockAt(w, t), Rem(t, g.Area()));
    BlockAndOffset(g, g.BlockAt(w, t'), Rem(t', g.Area()));
    QuotMono(t, t', g.Area());
    Unpair(t, g.Area());
    Unpair(t', g.Area());
    var q, q' := Quot(t, g.Area()), Quot(t', g.Area());
    if q < q' {
      TimesMono(q + 1, q', g.workers);
      PairBelow(g.BlockAt(w, t), Rem(t, g.Area()), g.Area(), g.BlockAt(w, t'));
    }
  }
}
