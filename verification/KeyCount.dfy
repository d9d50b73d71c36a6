/** How many tuples a matrix run can have in the list. */
module KeyCount {
  import opened TupleSpace
  import opened ServerInvariants
  import opened Keys
  import opened Naturals
  import opened Tiling
  import opened MatrixProtocol
  import opened KeyedSpace
  import opened ProtocolBase

  function Below(m: nat): (r: set<nat>)
    ensures |r| == m && forall x: nat :: x in r <==> x < m
  {
    if m == 0 then {} else Below(m - 1) + {m - 1}
  }

  function Elements(xs: seq<nat>): set<nat> {
    set x | x in xs
  }

  lemma {:induction false} ElementsSize(xs: seq<nat>)
    requires forall i, j | 0 <= i < j < |xs| :: xs[i] != xs[j]
    ensures |Elements(xs)| == |xs|
  {
    if xs == [] {
      assert Elements(xs) == {};
    } else {
      var n := |xs| - 1;
      ElementsSize(xs[..n]);
      assert xs == xs[..n] + [xs[n]];
      assert Elements(xs) == Elements(xs[..n]) + {xs[n]};
    }
  }

  lemma SubsetSize(s: set<nat>, t: set<nat>)
    requires s <= t
    ensures |s| <= |t|
  {
    assert t == s + (t - s);
  }

  lemma Pigeonhole(xs: seq<nat>, m: nat)
    requires forall i, j | 0 <= i < j < |xs| :: xs[i] != xs[j]
    requires forall i | 0 <= i < |xs| :: xs[i] < m
    ensures |xs| <= m
  {
    ElementsSize(xs);
    SubsetSize(Elements(xs), Below(m));
  }

  function RankOfKey(cfg: Config, key: Key): nat {
    Rank(cfg.n, Cell(key.i, key.j))
  }

  /** The ranks of the results in the list. */
  function ResultRanks(cfg: Config, keys: seq<Key>): (r: seq<nat>)
    requires 2 * cfg.Square() <= |keys|
    ensures |r| == |keys| - 2 * cfg.Square()
  {
    var size := 2 * cfg.Square();
    seq<nat>(|keys| - size, x requires 0 <= x < |keys| - size => RankOfKey(cfg, keys[size + x]))
  }

  lemma RanksDiffer(cfg: Config, a: Cell, b: Cell)
    requires cfg.Valid() && cfg.G().InSquare(a) && cfg.G().InSquare(b)
    ensures Rank(cfg.n, a) < cfg.Square()
    ensures Rank(cfg.n, a) == Rank(cfg.n, b) ==> a == b
  {
    SquareIsWhole(cfg.G());
    PairBelow(a.i, a.j, cfg.n, cfg.n);
    Pair(a.i, a.j, cfg.n);
    Pair(b.i, b.j, cfg.n);
  }

  lemma DistinctResults(cfg: Config, keys: seq<Key>)
    requires cfg.Valid() && 2 * cfg.Square() <= |keys|
    requires forall p, p' | 0 <= p < p' < |keys| :: keys[p] != keys[p']
    requires forall p | 2 * cfg.Square() <= p < |keys| ::
               keys[p].kind == 'C' && cfg.G().InSquare(Cell(keys[p].i, keys[p].j))
    ensures |keys| <= 3 * cfg.Square()
  {
    var size, ranks := 2 * cfg.Square(), ResultRanks(cfg, keys);
    forall i, j | 0 <= i < |ranks| && 0 <= j < |ranks|
      ensures ranks[i] < cfg.Square() && (i < j ==> ranks[i] != ranks[j])
    {
      var x, y := keys[size + i], keys[size + j];
      RanksDiffer(cfg, Cell(x.i, x.j), Cell(y.i, y.j));
    }
    Pigeonhole(ranks, cfg.Square());
  }

  /** A, B and at most one tuple per result. */
  lemma KeysBounded(cfg: Config, s: Sys, keys: seq<Key>)
    requires cfg.Valid() && Base(cfg, s, keys) && !s.phase.Publishing?
    ensures |keys| <= 3 * cfg.Square()
  {
    forall p, p' | 0 <= p < p' < |keys|
      ensures keys[p] != keys[p']
    {
      KeysDistinct(cfg.n, s.server.space, keys, p, p');
    }
    DistinctResults(cfg, keys);
  }
}
