/** For every size and number of workers there is a run without faults in which the
    blocks are published in their order, so that each row of C is listed from left
    to right. */
module BlockOrder {
  import opened TupleSpace
  import opened Keys
  import opened Naturals
  import opened Tiling
  import opened Products
  import opened MatrixProtocol
  import opened KeyedSpace
  import opened ProtocolBase
  import opened ProtocolOrder
  import opened ProtocolTheorems
  import opened ProtocolConverse

  // ----- one turn of one worker -----

  /** Worker k has published the cell it was at; nothing else has changed. */
  ghost predicate TurnDone(cfg: Config, s: Sys, keys: seq<Key>, k: nat, r: Sys, keys': seq<Key>)
    requires cfg.Valid() && k < |s.workers| && cfg.G().HasCell(s.workers[k].index, s.workers[k].turn)
  {
    && r.phase == s.phase && |r.workers| == |s.workers| && r.workers == s.workers[k := r.workers[k]]
    && var w, w' := s.workers[k], r.workers[k];
    && w'.index == w.index && w'.reaped == w.reaped && w'.status.Running? && w'.turn == w.turn + 1
    && keys' == WithKey(keys, CKey(cfg.G().CellAt(w.index, w.turn)))
  }

  lemma PutDone(cfg: Config, s: Sys, keys: seq<Key>, k: nat)
    requires cfg.Valid() && Base(cfg, s, keys) && s.phase.Watching?
    requires k < |s.workers| && s.workers[k].status.Running?
    requires NextCall(cfg, s.workers[k]).Some? && NextCall(cfg, s.workers[k]).value.PutCall?
    ensures TurnDone(cfg, s, keys, k, Step(cfg, s, Advance(k, [true])), KeysAfter(cfg, s, keys, Advance(k, [true])))
  {
    AdvancePut(cfg, s, keys, k, [true]);
  }

  lemma ReadThenDone(cfg: Config, s: Sys, keys: seq<Key>, k: nat, m: Sys, r: Sys, keys': seq<Key>)
    requires cfg.Valid() && k < |s.workers| && cfg.G().HasCell(s.workers[k].index, s.workers[k].turn)
    requires Advanced(cfg, s, keys, k, m, keys) && m.workers[k].turn == s.workers[k].turn
    requires TurnDone(cfg, m, keys, k, r, keys')
    ensures TurnDone(cfg, s, keys, k, r, keys')
  {
  }

  lemma {:induction false} OneTurn(cfg: Config, s: Sys, keys: seq<Key>, k: nat) returns (acts: seq<Action>)
    requires cfg.Valid() && Base(cfg, s, keys) && s.phase.Watching?
    requires k < |s.workers| && s.workers[k].status.Running?
    requires cfg.G().HasCell(s.workers[k].index, s.workers[k].turn)
    ensures Plain(acts)
    ensures TurnDone(cfg, s, keys, k, Run(cfg, s, acts), KeysAlong(cfg, s, keys, acts))
    decreases RoundsLeft(cfg, s.workers[k])
  {
    var a := Advance(k, [true]);
    var m, keys1 := Step(cfg, s, a), KeysAfter(cfg, s, keys, a);
    OneAdvance(cfg, s, keys, k);
    var rest: seq<Action> := [];
    if NextCall(cfg, s.workers[k]).value.PutCall? {
      PutDone(cfg, s, keys, k);
    } else {
      StepBase(cfg, s, keys, a);
      rest := OneTurn(cfg, m, keys1, k);
      ReadThenDone(cfg, s, keys, k, m, Run(cfg, m, rest), KeysAlong(cfg, m, keys1, rest));
    }
    acts := [a] + rest;
    RunCons(cfg, s, keys, a, rest);
  }

  // ----- the blocks in their order -----

  /** The workers stand where the cells at positions below r are published. */
  ghost predicate TurnsUpTo(cfg: Config, ws: seq<Worker>, r: nat)
    requires cfg.Valid() && |ws| == cfg.workers
  {
    forall w: nat, t: nat | w < cfg.workers && cfg.G().HasCell(w, t) ::
      t < ws[w].turn <==> Position(cfg.G(), cfg.G().CellAt(w, t)) < r
  }

  ghost predicate UpTo(cfg: Config, s: Sys, keys: seq<Key>, r: nat)
    requires cfg.Valid()
  {
    && FirstOnes(cfg, s, 0) && (forall k | 0 <= k < |s.workers| :: s.workers[k].status.Running?)
    && TurnsUpTo(cfg, s.workers, r)
    && Sorted(cfg, 0, keys)
  }

  /** Cells at positions below r are listed. */
  lemma ListedUpTo(cfg: Config, s: Sys, keys: seq<Key>, r: nat, c: Cell)
    requires cfg.Valid() && UpTo(cfg, s, keys, r) && Base(cfg, s, keys) && Progress(cfg, s, keys)
    requires cfg.G().InSquare(c) && Position(cfg.G(), c) < r
    ensures CKey(c) in keys
  {
    TurnOfCell(cfg.G(), c);
    var w, t := cfg.G().Owner(c), cfg.G().Turn(c);
    assert t < s.workers[w].turn;
    assert s.workers[w].index == w;
    assert PublishedTurn(cfg, |s.c|, keys, w, t);
  }

  /** The owner of the cell at position r is at that cell. */
  lemma OwnerIsThere(cfg: Config, ws: seq<Worker>, r: nat, c: Cell)
    requires cfg.Valid() && |ws| == cfg.workers && TurnsUpTo(cfg, ws, r)
    requires cfg.G().InSquare(c) && Position(cfg.G(), c) == r
    ensures cfg.G().Owner(c) < cfg.workers && ws[cfg.G().Owner(c)].turn == cfg.G().Turn(c)
    ensures cfg.G().HasCell(cfg.G().Owner(c), cfg.G().Turn(c))
    ensures cfg.G().CellAt(cfg.G().Owner(c), cfg.G().Turn(c)) == c
  {
    var g := cfg.G();
    TurnOfCell(g, c);
    var w, t := g.Owner(c), g.Turn(c);
    var now := ws[w].turn;
    if now < t {
      if !g.HasCell(w, now) { NoMoreCells(g, w, now, t); }
      TurnPosition(g, w, now, t);
    }
  }

  lemma TurnsNext(cfg: Config, ws: seq<Worker>, ws': seq<Worker>, r: nat, c: Cell)
    requires cfg.Valid() && |ws| == |ws'| == cfg.workers && TurnsUpTo(cfg, ws, r)
    requires cfg.G().InSquare(c) && Position(cfg.G(), c) == r
    requires var w := cfg.G().Owner(c);
             w < cfg.workers && ws' == ws[w := ws'[w]] && ws'[w].turn == ws[w].turn + 1
    ensures TurnsUpTo(cfg, ws', r + 1)
  {
    var g := cfg.G();
    OwnerIsThere(cfg, ws, r, c);
    forall w: nat, t: nat | w < cfg.workers && g.HasCell(w, t)
      ensures t < ws'[w].turn <==> Position(g, g.CellAt(w, t)) < r + 1
    {
      CellOfTurn(g, w, t);
      if Position(g, g.CellAt(w, t)) == r { PositionInjective(g, g.CellAt(w, t), c); }
    }
  }

  /** Everything that a search confuses with the cell at position r is to its left
      in its row, hence listed. */
  lemma SortedNext(cfg: Config, s: Sys, keys: seq<Key>, r: nat, c: Cell)
    requires cfg.Valid() && UpTo(cfg, s, keys, r) && Base(cfg, s, keys) && Progress(cfg, s, keys)
    requires cfg.G().InSquare(c) && Position(cfg.G(), c) == r
    ensures Sorted(cfg, 0, WithKey(keys, CKey(c)))
  {
    forall a: Cell | Confused(CKey(a), CKey(c)) && a != c
      ensures Published(cfg, 0, keys, a)
    {
      ConfusedInSquare(cfg, a, c);
      RowPosition(cfg.G(), a, c);
      ListedUpTo(cfg, s, keys, r, a);
    }
    SortedAppend(cfg, 0, keys, c);
  }

  lemma NextPosition(cfg: Config, s: Sys, keys: seq<Key>, r: nat) returns (acts: seq<Action>)
    requires cfg.Valid() && UpTo(cfg, s, keys, r) && Base(cfg, s, keys) && Progress(cfg, s, keys)
    requires r < Total(cfg.G())
    ensures Plain(acts)
    ensures UpTo(cfg, Run(cfg, s, acts), KeysAlong(cfg, s, keys, acts), r + 1)
  {
    var c := CellAtPosition(cfg.G(), r);
    OwnerIsThere(cfg, s.workers, r, c);
    SortedNext(cfg, s, keys, r, c);
    acts := OneTurn(cfg, s, keys, cfg.G().Owner(c));
    TurnsNext(cfg, s.workers, Run(cfg, s, acts).workers, r, c);
  }

  lemma NothingUpTo(cfg: Config, s: Sys)
    requires cfg.Valid() && s.phase == Watching(cfg.workers) && s.workers == Fresh(cfg.workers)
    ensures UpTo(cfg, s, Initial(cfg), 0)
  {
  }

  lemma {:induction false} PublishUpTo(cfg: Config, r: nat) returns (acts: seq<Action>)
    requires cfg.Valid() && r <= Total(cfg.G())
    ensures Plain(acts)
    ensures UpTo(cfg, Run(cfg, INIT, acts), KeysAlong(cfg, INIT, [], acts), r)
  {
    if r == 0 {
      acts := AllForked(cfg);
      NothingUpTo(cfg, Run(cfg, INIT, acts));
    } else {
      var first := PublishUpTo(cfg, r - 1);
      RunFacts(cfg, first);
      var rest := NextPosition(cfg, Run(cfg, INIT, first), KeysAlong(cfg, INIT, [], first), r - 1);
      RunConcat(cfg, INIT, [], first, rest);
      acts := first + rest;
    }
  }

  /** Once every result is listed, in order, more keys cannot spoil the order. */
  lemma SortedComplete(cfg: Config, keys: seq<Key>, keys': seq<Key>)
    requires cfg.Valid() && Sorted(cfg, 0, keys) && keys <= keys' && 2 * cfg.Square() <= |keys|
    requires forall p | 2 * cfg.Square() <= p < |keys'| ::
               keys'[p].kind == 'C' && cfg.G().InSquare(Cell(keys'[p].i, keys'[p].j))
    requires forall c: Cell | cfg.G().InSquare(c) :: CKey(c) in keys
    ensures Sorted(cfg, 0, keys')
  {
    forall p, a: Cell | 2 * cfg.Square() <= p < |keys'| && Confused(CKey(a), keys'[p]) && CKey(a) != keys'[p]
      ensures CKey(a) in keys'[..p]
    {
      var b := Cell(keys'[p].i, keys'[p].j);
      assert keys'[p] == CKey(b);
      ConfusedInSquare(cfg, a, b);
      if p < |keys| {
        assert keys'[..p] == keys[..p] && keys'[p] == keys[p];
        assert Confused(CKey(a), keys[p]);
      } else {
        assert keys <= keys'[..p];
      }
    }
  }

  lemma FinishInOrder(cfg: Config, first: seq<Action>) returns (acts: seq<Action>)
    requires cfg.Valid() && Plain(first)
    requires UpTo(cfg, Run(cfg, INIT, first), KeysAlong(cfg, INIT, [], first), Total(cfg.G()))
    ensures Plain(acts) && FirstOnes(cfg, Run(cfg, INIT, acts), cfg.workers)
    ensures Sorted(cfg, 0, KeysAlong(cfg, INIT, [], acts))
  {
    var s, keys := Run(cfg, INIT, first), KeysAlong(cfg, INIT, [], first);
    RunFacts(cfg, first);
    var rest := FinishFrom(cfg, s, keys, 0);
    RunConcat(cfg, INIT, [], first, rest);
    acts := first + rest;
    RunFacts(cfg, acts);
    forall c: Cell | cfg.G().InSquare(c)
      ensures CKey(c) in keys
    {
      PositionBelow(cfg.G(), c);
      ListedUpTo(cfg, s, keys, Total(cfg.G()), c);
    }
    SortedComplete(cfg, keys, KeysAlong(cfg, INIT, [], acts));
  }

  /** For every size and number of workers some run without faults comes to the
      collection with each row of C listed from left to right. */
  lemma CollectInOrder(cfg: Config) returns (acts: seq<Action>)
    requires cfg.Valid()
    ensures Plain(acts)
    ensures var s, keys := Run(cfg, INIT, acts), KeysAlong(cfg, INIT, [], acts);
            Ready(cfg, s, keys) && Sorted(cfg, 0, keys)
  {
    var first := PublishUpTo(cfg, Total(cfg.G()));
    var second := FinishInOrder(cfg, first);
    acts := ReapAndCollect(cfg, second);
  }
}
