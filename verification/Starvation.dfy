/** What a wrong collected tuple leads to: in every unsafe configuration some run
    without faults leaves the master waiting for a tuple that it has already taken
    under another name. */
module Starvation {
  import opened TupleSpace
  import opened ServerInvariants
  import opened Keys
  import opened Naturals
  import opened Tiling
  import opened MatrixProtocol
  import opened KeyedSpace
  import opened ProtocolBase
  import opened ProtocolOrder
  import opened ProtocolTheorems
  import opened ProtocolConverse
  import opened MatrixRun

  /** The tuple of the cell (0, 1) is left over, so the list and the collected
      values together cannot make up all results. */
  ghost predicate Starving(cfg: Config, s: Sys, keys: seq<Key>)
    requires cfg.Valid()
  {
    && s.phase.Collecting? && 2 <= |s.c| && Base(cfg, s, keys)
    && CKey(Cell(0, 1)) in keys && |keys| + |s.c| <= 3 * cfg.Square()
  }

  /** Only the GET of the cell (0, 1) itself takes its tuple. */
  lemma LeftOver(cfg: Config, p: nat, b: Key)
    requires cfg.Valid() && p >= 2 && Confused(CKey(RowMajor(cfg.n, p)), b)
    ensures b != CKey(Cell(0, 1))
  {
    RankOfRowMajor(cfg, p);
    if b == CKey(Cell(0, 1)) {
      ConfusedColumns(CKey(RowMajor(cfg.n, p)), b);
    }
  }

  lemma NotAllCollected(cfg: Config, s: Sys, keys: seq<Key>)
    requires cfg.Valid() && Starving(cfg, s, keys)
    ensures |s.c| < cfg.Square()
  {
    if |s.c| == cfg.Square() {
      assert keys[..2 * cfg.Square()] == keys;
      NotInitial(cfg, CKey(Cell(0, 1)));
    }
  }

  lemma ParentStarving(cfg: Config, s: Sys, keys: seq<Key>)
    requires cfg.Valid() && Starving(cfg, s, keys)
    ensures Starving(cfg, ParentStep(cfg, s), KeysAfter(cfg, s, keys, Parent))
  {
    NotAllCollected(cfg, s, keys);
    ParentBase(cfg, s, keys);
    if s.phase == Collecting(false) {
      GetOutcomes(cfg, s, keys);
      var hit := FirstHit(keys, CKey(RowMajor(cfg.n, |s.c|)));
      if hit >= 0 {
        LeftOver(cfg, |s.c|, keys[hit]);
        InRemove(keys, hit, CKey(Cell(0, 1)));
      }
    }
  }

  lemma OneMore(cfg: Config, s: Sys, keys: seq<Key>, m: nat) returns (next: Sys, keys': seq<Key>)
    requires cfg.Valid() && Starving(cfg, s, keys) && m > 0
    ensures Starving(cfg, next, keys')
    ensures Run(cfg, s, Parents(m)) == Run(cfg, next, Parents(m - 1))
  {
    next, keys' := ParentStep(cfg, s), KeysAfter(cfg, s, keys, Parent);
    RunParents(cfg, s, m);
    ParentStarving(cfg, s, keys);
  }

  /** The master alone never finishes. */
  lemma {:induction false} ParentsStarve(cfg: Config, s: Sys, keys: seq<Key>, m: nat) returns (r: Sys)
    requires cfg.Valid() && Starving(cfg, s, keys)
    ensures r == Run(cfg, s, Parents(m)) && r.phase.Collecting?
    decreases m
  {
    if m == 0 {
      RunNoParents(cfg, s);
      r := s;
    } else {
      var next, keys' := OneMore(cfg, s, keys, m);
      r := ParentsStarve(cfg, next, keys', m - 1);
    }
  }

  /** matrixrun.c during the collection: only the master does anything. */
  lemma {:induction false} AllStarve(cfg: Config, s: Sys, keys: seq<Key>, acts: seq<Action>)
    requires cfg.Valid() && cfg.program.MATRIXRUN? && Starving(cfg, s, keys) && Tidy(cfg, s)
    ensures Run(cfg, s, acts).phase.Collecting?
    decreases |acts|
  {
    if acts != [] {
      if acts[0].Parent? {
        ParentStarving(cfg, s, keys);
        ParentTidy(cfg, s, keys);
        AllStarve(cfg, ParentStep(cfg, s), KeysAfter(cfg, s, keys, Parent), acts[1..]);
      } else {
        NobodyElse(cfg, s, acts[0]);
        AllStarve(cfg, s, keys, acts[1..]);
      }
    }
  }

  lemma NobodyElse(cfg: Config, s: Sys, a: Action)
    requires cfg.Valid() && cfg.program.MATRIXRUN? && Tidy(cfg, s) && s.phase.Collecting? && !a.Parent?
    ensures Step(cfg, s, a) == s
  {
  }

  lemma BadRunStarves(cfg: Config) returns (first: seq<Action>)
    requires cfg.Valid() && !Safe(cfg)
    ensures Plain(first) && Ready(cfg, Run(cfg, INIT, first), KeysAlong(cfg, INIT, [], first))
    ensures var acts := first + [Parent, Parent];
            Starving(cfg, Run(cfg, INIT, acts), KeysAlong(cfg, INIT, [], acts))
  {
    first := BadRun(cfg);
    RunFacts(cfg, first + [Parent, Parent]);
  }

  lemma TwoMore(cfg: Config, first: seq<Action>, m: nat)
    requires cfg.Valid()
    ensures var s := Run(cfg, INIT, first);
            Run(cfg, s, Parents(m + 2)) == Run(cfg, Run(cfg, INIT, first + [Parent, Parent]), Parents(m))
  {
    var s := Run(cfg, INIT, first);
    RunConcat(cfg, INIT, [], first, [Parent, Parent]);
    RunTwo(cfg, s, []);
    RunParents(cfg, s, m + 2);
    RunParents(cfg, ParentStep(cfg, s), m + 1);
  }

  lemma {:induction false} NoneFinished(cfg: Config, s: Sys, m: nat)
    requires cfg.Valid() && Run(cfg, s, Parents(m + 1)).phase != Finished
    ensures Run(cfg, s, Parents(m)).phase != Finished
    decreases m
  {
    var r := ParentStep(cfg, s);
    RunParents(cfg, s, m + 1);
    if m == 0 {
      RunNoParents(cfg, s);
      RunNoParents(cfg, r);
    } else {
      RunParents(cfg, s, m);
      NoneFinished(cfg, r, m - 1);
    }
  }

  /** In every unsafe configuration some run without faults comes to the collection
      with every pass complete, and no number of the master's steps ends it. */
  lemma MasterStarves(cfg: Config) returns (acts: seq<Action>)
    requires cfg.Valid() && !Safe(cfg)
    ensures Plain(acts) && Delivered(acts)
    ensures var s := Run(cfg, INIT, acts);
            && s.phase == Collecting(false) && PassesComplete(cfg, s)
            && forall m: nat :: Run(cfg, s, Parents(m)).phase != Finished
  {
    acts := BadRunStarves(cfg);
    PlainDelivered(acts);
    var s, later := Run(cfg, INIT, acts), acts + [Parent, Parent];
    forall m: nat
      ensures Run(cfg, s, Parents(m)).phase != Finished
    {
      TwoMore(cfg, acts, m);
      var r := ParentsStarve(cfg, Run(cfg, INIT, later), KeysAlong(cfg, INIT, [], later), m);
      NoneFinished(cfg, s, m + 1);
      NoneFinished(cfg, s, m);
    }
  }

  /** In matrixrun.c nothing can help: after that run no schedule ends. */
  lemma MatrixRunStarves(cfg: Config) returns (acts: seq<Action>)
    requires cfg.Valid() && cfg.program.MATRIXRUN? && !Safe(cfg)
    ensures Plain(acts) && Delivered(acts)
    ensures forall more: seq<Action> :: Run(cfg, INIT, acts + more).phase.Collecting?
  {
    var first := BadRunStarves(cfg);
    acts := first + [Parent, Parent];
    PlainDelivered(acts);
    InitBase(cfg);
    RunTidy(cfg, INIT, [], acts);
    forall more: seq<Action>
      ensures Run(cfg, INIT, acts + more).phase.Collecting?
    {
      RunConcat(cfg, INIT, [], acts, more);
      AllStarve(cfg, Run(cfg, INIT, acts), KeysAlong(cfg, INIT, [], acts), more);
    }
  }
}
