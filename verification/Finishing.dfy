/** For which sizes a run can end. When the block size does not divide N, the loops
    of the workers leave out the last row and column of C and no run ever ends;
    otherwise a run without faults ends with the product. */
module Finishing {
  import opened TupleSpace
  import opened Keys
  import opened Naturals
  import opened Tiling
  import opened Products
  import opened MatrixProtocol
  import opened KeyedSpace
  import opened ProtocolBase
  import opened ProtocolOrder
  import opened ProtocolTheorems
  import opened ProtocolConverse
  import opened BlockOrder
  import opened Starvation

  /** The last cell of the first row. */
  function Beyond(cfg: Config): Cell
    requires cfg.Valid()
  {
    RowMajor(cfg.n, cfg.n - 1)
  }

  /** A search for it finds no result that a worker ever puts. */
  lemma NoneBeyond(cfg: Config, c: Cell)
    requires cfg.Valid() && cfg.n % TILE != 0 && cfg.G().InSquare(c)
    ensures !Confused(CKey(Beyond(cfg)), CKey(c))
  {
    SideOfSquare(cfg);
    if Confused(CKey(Beyond(cfg)), CKey(c)) {
      ConfusedColumns(CKey(Beyond(cfg)), CKey(c));
    }
  }

  lemma GetStops(cfg: Config, s: Sys, keys: seq<Key>)
    requires cfg.Valid() && cfg.n % TILE != 0 && Base(cfg, s, keys)
    requires s.phase == Collecting(false) && |s.c| < cfg.n
    ensures |ServeGet(cfg, s).c| < cfg.n
  {
    GetOutcomes(cfg, s, keys);
    if |s.c| == cfg.n - 1 {
      var hit := FirstHit(keys, CKey(Beyond(cfg)));
      HitsResult(cfg, s.phase, keys, Beyond(cfg));
      if hit >= 0 {
        NoneBeyond(cfg, Cell(keys[hit].i, keys[hit].j));
      }
    }
  }

  lemma PutStops(cfg: Config, s: Sys, keys: seq<Key>, c: Cell, sends: seq<bool>, r: Sys)
    requires cfg.Valid() && cfg.n % TILE != 0 && cfg.G().InSquare(c) && |s.c| < cfg.n
    requires PutOutcome(cfg, s, keys, CKey(c), Product(cfg.n, c.i, c.j), sends, r)
    ensures |r.c| < cfg.n
  {
    NoneBeyond(cfg, c);
  }

  lemma StepStops(cfg: Config, s: Sys, keys: seq<Key>, a: Action)
    requires cfg.Valid() && cfg.n % TILE != 0 && Base(cfg, s, keys) && |s.c| < cfg.n
    ensures |Step(cfg, s, a).c| < cfg.n
  {
    match a
    case Parent =>
      if s.phase.Publishing? && s.phase.next < 2 * cfg.Square() {
        PutOutcomes(cfg, s, keys, InitialKey(cfg, s.phase.next), []);
      } else if s.phase == Collecting(false) && |s.c| < cfg.Square() {
        GetStops(cfg, s, keys);
      }
    case Advance(k, sends) =>
      if k < |s.workers| && s.workers[k].status.Running? {
        AdvanceStops(cfg, s, keys, k, sends);
      }
    case Late(o, writes, sends) =>
      if o < |s.orphans| && s.orphans[o].PutCall? {
        LatePut(cfg, s, keys, o, writes, sends);
        var c := cfg.G().CellAt(s.orphans[o].index, s.orphans[o].turn);
        CellInMatrix(cfg, s.orphans[o].index, s.orphans[o].turn);
        PutStops(cfg, s, keys, c, sends, ServePut(s, CKey(c), Product(cfg.n, c.i, c.j), sends));
      }
    case _ =>
  }

  lemma AdvanceStops(cfg: Config, s: Sys, keys: seq<Key>, k: nat, sends: seq<bool>)
    requires cfg.Valid() && cfg.n % TILE != 0 && Base(cfg, s, keys) && |s.c| < cfg.n
    requires k < |s.workers| && s.workers[k].status.Running?
    ensures |AdvanceStep(cfg, s, k, sends).c| < cfg.n
  {
    match NextCall(cfg, s.workers[k])
    case None =>
    case Some(ReadCall(_)) =>
    case Some(PutCall(_, _, _)) =>
      AdvancePut(cfg, s, keys, k, sends);
      var c := cfg.G().CellAt(s.workers[k].index, s.workers[k].turn);
      CellInMatrix(cfg, s.workers[k].index, s.workers[k].turn);
      PutStops(cfg, s, keys, c, sends, ServePut(s, CKey(c), Product(cfg.n, c.i, c.j), sends));
  }

  lemma {:induction false} RunStops(cfg: Config, s: Sys, keys: seq<Key>, acts: seq<Action>)
    requires cfg.Valid() && cfg.n % TILE != 0 && Base(cfg, s, keys) && |s.c| < cfg.n
    ensures |Run(cfg, s, acts).c| < cfg.n
    decreases |acts|
  {
    if acts != [] {
      StepStops(cfg, s, keys, acts[0]);
      StepBase(cfg, s, keys, acts[0]);
      RunStops(cfg, Step(cfg, s, acts[0]), KeysAfter(cfg, s, keys, acts[0]), acts[1..]);
    }
  }

  /** For an odd N the master never gets past the first row, so it never finishes. */
  lemma OddNeverFinishes(cfg: Config, acts: seq<Action>)
    requires cfg.Valid() && cfg.n % TILE != 0
    ensures var s := Run(cfg, INIT, acts); |s.c| < cfg.n && s.phase != Finished
  {
    InitBase(cfg);
    RunBase(cfg, INIT, [], acts);
    RunStops(cfg, INIT, [], acts);
    TimesMono(1, cfg.n, cfg.n);
  }

  // ----- even sizes -----

  /** For every even N and every number of workers some run without faults ends
      with the whole product. */
  lemma EvenFinishes(cfg: Config) returns (acts: seq<Action>)
    requires cfg.Valid() && cfg.n % TILE == 0
    ensures Plain(acts) && Delivered(acts)
    ensures var s := Run(cfg, INIT, acts); s.phase == Finished && |s.c| == cfg.n * cfg.n && RightValues(cfg.n, s.c)
  {
    var first := CollectInOrder(cfg);
    var s := Run(cfg, INIT, first);
    var r := MasterFinishes(cfg, s, KeysAlong(cfg, INIT, [], first));
    acts := first + Parents(Left(cfg, s));
    RunConcat(cfg, INIT, [], first, Parents(Left(cfg, s)));
    PlainDelivered(acts);
    CorrectIsRight(cfg, r.c);
  }

  /** A run can finish exactly if N is even. */
  lemma FinishesIff(cfg: Config)
    requires cfg.Valid()
    ensures cfg.n % TILE == 0 <==> exists acts: seq<Action> :: Run(cfg, INIT, acts).phase == Finished
  {
    if cfg.n % TILE == 0 {
      var acts := EvenFinishes(cfg);
    } else {
      forall acts: seq<Action>
        ensures Run(cfg, INIT, acts).phase != Finished
      {
        OddNeverFinishes(cfg, acts);
      }
    }
  }

  // ----- when completed passes are enough -----

  predicate EndsAfter(cfg: Config, s: Sys, m: nat)
    requires cfg.Valid()
  {
    Run(cfg, s, Parents(m)).phase == Finished
  }

  /** The master ends without any further exchange of a worker. */
  ghost predicate MasterEnds(cfg: Config, s: Sys)
    requires cfg.Valid()
  {
    exists m: nat :: EndsAfter(cfg, s, m)
  }

  /** A run comes to the collection with delivered call-backs and complete passes. */
  ghost predicate Complete(cfg: Config, acts: seq<Action>)
    requires cfg.Valid()
  {
    var s := Run(cfg, INIT, acts);
    Delivered(acts) && s.phase.Collecting? && PassesComplete(cfg, s)
  }

  lemma OddCounterexample(cfg: Config) returns (acts: seq<Action>)
    requires cfg.Valid() && cfg.n % TILE != 0
    ensures Complete(cfg, acts) && !MasterEnds(cfg, Run(cfg, INIT, acts))
  {
    acts := CollectInOrder(cfg);
    PlainDelivered(acts);
    var s := Run(cfg, INIT, acts);
    forall m: nat
      ensures !EndsAfter(cfg, s, m)
    {
      RunConcat(cfg, INIT, [], acts, Parents(m));
      OddNeverFinishes(cfg, acts + Parents(m));
    }
  }

  lemma UnsafeCounterexample(cfg: Config) returns (acts: seq<Action>)
    requires cfg.Valid() && !Safe(cfg)
    ensures Complete(cfg, acts) && !MasterEnds(cfg, Run(cfg, INIT, acts))
  {
    acts := MasterStarves(cfg);
    forall m: nat
      ensures !EndsAfter(cfg, Run(cfg, INIT, acts), m)
    {
    }
  }

  /** Complete passes always let the master end exactly if the configuration is safe
      and N is even. That it then ends with the product is Completion. */
  lemma CompletionIff(cfg: Config)
    requires cfg.Valid()
    ensures Safe(cfg) && cfg.n % TILE == 0 <==>
            forall acts: seq<Action> | Complete(cfg, acts) :: MasterEnds(cfg, Run(cfg, INIT, acts))
  {
    if cfg.n % TILE != 0 {
      var acts := OddCounterexample(cfg);
    } else if !Safe(cfg) {
      var acts := UnsafeCounterexample(cfg);
    } else {
      forall acts: seq<Action> | Complete(cfg, acts)
        ensures MasterEnds(cfg, Run(cfg, INIT, acts))
      {
        var s := Run(cfg, INIT, acts);
        Completion(cfg, acts);
        assert EndsAfter(cfg, s, Left(cfg, s));
      }
    }
  }
}
