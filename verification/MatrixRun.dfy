/** The program of tsh/matrixrun.c, whose parent waits for all workers before it
    collects; and the list that a single worker leaves. */
module MatrixRun {
  import opened TupleSpace
  import opened Waiting
  import opened ServerInvariants
  import opened Keys
  import opened Naturals
  import opened Tiling
  import opened Products
  import opened MatrixProtocol
  import opened KeyedSpace
  import opened ProtocolBase
  import opened ProtocolOrder
  import opened ProtocolTheorems

  // ----- the parent waits for everybody -----

  function Unreaped(ws: seq<Worker>): nat {
    if ws == [] then 0 else Unreaped(ws[..|ws| - 1]) + (if ws[|ws| - 1].reaped then 0 else 1)
  }

  lemma {:induction false} UnreapedUpdate(ws: seq<Worker>, k: nat, w: Worker)
    requires k < |ws|
    ensures Unreaped(ws[k := w]) + (if ws[k].reaped then 0 else 1) == Unreaped(ws) + (if w.reaped then 0 else 1)
  {
    var n := |ws| - 1;
    if k == n {
      assert ws[k := w][..n] == ws[..n];
    } else {
      assert ws[k := w][..n] == ws[..n][k := w];
      UnreapedUpdate(ws[..n], k, w);
    }
  }

  lemma {:induction false} UnreapedNone(ws: seq<Worker>)
    ensures Unreaped(ws) == 0 ==> forall k | 0 <= k < |ws| :: ws[k].reaped
    ensures (forall k | 0 <= k < |ws| :: !ws[k].reaped) ==> Unreaped(ws) == |ws|
  {
    if ws != [] { UnreapedNone(ws[..|ws| - 1]); }
  }

  /** One incarnation per index, the parent's count is right, and a reaped worker
      has done its pass. */
  ghost predicate Tidy(cfg: Config, s: Sys) {
    && s.orphans == []
    && (forall k | 0 <= k < |s.workers| ::
          && s.workers[k].index == k && (s.workers[k].status.Running? || s.workers[k].status.Exited?)
          && (s.workers[k].reaped ==> s.workers[k].status.Exited?))
    && match s.phase
       case Publishing(_) => s.workers == []
       case Forking(m) => |s.workers| == m <= cfg.workers && forall k | 0 <= k < m :: !s.workers[k].reaped
       case Watching(left) => |s.workers| == cfg.workers && left == Unreaped(s.workers)
       case _ => |s.workers| == cfg.workers && forall k | 0 <= k < |s.workers| :: s.workers[k].reaped
  }

  lemma TidyPasses(cfg: Config, s: Sys)
    requires Tidy(cfg, s) && s.phase.Collecting?
    ensures PassesComplete(cfg, s)
  {
    forall w: nat | w < cfg.workers
      ensures HasPassed(s, w)
    {
      assert s.workers[w].index == w && s.workers[w].status.Exited?;
    }
  }

  lemma ParentTidy(cfg: Config, s: Sys, keys: seq<Key>)
    requires cfg.Valid() && Tidy(cfg, s) && Base(cfg, s, keys)
    ensures Tidy(cfg, ParentStep(cfg, s))
  {
    UnreapedNone(s.workers);
    match s.phase
    case Publishing(p) =>
      if p < 2 * cfg.Square() {
        PutOutcomes(cfg, s, keys, InitialKey(cfg, p), []);
      }
    case Collecting(waiting) =>
      if !waiting && |s.c| < cfg.Square() {
        GetOutcomes(cfg, s, keys);
      }
    case _ =>
  }

  lemma WithWorkerTidy(cfg: Config, s: Sys, k: nat, w: Worker)
    requires Tidy(cfg, s) && k < |s.workers| && w.index == k && w.reaped == s.workers[k].reaped && !w.reaped
    requires w.status.Running? || w.status.Exited?
    ensures Tidy(cfg, s.(workers := s.workers[k := w]))
  {
    UnreapedUpdate(s.workers, k, w);
  }

  lemma ReapTidy(cfg: Config, s: Sys, k: nat)
    requires cfg.program.MATRIXRUN? && Tidy(cfg, s)
    ensures Tidy(cfg, ReapStep(cfg, s, k))
  {
    if k < |s.workers| { UnreapedUpdate(s.workers, k, s.workers[k].(reaped := true)); }
  }

  lemma AdvanceTidy(cfg: Config, s: Sys, keys: seq<Key>, k: nat, sends: seq<bool>)
    requires cfg.Valid() && Tidy(cfg, s) && Base(cfg, s, keys)
    ensures Tidy(cfg, AdvanceStep(cfg, s, k, sends))
  {
    if k < |s.workers| && s.workers[k].status.Running? {
      var w, r := s.workers[k], AdvanceStep(cfg, s, k, sends);
      RunningMeansEarly(cfg, s, keys, k);
      match NextCall(cfg, w)
      case None => WithWorkerTidy(cfg, s, k, w.(status := Exited));
      case Some(ReadCall(key)) =>
        AdvanceRead(cfg, s, keys, k, key, sends);
        WithWorkerTidy(cfg, s, k, r.workers[k]);
      case Some(PutCall(_, _, _)) =>
        AdvancePut(cfg, s, keys, k, sends);
        WithWorkerTidy(cfg, s, k, r.workers[k]);
    }
  }

  /** A worker still runs only before the collection, when nobody waits. */
  lemma RunningMeansEarly(cfg: Config, s: Sys, keys: seq<Key>, k: nat)
    requires cfg.Valid() && Tidy(cfg, s) && Base(cfg, s, keys) && k < |s.workers| && s.workers[k].status.Running?
    ensures Early(s.phase) && s.server.queue == []
  {
  }

  lemma StepTidy(cfg: Config, s: Sys, keys: seq<Key>, a: Action)
    requires cfg.Valid() && cfg.program.MATRIXRUN? && Tidy(cfg, s) && Base(cfg, s, keys)
    ensures Tidy(cfg, Step(cfg, s, a))
  {
    match a
    case Parent => ParentTidy(cfg, s, keys);
    case Reap(k) => ReapTidy(cfg, s, k);
    case Advance(k, sends) => AdvanceTidy(cfg, s, keys, k, sends);
    case _ =>
  }

  lemma {:induction false} RunTidy(cfg: Config, s: Sys, keys: seq<Key>, acts: seq<Action>)
    requires cfg.Valid() && cfg.program.MATRIXRUN? && Tidy(cfg, s) && Base(cfg, s, keys)
    ensures Tidy(cfg, Run(cfg, s, acts))
    decreases |acts|
  {
    if acts != [] {
      StepTidy(cfg, s, keys, acts[0]);
      StepBase(cfg, s, keys, acts[0]);
      RunTidy(cfg, Step(cfg, s, acts[0]), KeysAfter(cfg, s, keys, acts[0]), acts[1..]);
    }
  }

  /** With all results published the master's GET does not wait. */
  lemma StepNeverWaits(cfg: Config, s: Sys, keys: seq<Key>, a: Action)
    requires cfg.Valid() && cfg.program.MATRIXRUN? && cfg.n % TILE == 0 && s.phase != Collecting(true)
    requires Tidy(cfg, s) && Base(cfg, s, keys) && Progress(cfg, s, keys)
    ensures Step(cfg, s, a).phase != Collecting(true)
  {
    match a
    case Parent =>
      if s.phase == Collecting(false) && |s.c| < cfg.Square() {
        TidyPasses(cfg, s);
        MasterProceeds(cfg, s, keys);
      }
    case _ =>
  }

  lemma {:induction false} RunNeverWaits(cfg: Config, s: Sys, keys: seq<Key>, acts: seq<Action>)
    requires cfg.Valid() && cfg.program.MATRIXRUN? && cfg.n % TILE == 0 && Separate(cfg) && s.phase != Collecting(true)
    requires Tidy(cfg, s) && Base(cfg, s, keys) && Ordered(cfg, s, keys)
    ensures Run(cfg, s, acts).phase != Collecting(true)
    decreases |acts|
  {
    if acts != [] {
      StepNeverWaits(cfg, s, keys, acts[0]);
      StepTidy(cfg, s, keys, acts[0]);
      StepBase(cfg, s, keys, acts[0]);
      StepOrdered(cfg, s, keys, acts[0]);
      RunNeverWaits(cfg, Step(cfg, s, acts[0]), KeysAfter(cfg, s, keys, acts[0]), acts[1..]);
    }
  }

  /** matrixrun.c, when the tiles cover the matrix and the columns are separate:
      from every point of the collection, in every schedule, all remaining GETs
      are answered at once and the result is exactly the product. One worker and
      any even size is the case the ambiguity of names makes interesting. */
  lemma MatrixRunCollects(cfg: Config, acts: seq<Action>)
    requires cfg.Valid() && cfg.program.MATRIXRUN? && cfg.n % TILE == 0 && Safe(cfg)
    requires Run(cfg, INIT, acts).phase.Collecting?
    ensures var s := Run(cfg, INIT, acts);
            var r := Run(cfg, s, Parents(Left(cfg, s)));
            r.phase == Finished && |r.c| == cfg.n * cfg.n && RightValues(cfg.n, r.c)
  {
    SafeMeansSeparate(cfg);
    InitOrdered(cfg);
    RunBase(cfg, INIT, [], acts);
    RunOrdered(cfg, INIT, [], acts);
    RunTidy(cfg, INIT, [], acts);
    RunNeverWaits(cfg, INIT, [], acts);
    var s := Run(cfg, INIT, acts);
    TidyPasses(cfg, s);
    var r := MasterFinishes(cfg, s, KeysAlong(cfg, INIT, [], acts));
    CorrectIsRight(cfg, r.c);
  }

  // ----- one worker: the same list, name by name -----

  /** A and B, then the first m cells of worker 0 in its order. */
  function InOrder(cfg: Config, m: nat): seq<Key>
    requires cfg.Valid() && (m > 0 ==> cfg.G().HasCell(0, m - 1))
  {
    if m == 0 then Initial(cfg)
    else
      EarlierCells(cfg, m);
      InOrder(cfg, m - 1) + [CKey(cfg.G().CellAt(0, m - 1))]
  }

  lemma EarlierCells(cfg: Config, m: nat)
    requires cfg.Valid() && m > 0 && cfg.G().HasCell(0, m - 1)
    ensures m > 1 ==> cfg.G().HasCell(0, m - 2)
  {
    if m > 1 && !cfg.G().HasCell(0, m - 2) { NoMoreCells(cfg.G(), 0, m - 2, m - 1); }
  }

  lemma {:induction false} InOrderMembers(cfg: Config, m: nat, key: Key)
    requires cfg.Valid() && (m > 0 ==> cfg.G().HasCell(0, m - 1))
    ensures key in InOrder(cfg, m) <==> key in Initial(cfg) || (key.kind == 'C' && Within(cfg, m, Cell(key.i, key.j)))
  {
    if m > 0 {
      EarlierCells(cfg, m);
      InOrderMembers(cfg, m - 1, key);
      CellOfTurn(cfg.G(), 0, m - 1);
      if Within(cfg, m, Cell(key.i, key.j)) && cfg.G().Turn(Cell(key.i, key.j)) == m - 1 {
        TurnOfCell(cfg.G(), Cell(key.i, key.j));
        assert cfg.G().Owner(Cell(key.i, key.j)) == 0;
      }
    } else {
      assert !Within(cfg, 0, Cell(key.i, key.j));
    }
  }

  /** The cell is among the first m of the only worker. */
  predicate Within(cfg: Config, m: nat, c: Cell)
    requires cfg.Valid()
  {
    cfg.G().InSquare(c) && cfg.G().Owner(c) == 0 && cfg.G().Turn(c) < m
  }

  ghost predicate SingleList(cfg: Config, s: Sys, keys: seq<Key>, m: nat)
    requires cfg.Valid()
  {
    && (m > 0 ==> cfg.G().HasCell(0, m - 1))
    && (!s.phase.Publishing? ==> keys == InOrder(cfg, m))
    && (forall k | 0 <= k < |s.workers| :: s.workers[k].turn <= m)
    && (forall o | 0 <= o < |s.orphans| :: s.orphans[o].PutCall? ==> s.orphans[o].turn <= m)
  }

  /** A PUT of the t-th cell finds it listed, or is the next in order. */
  lemma SinglePut(cfg: Config, keys: seq<Key>, m: nat, w: nat, t: nat) returns (m': nat)
    requires cfg.Valid() && (m > 0 ==> cfg.G().HasCell(0, m - 1)) && keys == InOrder(cfg, m)
    requires w < cfg.workers == 1 && t <= m && cfg.G().HasCell(w, t)
    ensures m <= m' && t + 1 <= m' && cfg.G().HasCell(0, m' - 1)
    ensures WithKey(keys, CKey(cfg.G().CellAt(w, t))) == InOrder(cfg, m')
  {
    assert w == 0;
    var key := CKey(cfg.G().CellAt(0, t));
    CellOfTurn(cfg.G(), 0, t);
    InOrderMembers(cfg, m, key);
    NotInitial(cfg, key);
    m' := if t < m then m else m + 1;
  }

  lemma PublishSingle(cfg: Config, s: Sys, keys: seq<Key>)
    requires cfg.Valid() && Base(cfg, s, keys) && s.phase.Publishing? && SingleList(cfg, s, keys, 0)
    ensures SingleList(cfg, ParentStep(cfg, s), KeysAfter(cfg, s, keys, Parent), 0)
  {
    if s.phase.next < 2 * cfg.Square() {
      PutOutcomes(cfg, s, keys, InitialKey(cfg, s.phase.next), []);
    } else {
      assert Initial(cfg)[..s.phase.next] == Initial(cfg);
    }
  }

  /** The parent's later steps touch the list and the turns no more. */
  lemma QuietParentSingle(cfg: Config, s: Sys, keys: seq<Key>, m: nat)
    requires cfg.Valid() && (s.phase.Forking? || s.phase.Watching?) && SingleList(cfg, s, keys, m)
    ensures SingleList(cfg, ParentStep(cfg, s), keys, m)
  {
  }

  lemma ParentSingle(cfg: Config, s: Sys, keys: seq<Key>, m: nat)
    requires cfg.Valid() && Base(cfg, s, keys) && SingleList(cfg, s, keys, m) && Early(ParentStep(cfg, s).phase)
    requires s.phase.Publishing? ==> m == 0
    ensures SingleList(cfg, ParentStep(cfg, s), KeysAfter(cfg, s, keys, Parent), m)
  {
    if s.phase.Publishing? { PublishSingle(cfg, s, keys); } else { QuietParentSingle(cfg, s, keys, m); }
  }

  /** Before the collection nobody waits, so a PUT is stored and that is all. */
  lemma EarlyPut(cfg: Config, s: Sys, keys: seq<Key>, key: Key, value: int, sends: seq<bool>, r: Sys)
    requires cfg.Valid() && Base(cfg, s, keys) && Early(s.phase) && PutOutcome(cfg, s, keys, key, value, sends, r)
    ensures r.workers == s.workers && r.orphans == s.orphans && r.phase == s.phase
    ensures KeysAfterPut(cfg, s, keys, key, sends) == WithKey(keys, key)
  {
  }

  /** The list, the turns and the abandoned turns after a PUT of the t-th cell. */
  lemma SinglePutStep(cfg: Config, s: Sys, keys: seq<Key>, m: nat, w: nat, t: nat, sends: seq<bool>)
    returns (m': nat)
    requires cfg.Valid() && Base(cfg, s, keys) && SingleList(cfg, s, keys, m) && Early(s.phase)
    requires !s.phase.Publishing? && w < cfg.workers == 1 && t <= m && cfg.G().HasCell(w, t)
    ensures m <= m' && t + 1 <= m' && cfg.G().HasCell(0, m' - 1)
    ensures KeysAfterPut(cfg, s, keys, CKey(cfg.G().CellAt(w, t)), sends) == InOrder(cfg, m')
  {
    assert Wanted(cfg, s) == None;
    m' := SinglePut(cfg, keys, m, w, t);
  }

  lemma WithWorkerSingle(cfg: Config, s: Sys, keys: seq<Key>, m: nat, k: nat, w: Worker, r: Sys)
    requires cfg.Valid() && SingleList(cfg, s, keys, m) && k < |s.workers| && w.turn <= m
    requires r.workers == s.workers[k := w] && r.orphans == s.orphans && r.phase == s.phase
    ensures SingleList(cfg, r, keys, m)
  {
  }

  lemma AdvanceReadSingle(cfg: Config, s: Sys, keys: seq<Key>, m: nat, k: nat, key: Key, sends: seq<bool>)
    requires cfg.Valid() && Base(cfg, s, keys) && SingleList(cfg, s, keys, m) && !s.phase.Publishing?
    requires k < |s.workers| && s.workers[k].status.Running? && NextCall(cfg, s.workers[k]) == Some(ReadCall(key))
    ensures SingleList(cfg, AdvanceStep(cfg, s, k, sends), keys, m)
  {
    AdvanceRead(cfg, s, keys, k, key, sends);
    var reply := GetReply(SEARCH, s.server, Name(key), 0, true, ALL_OK);
    WithWorkerSingle(cfg, s, keys, m, k, AfterRead(s.workers[k], reply.data), AdvanceStep(cfg, s, k, sends));
  }

  lemma AdvanceSingle(cfg: Config, s: Sys, keys: seq<Key>, m: nat, k: nat, sends: seq<bool>) returns (m': nat)
    requires cfg.Valid() && cfg.workers == 1 && Base(cfg, s, keys) && SingleList(cfg, s, keys, m) && Early(s.phase)
    requires !s.phase.Publishing?
    ensures SingleList(cfg, AdvanceStep(cfg, s, k, sends), KeysAfter(cfg, s, keys, Advance(k, sends)), m')
  {
    m' := m;
    if k < |s.workers| && s.workers[k].status.Running? {
      match NextCall(cfg, s.workers[k])
      case None =>
      case Some(ReadCall(key)) => AdvanceReadSingle(cfg, s, keys, m, k, key, sends);
      case Some(PutCall(_, _, _)) => m' := AdvancePutSingle(cfg, s, keys, m, k, sends);
    }
  }

  lemma AdvancePutSingle(cfg: Config, s: Sys, keys: seq<Key>, m: nat, k: nat, sends: seq<bool>) returns (m': nat)
    requires cfg.Valid() && cfg.workers == 1 && Base(cfg, s, keys) && SingleList(cfg, s, keys, m) && Early(s.phase)
    requires !s.phase.Publishing? && k < |s.workers| && s.workers[k].status.Running?
    requires NextCall(cfg, s.workers[k]).Some? && NextCall(cfg, s.workers[k]).value.PutCall?
    ensures SingleList(cfg, AdvanceStep(cfg, s, k, sends), KeysAfter(cfg, s, keys, Advance(k, sends)), m')
  {
    assert WorkerOk(cfg, s.workers[k]);
    m' := SinglePutStep(cfg, s, keys, m, s.workers[k].index, s.workers[k].turn, sends);
    AdvancePutFacts(cfg, s, keys, k, sends);
  }

  lemma AdvancePutFacts(cfg: Config, s: Sys, keys: seq<Key>, k: nat, sends: seq<bool>)
    requires cfg.Valid() && Base(cfg, s, keys) && Early(s.phase) && k < |s.workers| && s.workers[k].status.Running?
    requires NextCall(cfg, s.workers[k]).Some? && NextCall(cfg, s.workers[k]).value.PutCall?
    ensures var r := AdvanceStep(cfg, s, k, sends);
            r.workers == s.workers[k := AfterPut(s.workers[k])] && r.orphans == s.orphans && r.phase == s.phase
    ensures KeysAfter(cfg, s, keys, Advance(k, sends))
            == KeysAfterPut(cfg, s, keys, CKey(cfg.G().CellAt(s.workers[k].index, s.workers[k].turn)), sends)
  {
    AdvancePut(cfg, s, keys, k, sends);
    var c := cfg.G().CellAt(s.workers[k].index, s.workers[k].turn);
    var value := Product(cfg.n, c.i, c.j);
    EarlyPut(cfg, s, keys, CKey(c), value, sends, ServePut(s, CKey(c), value, sends));
  }

  lemma LateReadSingle(cfg: Config, s: Sys, keys: seq<Key>, m: nat, o: nat, key: Key, writes: Writes, sends: seq<bool>)
    requires cfg.Valid() && Base(cfg, s, keys) && SingleList(cfg, s, keys, m) && !s.phase.Publishing?
    requires o < |s.orphans| && s.orphans[o] == ReadCall(key)
    ensures SingleList(cfg, LateStep(cfg, s, o, writes, sends), keys, m)
  {
    ReadExact(cfg, s, keys, key, writes);
    WithoutOrphanSingle(s.orphans, o, m);
  }

  lemma LateSingle(cfg: Config, s: Sys, keys: seq<Key>, m: nat, o: nat, writes: Writes, sends: seq<bool>) returns (m': nat)
    requires cfg.Valid() && cfg.workers == 1 && Base(cfg, s, keys) && SingleList(cfg, s, keys, m) && Early(s.phase)
    requires !s.phase.Publishing?
    ensures SingleList(cfg, LateStep(cfg, s, o, writes, sends), KeysAfter(cfg, s, keys, Late(o, writes, sends)), m')
  {
    m' := m;
    if o < |s.orphans| {
      match s.orphans[o]
      case ReadCall(key) => LateReadSingle(cfg, s, keys, m, o, key, writes, sends);
      case PutCall(_, _, _) => m' := LatePutSingle(cfg, s, keys, m, o, writes, sends);
    }
  }

  lemma WithoutOrphanSingle(orphans: seq<Call>, o: nat, m: nat)
    requires o < |orphans| && forall i | 0 <= i < |orphans| :: orphans[i].PutCall? ==> orphans[i].turn <= m
    ensures var left := Remove(orphans, o); forall i | 0 <= i < |left| :: left[i].PutCall? ==> left[i].turn <= m
  {
    var left := Remove(orphans, o);
    assert forall i | 0 <= i < |left| :: left[i] == orphans[if i < o then i else i + 1];
  }

  lemma LatePutSingle(cfg: Config, s: Sys, keys: seq<Key>, m: nat, o: nat, writes: Writes, sends: seq<bool>) returns (m': nat)
    requires cfg.Valid() && cfg.workers == 1 && Base(cfg, s, keys) && SingleList(cfg, s, keys, m) && Early(s.phase)
    requires !s.phase.Publishing? && o < |s.orphans| && s.orphans[o].PutCall?
    ensures SingleList(cfg, LateStep(cfg, s, o, writes, sends), KeysAfter(cfg, s, keys, Late(o, writes, sends)), m')
  {
    assert CallOk(cfg, s.orphans[o]);
    m' := SinglePutStep(cfg, s, keys, m, s.orphans[o].index, s.orphans[o].turn, sends);
    LatePutFacts(cfg, s, keys, o, writes, sends);
    WithoutOrphanSingle(s.orphans, o, m');
  }

  lemma LatePutFacts(cfg: Config, s: Sys, keys: seq<Key>, o: nat, writes: Writes, sends: seq<bool>)
    requires cfg.Valid() && cfg.workers == 1 && Base(cfg, s, keys) && Early(s.phase)
    requires o < |s.orphans| && s.orphans[o].PutCall?
    ensures var r := LateStep(cfg, s, o, writes, sends);
            r.workers == s.workers && r.orphans == Remove(s.orphans, o) && r.phase == s.phase
    ensures KeysAfter(cfg, s, keys, Late(o, writes, sends))
            == KeysAfterPut(cfg, s, keys, CKey(cfg.G().CellAt(s.orphans[o].index, s.orphans[o].turn)), sends)
  {
    assert CallOk(cfg, s.orphans[o]);
    LatePut(cfg, s, keys, o, writes, sends);
    var c := cfg.G().CellAt(s.orphans[o].index, s.orphans[o].turn);
    var value := Product(cfg.n, c.i, c.j);
    EarlyPut(cfg, s, keys, CKey(c), value, sends, ServePut(s, CKey(c), value, sends));
  }

  lemma QuietSingle(cfg: Config, s: Sys, keys: seq<Key>, m: nat, k: nat)
    requires cfg.Valid() && SingleList(cfg, s, keys, m)
    ensures SingleList(cfg, ReapStep(cfg, s, k), keys, m)
    ensures SingleList(cfg, KillStep(cfg, s, k), keys, m)
    ensures SingleList(cfg, AbandonStep(cfg, s, k), keys, m)
  {
  }

  lemma StepSingle(cfg: Config, s: Sys, keys: seq<Key>, m: nat, a: Action) returns (m': nat)
    requires cfg.Valid() && cfg.workers == 1 && Base(cfg, s, keys) && SingleList(cfg, s, keys, m)
    requires Early(Step(cfg, s, a).phase) && (s.phase.Publishing? ==> m == 0)
    ensures SingleList(cfg, Step(cfg, s, a), KeysAfter(cfg, s, keys, a), m')
    ensures Step(cfg, s, a).phase.Publishing? ==> m' == 0
  {
    EarlyBefore(cfg, s, a);
    m' := m;
    if s.phase.Publishing? && !a.Parent? {
      return;
    }
    match a
    case Parent => ParentSingle(cfg, s, keys, m);
    case Advance(k, sends) => m' := AdvanceSingle(cfg, s, keys, m, k, sends);
    case Late(o, writes, sends) => m' := LateSingle(cfg, s, keys, m, o, writes, sends);
    case Reap(k) => QuietSingle(cfg, s, keys, m, k);
    case Kill(k) => QuietSingle(cfg, s, keys, m, k);
    case Abandon(k) => QuietSingle(cfg, s, keys, m, k);
  }

  lemma {:induction false} RunSingle(cfg: Config, s: Sys, keys: seq<Key>, m: nat, acts: seq<Action>) returns (m': nat)
    requires cfg.Valid() && cfg.workers == 1 && Base(cfg, s, keys) && SingleList(cfg, s, keys, m)
    requires Early(Run(cfg, s, acts).phase) && (s.phase.Publishing? ==> m == 0)
    ensures SingleList(cfg, Run(cfg, s, acts), KeysAlong(cfg, s, keys, acts), m')
    decreases |acts|
  {
    if acts == [] {
      m' := m;
    } else {
      var r := Step(cfg, s, acts[0]);
      EarlyAlong(cfg, r, acts[1..]);
      var m1 := StepSingle(cfg, s, keys, m, acts[0]);
      StepBase(cfg, s, keys, acts[0]);
      m' := RunSingle(cfg, r, KeysAfter(cfg, s, keys, acts[0]), m1, acts[1..]);
    }
  }

  lemma SingleComplete(cfg: Config, acts: seq<Action>) returns (m: nat)
    requires cfg.Valid() && cfg.workers == 1
    requires var s := Run(cfg, INIT, acts); (s.phase.Forking? || s.phase.Watching?) && PassesComplete(cfg, s)
    ensures (m > 0 ==> cfg.G().HasCell(0, m - 1)) && !cfg.G().HasCell(0, m)
    ensures Shows(cfg.n, Run(cfg, INIT, acts).server.space, InOrder(cfg, m))
  {
    InitBase(cfg);
    m := RunSingle(cfg, INIT, [], 0, acts);
    RunBase(cfg, INIT, [], acts);
    var s := Run(cfg, INIT, acts);
    assert HasPassed(s, 0);
    var k :| 0 <= k < |s.workers| && s.workers[k].index == 0 && s.workers[k].status.Exited?;
    assert WorkerOk(cfg, s.workers[k]);
    NoMoreCells(cfg.G(), 0, s.workers[k].turn, m);
  }

  lemma SameList(n: nat, x: seq<Tuple>, y: seq<Tuple>, keys: seq<Key>)
    requires Shows(n, x, keys) && Shows(n, y, keys)
    ensures |x| == |y| && forall p | 0 <= p < |x| :: x[p].name == y[p].name && x[p].data == y[p].data
  {
    forall p | 0 <= p < |x|
      ensures x[p].name == y[p].name && x[p].data == y[p].data
    {
      assert Shown(n, x[p], keys[p]) && Shown(n, y[p], keys[p]);
    }
  }

  /** The worker's cells end at one turn. */
  lemma SameTurns(cfg: Config, m: nat, m': nat)
    requires cfg.Valid() && (m > 0 ==> cfg.G().HasCell(0, m - 1)) && !cfg.G().HasCell(0, m)
    requires (m' > 0 ==> cfg.G().HasCell(0, m' - 1)) && !cfg.G().HasCell(0, m')
    ensures m == m'
  {
    if m < m' { NoMoreCells(cfg.G(), 0, m, m' - 1); }
    if m' < m { NoMoreCells(cfg.G(), 0, m', m - 1); }
  }

  /** With one worker, any two runs that have completed a pass leave the very same
      list, name by name and value by value, whatever was killed and redone. */
  lemma SingleWorkerList(cfg: Config, acts: seq<Action>, acts': seq<Action>)
    requires cfg.Valid() && cfg.workers == 1
    requires var s := Run(cfg, INIT, acts); (s.phase.Forking? || s.phase.Watching?) && PassesComplete(cfg, s)
    requires var s := Run(cfg, INIT, acts'); (s.phase.Forking? || s.phase.Watching?) && PassesComplete(cfg, s)
    ensures var x, y := Run(cfg, INIT, acts).server.space, Run(cfg, INIT, acts').server.space;
            |x| == |y| && forall p | 0 <= p < |x| :: x[p].name == y[p].name && x[p].data == y[p].data
  {
    var m := SingleComplete(cfg, acts);
    var m' := SingleComplete(cfg, acts');
    SameTurns(cfg, m, m');
    SameList(cfg.n, Run(cfg, INIT, acts).server.space, Run(cfg, INIT, acts').server.space, InOrder(cfg, m));
  }
}
