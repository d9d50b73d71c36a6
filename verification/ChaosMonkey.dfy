/** What the chaos monkey can do to a run of matrix.c. It kills processes of the
    table worker_pids, which is filled once, so it can only hit first incarnations;
    and the parent stops after as many wait()s as there are workers, whoever died. */
module ChaosMonkey {
  import opened TupleSpace
  import opened Keys
  import opened Naturals
  import opened Tiling
  import opened Products
  import opened MatrixProtocol
  import opened KeyedSpace
  import opened ProtocolBase
  import opened ProtocolOrder
  import opened ProtocolTheorems
  import opened KeyCount
  import opened ProtocolConverse
  import opened Respawn

  /** Only processes of the first fork loop are killed. */
  predicate MonkeyOnly(cfg: Config, acts: seq<Action>) {
    forall i | 0 <= i < |acts| :: Hits(cfg, acts[i])
  }

  predicate Hits(cfg: Config, a: Action) {
    a.Kill? ==> a.k < cfg.workers
  }

  // ----- an index nobody will finish -----

  /** The cell (0, 0) is not published and nobody is left to publish it. */
  ghost predicate Forsaken(cfg: Config, s: Sys, keys: seq<Key>)
    requires cfg.Valid()
  {
    && (s.phase == Watching(0) || s.phase.Collecting?) && s.c == [] && Base(cfg, s, keys)
    && (forall k | 0 <= k < |s.workers| :: s.workers[k].index == 0 ==> s.workers[k].status.Killed?)
    && (forall o | 0 <= o < |s.orphans| :: s.orphans[o].PutCall? ==> s.orphans[o].index != 0)
    && CKey(Cell(0, 0)) !in keys
  }

  /** Another index has other cells, which a search for the first cell does not hit. */
  lemma OtherCell(cfg: Config, w: nat, t: nat)
    requires cfg.Valid() && 0 < w < cfg.workers && cfg.G().HasCell(w, t)
    ensures !Confused(CKey(Cell(0, 0)), CKey(cfg.G().CellAt(w, t)))
  {
    CellOfTurn(cfg.G(), w, t);
    OwnerByColumn(cfg, Cell(0, 0));
    if Confused(CKey(Cell(0, 0)), CKey(cfg.G().CellAt(w, t))) {
      ConfusedColumns(CKey(Cell(0, 0)), CKey(cfg.G().CellAt(w, t)));
    }
  }

  lemma OtherPut(cfg: Config, s: Sys, keys: seq<Key>, w: nat, t: nat, sends: seq<bool>, r: Sys)
    requires cfg.Valid() && Forsaken(cfg, s, keys) && 0 < w < cfg.workers && cfg.G().HasCell(w, t)
    requires var b := cfg.G().CellAt(w, t); PutOutcome(cfg, s, keys, CKey(b), Product(cfg.n, b.i, b.j), sends, r)
    ensures var keys' := KeysAfterPut(cfg, s, keys, CKey(cfg.G().CellAt(w, t)), sends);
            r.c == s.c && r.phase == s.phase && CKey(Cell(0, 0)) !in keys'
  {
    OtherCell(cfg, w, t);
  }

  lemma ParentForsaken(cfg: Config, s: Sys, keys: seq<Key>)
    requires cfg.Valid() && Forsaken(cfg, s, keys)
    ensures Forsaken(cfg, ParentStep(cfg, s), KeysAfter(cfg, s, keys, Parent))
  {
    ParentBase(cfg, s, keys);
    TimesMono(1, cfg.n, cfg.n);
    if s.phase == Collecting(false) {
      GetOutcomes(cfg, s, keys);
      NoFirstCell(cfg, s, keys);
    }
  }

  lemma NoFirstCell(cfg: Config, s: Sys, keys: seq<Key>)
    requires cfg.Valid() && Forsaken(cfg, s, keys)
    ensures FirstHit(keys, CKey(RowMajor(cfg.n, 0))) == -1
  {
    var hit := FirstHit(keys, CKey(RowMajor(cfg.n, 0)));
    if hit >= 0 { ConfusedColumns(CKey(Cell(0, 0)), keys[hit]); }
  }

  /** An exchange of another index changes nothing that matters here. */
  ghost predicate Aside(s: Sys, r: Sys, keys': seq<Key>) {
    r.c == s.c && r.phase == s.phase && CKey(Cell(0, 0)) !in keys'
  }

  lemma KeysAfterAdvance(cfg: Config, s: Sys, keys: seq<Key>, k: nat, sends: seq<bool>)
    requires cfg.Valid() && k < |s.workers| && s.workers[k].status.Running?
    requires NextCall(cfg, s.workers[k]).Some? && NextCall(cfg, s.workers[k]).value.PutCall?
    ensures KeysAfter(cfg, s, keys, Advance(k, sends)) ==
            KeysAfterPut(cfg, s, keys, CKey(cfg.G().CellAt(s.workers[k].index, s.workers[k].turn)), sends)
  {
  }

  lemma AdvanceAside(cfg: Config, s: Sys, keys: seq<Key>, k: nat, sends: seq<bool>)
    requires cfg.Valid() && Forsaken(cfg, s, keys) && k < |s.workers| && s.workers[k].status.Running?
    requires NextCall(cfg, s.workers[k]).Some? && NextCall(cfg, s.workers[k]).value.PutCall?
    ensures Aside(s, AdvanceStep(cfg, s, k, sends), KeysAfter(cfg, s, keys, Advance(k, sends)))
  {
    var w, t := s.workers[k].index, s.workers[k].turn;
    var c := cfg.G().CellAt(w, t);
    var r := ServePut(s, CKey(c), Product(cfg.n, c.i, c.j), sends);
    AdvancePut(cfg, s, keys, k, sends);
    OtherPut(cfg, s, keys, w, t, sends, r);
    KeysAfterAdvance(cfg, s, keys, k, sends);
  }

  lemma AdvanceForsaken(cfg: Config, s: Sys, keys: seq<Key>, k: nat, sends: seq<bool>)
    requires cfg.Valid() && Forsaken(cfg, s, keys) && k < |s.workers| && s.workers[k].status.Running?
    ensures Forsaken(cfg, AdvanceStep(cfg, s, k, sends), KeysAfter(cfg, s, keys, Advance(k, sends)))
  {
    var call := NextCall(cfg, s.workers[k]);
    if call.Some? && call.value.PutCall? { AdvanceAside(cfg, s, keys, k, sends); }
    AdvanceBase(cfg, s, keys, k, sends);
    AdvanceChanges(cfg, s, k, sends);
  }

  lemma AdvanceChanges(cfg: Config, s: Sys, k: nat, sends: seq<bool>)
    requires cfg.Valid() && k < |s.workers| && s.workers[k].status.Running?
    ensures var r, call := AdvanceStep(cfg, s, k, sends), NextCall(cfg, s.workers[k]);
            && r.orphans == s.orphans && |r.workers| == |s.workers| && r.workers[k].index == s.workers[k].index
            && (forall j | 0 <= j < |s.workers| && j != k :: r.workers[j] == s.workers[j])
            && (call.None? || call.value.ReadCall? ==> r.c == s.c && r.phase == s.phase)
  {
  }

  lemma LateAside(cfg: Config, s: Sys, keys: seq<Key>, o: nat, writes: Writes, sends: seq<bool>)
    requires cfg.Valid() && Forsaken(cfg, s, keys) && o < |s.orphans|
    ensures Aside(s, LateStep(cfg, s, o, writes, sends), KeysAfter(cfg, s, keys, Late(o, writes, sends)))
  {
    if s.orphans[o].PutCall? {
      LatePut(cfg, s, keys, o, writes, sends);
      var c := cfg.G().CellAt(s.orphans[o].index, s.orphans[o].turn);
      OtherPut(cfg, s, keys, s.orphans[o].index, s.orphans[o].turn, sends,
               ServePut(s, CKey(c), Product(cfg.n, c.i, c.j), sends));
    }
  }

  lemma LateForsaken(cfg: Config, s: Sys, keys: seq<Key>, o: nat, writes: Writes, sends: seq<bool>)
    requires cfg.Valid() && Forsaken(cfg, s, keys) && o < |s.orphans|
    ensures Forsaken(cfg, LateStep(cfg, s, o, writes, sends), KeysAfter(cfg, s, keys, Late(o, writes, sends)))
  {
    LateBase(cfg, s, keys, o, writes, sends);
    LateAside(cfg, s, keys, o, writes, sends);
    LateChanges(cfg, s, o, writes, sends);
  }

  lemma LateChanges(cfg: Config, s: Sys, o: nat, writes: Writes, sends: seq<bool>)
    requires cfg.Valid() && o < |s.orphans|
    ensures var r := LateStep(cfg, s, o, writes, sends);
            r.workers == s.workers && |r.orphans| == |s.orphans| - 1
            && forall i | 0 <= i < |r.orphans| :: r.orphans[i] == s.orphans[if i < o then i else i + 1]
  {
  }

  lemma KillForsaken(cfg: Config, s: Sys, keys: seq<Key>, k: nat)
    requires cfg.Valid() && Forsaken(cfg, s, keys)
    ensures Forsaken(cfg, KillStep(cfg, s, k), keys)
  {
    KillBase(cfg, s, keys, k);
  }

  lemma AbandonForsaken(cfg: Config, s: Sys, keys: seq<Key>, k: nat)
    requires cfg.Valid() && Forsaken(cfg, s, keys)
    ensures Forsaken(cfg, AbandonStep(cfg, s, k), keys)
  {
    AbandonBase(cfg, s, keys, k);
  }

  lemma StepForsaken(cfg: Config, s: Sys, keys: seq<Key>, a: Action)
    requires cfg.Valid() && Forsaken(cfg, s, keys)
    ensures Forsaken(cfg, Step(cfg, s, a), KeysAfter(cfg, s, keys, a))
  {
    match a
    case Parent => ParentForsaken(cfg, s, keys);
    case Reap(k) =>
    case Advance(k, sends) => if k < |s.workers| && s.workers[k].status.Running? { AdvanceForsaken(cfg, s, keys, k, sends); }
    case Kill(k) => KillForsaken(cfg, s, keys, k);
    case Abandon(k) => AbandonForsaken(cfg, s, keys, k);
    case Late(o, writes, sends) => if o < |s.orphans| { LateForsaken(cfg, s, keys, o, writes, sends); }
  }

  lemma {:induction false} RunForsaken(cfg: Config, s: Sys, keys: seq<Key>, more: seq<Action>)
    requires cfg.Valid() && Forsaken(cfg, s, keys)
    ensures Run(cfg, s, more).phase != Finished && Run(cfg, s, more).c == []
    decreases |more|
  {
    if more != [] {
      StepForsaken(cfg, s, keys, more[0]);
      RunForsaken(cfg, Step(cfg, s, more[0]), KeysAfter(cfg, s, keys, more[0]), more[1..]);
    }
  }

  lemma {:induction false} NoOrphans(cfg: Config, s: Sys, acts: seq<Action>)
    requires cfg.Valid() && Plain(acts) && s.orphans == []
    ensures Run(cfg, s, acts).orphans == []
    decreases |acts|
  {
    if acts != [] {
      assert Harmless(acts[0]);
      NoOrphans(cfg, Step(cfg, s, acts[0]), acts[1..]);
    }
  }

  // ----- one kill is enough -----

  /** Process k of index 1 runs, and no process of index 0 does. */
  ghost predicate Doomed(cfg: Config, s: Sys, keys: seq<Key>, k: nat)
    requires cfg.Valid()
  {
    && Watched(cfg, s, keys) && s.orphans == [] && CKey(Cell(0, 0)) !in keys
    && k < |s.workers| && s.workers[k].index == 1 && s.workers[k].status.Running? && !s.workers[k].reaped
    && NoneOfFirst(s)
  }

  predicate NoneOfFirst(s: Sys) {
    forall j | 0 <= j < |s.workers| :: s.workers[j].index == 0 ==> s.workers[j].status.Killed?
  }

  lemma OnlyOwnCells(cfg: Config, keys: seq<Key>, keys': seq<Key>)
    requires cfg.Valid() && Extends(cfg, keys, keys', 1) && CKey(Cell(0, 0)) !in keys
    ensures CKey(Cell(0, 0)) !in keys'
  {
    OwnerByColumn(cfg, Cell(0, 0));
    forall p | 0 <= p < |keys'|
      ensures keys'[p] != CKey(Cell(0, 0))
    {
      if p < |keys| { assert keys'[p] == keys[p]; }
    }
  }

  /** Process k exits. */
  lemma DoomedExit(cfg: Config, s: Sys, keys: seq<Key>, k: nat) returns (acts: seq<Action>, r: Sys, keys': seq<Key>)
    requires cfg.Valid() && Doomed(cfg, s, keys, k)
    ensures Plain(acts) && r == Run(cfg, s, acts) && keys' == KeysAlong(cfg, s, keys, acts)
    ensures Watched(cfg, r, keys') && r.phase == s.phase && CKey(Cell(0, 0)) !in keys' && NoneOfFirst(r)
    ensures k < |r.workers| && r.workers[k].index == 1 && r.workers[k].status.Exited? && !r.workers[k].reaped
  {
    acts, r, keys' := FinishWorker(cfg, s, keys, k);
    EndedWatched(cfg, s, keys, k, r, keys');
    OnlyOwnCells(cfg, keys, keys');
    assert forall j | 0 <= j < |s.workers| && j != k :: r.workers[j] == s.workers[j];
  }

  /** The parent waits for it and not for index 0. */
  lemma DoomedReap(cfg: Config, s: Sys, keys: seq<Key>, k: nat) returns (r: Sys)
    requires cfg.Valid() && Watched(cfg, s, keys) && s.phase.left > 0 && CKey(Cell(0, 0)) !in keys && NoneOfFirst(s)
    requires k < |s.workers| && s.workers[k].index == 1 && s.workers[k].status.Exited? && !s.workers[k].reaped
    requires s.orphans == []
    ensures r == Step(cfg, s, Reap(k)) && KeysAfter(cfg, s, keys, Reap(k)) == keys
    ensures Doomed(cfg, r, keys, |s.workers|) && r.phase == Watching(s.phase.left - 1)
  {
    r := ReapWatched(cfg, s, keys, k);
    ReapRespawns(cfg, s, k);
  }

  lemma DoomedRound(cfg: Config, s: Sys, keys: seq<Key>, k: nat)
    returns (first: seq<Action>, mid: Sys, keys': seq<Key>, r: Sys, k': nat)
    requires cfg.Valid() && Doomed(cfg, s, keys, k) && s.phase.left > 0
    ensures Plain(first) && mid == Run(cfg, s, first) && keys' == KeysAlong(cfg, s, keys, first)
    ensures r == Step(cfg, mid, Reap(k)) && KeysAfter(cfg, mid, keys', Reap(k)) == keys'
    ensures Doomed(cfg, r, keys', k') && r.phase == Watching(s.phase.left - 1)
  {
    first, mid, keys' := DoomedExit(cfg, s, keys, k);
    NoOrphans(cfg, s, first);
    r := DoomedReap(cfg, mid, keys', k);
    k' := |mid.workers|;
  }

  /** Index 1 uses up all the successors. */
  lemma {:induction false} UseUp(cfg: Config, s: Sys, keys: seq<Key>, k: nat) returns (acts: seq<Action>, r: Sys, keys': seq<Key>)
    requires cfg.Valid() && Doomed(cfg, s, keys, k)
    ensures Plain(acts) && r == Run(cfg, s, acts) && keys' == KeysAlong(cfg, s, keys, acts)
    ensures r.phase == Watching(0) && Forsaken(cfg, r, keys')
    decreases s.phase.left
  {
    acts, r, keys' := [], s, keys;
    if s.phase.left > 0 {
      var first, mid, keys1, next, k' := DoomedRound(cfg, s, keys, k);
      var rest;
      rest, r, keys' := UseUp(cfg, next, keys1, k');
      acts := first + ([Reap(k)] + rest);
      RunConcat(cfg, s, keys, first, [Reap(k)] + rest);
      RunCons(cfg, mid, keys1, Reap(k), rest);
    }
  }

  lemma KillWatched(cfg: Config, s: Sys, keys: seq<Key>) returns (r: Sys)
    requires cfg.Valid() && Watched(cfg, s, keys)
    ensures r == Step(cfg, s, Kill(0)) && Watched(cfg, r, keys)
  {
    r := KillStep(cfg, s, 0);
    KillBase(cfg, s, keys, 0);
    StepOneEach(cfg, s, Kill(0));
  }

  lemma FreshDoomed(cfg: Config, s: Sys, r: Sys, keys: seq<Key>)
    requires cfg.Valid() && cfg.program.MATRIX_C? && cfg.workers >= 2 && s.workers == Fresh(cfg.workers)
    requires r == KillStep(cfg, s, 0) && Watched(cfg, r, keys) && s.orphans == [] && CKey(Cell(0, 0)) !in keys
    ensures Doomed(cfg, r, keys, 1)
  {
    KillEnds(cfg, s, 0);
    assert forall j | 0 <= j < |s.workers| :: s.workers[j] == NewWorker(j);
  }

  lemma FirstKilled(cfg: Config, first: seq<Action>, s: Sys) returns (r: Sys)
    requires cfg.Valid() && cfg.program.MATRIX_C? && cfg.workers >= 2 && Plain(first)
    requires s == Run(cfg, INIT, first) && s.phase == Watching(cfg.workers) && s.workers == Fresh(cfg.workers)
    requires KeysAlong(cfg, INIT, [], first) == Initial(cfg)
    ensures r == Run(cfg, INIT, first + [Kill(0)]) && Doomed(cfg, r, Initial(cfg), 1)
  {
    RunWatched(cfg, first);
    NoOrphans(cfg, INIT, first);
    r := KillWatched(cfg, s, Initial(cfg));
    NotInitial(cfg, CKey(Cell(0, 0)));
    FreshDoomed(cfg, s, r, Initial(cfg));
    RunSnoc(cfg, first, Kill(0));
  }

  lemma LostFirst(cfg: Config, s: Sys, keys: seq<Key>)
    requires cfg.Valid() && Forsaken(cfg, s, keys) && s.phase == Watching(0)
    ensures |Lost(cfg, s)| > Respawns(s)
  {
    assert 0 in Lost(cfg, s);
  }

  lemma KilledAndUsedUp(cfg: Config) returns (first: seq<Action>, rest: seq<Action>, r: Sys, keys: seq<Key>)
    requires cfg.Valid() && cfg.program.MATRIX_C? && cfg.workers >= 2
    ensures Plain(first) && Plain(rest) && r == Run(cfg, INIT, first + [Kill(0)] + rest)
    ensures r.phase == Watching(0) && Forsaken(cfg, r, keys)
  {
    first := AllForked(cfg);
    var s := FirstKilled(cfg, first, Run(cfg, INIT, first));
    rest, r, keys := UseUp(cfg, s, Initial(cfg), 1);
    RunConcat(cfg, INIT, [], first + [Kill(0)], rest);
  }

  /** With two workers or more, for every size: the monkey kills the first worker
      once, and wait() returns the other processes first. Then no schedule ends the
      run, completes the passes or gets a single value. */
  lemma OneKillTooMany(cfg: Config) returns (acts: seq<Action>)
    requires cfg.Valid() && cfg.program.MATRIX_C? && cfg.workers >= 2
    ensures exists first, rest :: Plain(first) && Plain(rest) && acts == first + [Kill(0)] + rest
    ensures MonkeyOnly(cfg, acts) && Run(cfg, INIT, acts).phase == Watching(0)
    ensures forall more: seq<Action> ::
              var r := Run(cfg, INIT, acts + more); r.phase != Finished && r.c == [] && !PassesComplete(cfg, r)
  {
    var first, rest, r, keys := KilledAndUsedUp(cfg);
    acts := first + [Kill(0)] + rest;
    OneKillOnly(cfg, first, rest);
    LostFirst(cfg, r, keys);
    forall more: seq<Action>
      ensures var q := Run(cfg, INIT, acts + more); q.phase != Finished && q.c == [] && !PassesComplete(cfg, q)
    {
      RunConcat(cfg, INIT, [], acts, more);
      RunForsaken(cfg, r, keys, more);
      LostForGood(cfg, r, more);
    }
  }

  lemma OneKillOnly(cfg: Config, first: seq<Action>, rest: seq<Action>)
    requires cfg.Valid() && Plain(first) && Plain(rest)
    ensures MonkeyOnly(cfg, first + [Kill(0)] + rest)
  {
    var acts := first + [Kill(0)] + rest;
    forall i | 0 <= i < |acts|
      ensures Hits(cfg, acts[i])
    {
      if i < |first| {
        assert acts[i] == first[i] && Harmless(first[i]);
      } else if i > |first| {
        assert acts[i] == rest[i - |first| - 1] && Harmless(rest[i - |first| - 1]);
      }
    }
  }

  // ----- a single worker -----

  /** Successors are never killed; the only worker is waited for before it has one. */
  predicate HeirsLive(cfg: Config, s: Sys) {
    && (forall k | cfg.workers <= k < |s.workers| :: !s.workers[k].status.Killed?)
    && (|s.workers| >= 2 ==> s.workers[0].reaped)
  }

  lemma StepHeirs(cfg: Config, s: Sys, a: Action)
    requires cfg.Valid() && cfg.workers == 1 && HeirsLive(cfg, s) && OneEach(cfg, s) && Hits(cfg, a)
    ensures HeirsLive(cfg, Step(cfg, s, a))
  {
  }

  lemma {:induction false} RunHeirs(cfg: Config, s: Sys, keys: seq<Key>, acts: seq<Action>)
    requires cfg.Valid() && cfg.workers == 1 && cfg.program.MATRIX_C?
    requires HeirsLive(cfg, s) && OneEach(cfg, s) && Base(cfg, s, keys) && MonkeyOnly(cfg, acts)
    ensures HeirsLive(cfg, Run(cfg, s, acts))
    decreases |acts|
  {
    if acts != [] {
      StepHeirs(cfg, s, acts[0]);
      StepOneEach(cfg, s, acts[0]);
      StepBase(cfg, s, keys, acts[0]);
      RunHeirs(cfg, Step(cfg, s, acts[0]), KeysAfter(cfg, s, keys, acts[0]), acts[1..]);
    }
  }

  lemma FewLost(cfg: Config, s: Sys, keys: seq<Key>)
    requires cfg.Valid() && cfg.workers == 1 && Watched(cfg, s, keys) && HeirsLive(cfg, s)
    ensures |Lost(cfg, s)| <= s.phase.left
  {
    SubsetSize(Lost(cfg, s), Below(1));
    if s.phase.left == 0 {
      assert |s.workers| == 2;
      if w :| w in Lost(cfg, s) {
        var k := LostIsKilled(cfg, s, keys, w);
      }
    }
  }

  ghost predicate CanComplete(cfg: Config, s: Sys)
    requires cfg.Valid()
  {
    exists more: seq<Action> :: PassesComplete(cfg, Run(cfg, s, more))
  }

  /** The monkey can never do lasting harm exactly if there is one worker. */
  lemma MonkeyHarmlessIff(cfg: Config)
    requires cfg.Valid() && cfg.program.MATRIX_C?
    ensures cfg.workers == 1 <==>
            forall acts: seq<Action> | MonkeyOnly(cfg, acts) && Run(cfg, INIT, acts).phase.Watching? ::
              CanComplete(cfg, Run(cfg, INIT, acts))
  {
    if cfg.workers == 1 {
      forall acts: seq<Action> | MonkeyOnly(cfg, acts) && Run(cfg, INIT, acts).phase.Watching?
        ensures CanComplete(cfg, Run(cfg, INIT, acts))
      {
        InitBase(cfg);
        RunHeirs(cfg, INIT, [], acts);
        RunWatched(cfg, acts);
        FewLost(cfg, Run(cfg, INIT, acts), KeysAlong(cfg, INIT, [], acts));
        RecoveryIff(cfg, acts);
      }
    } else {
      var acts := OneKillTooMany(cfg);
      forall more: seq<Action>
        ensures !PassesComplete(cfg, Run(cfg, Run(cfg, INIT, acts), more))
      {
        RunConcat(cfg, INIT, [], acts, more);
      }
    }
  }
}
