/** What the respawning parent of matrix.c gives: every dead worker that is waited
    for gets exactly one successor of its index, which starts from the beginning,
    so lost work is redone as long as the parent still waits. */
module Respawn {
  import opened TupleSpace
  import opened Keys
  import opened Naturals
  import opened Tiling
  import opened Products
  import opened MatrixProtocol
  import opened KeyedSpace
  import opened ProtocolBase
  import opened ProtocolOrder
  import opened ProtocolTheorems
  import opened KeyCount
  import opened ProtocolConverse

  // ----- one wait, one kill -----

  /** A wait() that returns has met a dead process that was not waited for before,
      while to_wait > 0. It counts to_wait down and, in matrix.c only, forks one
      process of the same index that begins with its first cell. */
  lemma ReapRespawns(cfg: Config, s: Sys, k: nat)
    requires cfg.Valid()
    ensures var r := Step(cfg, s, Reap(k));
            if s.phase.Watching? && s.phase.left > 0 && k < |s.workers| && !s.workers[k].reaped
               && (s.workers[k].status == Exited || s.workers[k].status == Killed) then
              var heirs := if cfg.program == MATRIX_C then 1 else 0;
              && r.phase == Watching(s.phase.left - 1)
              && r.server == s.server && r.orphans == s.orphans && r.c == s.c
              && |r.workers| == |s.workers| + heirs && r.workers[k] == s.workers[k].(reaped := true)
              && (forall j | 0 <= j < |s.workers| && j != k :: r.workers[j] == s.workers[j])
              && (heirs == 1 ==> r.workers[|s.workers|] == Worker(s.workers[k].index, 0, 0, None, 0, Running, false))
            else r == s
  {
  }

  /** The chaos monkey ends one live worker of matrix.c and touches nothing else. */
  lemma KillEnds(cfg: Config, s: Sys, k: nat)
    requires cfg.Valid()
    ensures var r := Step(cfg, s, Kill(k));
            if cfg.program == MATRIX_C && k < |s.workers|
               && (s.workers[k].status == Running || s.workers[k].status == Blocked) then
              && r.server == s.server && r.orphans == s.orphans && r.c == s.c && r.phase == s.phase
              && |r.workers| == |s.workers| && r.workers[k] == s.workers[k].(status := Killed)
              && (forall j | 0 <= j < |s.workers| && j != k :: r.workers[j] == s.workers[j])
            else r == s
  {
  }

  // ----- one live incarnation of each index -----

  predicate Current(s: Sys, k: nat, w: nat) {
    k < |s.workers| && s.workers[k].index == w && !s.workers[k].reaped
  }

  ghost predicate HasCurrent(s: Sys, w: nat) {
    exists k: nat :: Current(s, k, w)
  }

  /** The indices that have been forked. */
  function Forked(cfg: Config, phase: Phase): nat {
    match phase
    case Publishing(_) => 0
    case Forking(m) => m
    case _ => cfg.workers
  }

  /** The processes that matrix.c has forked: the workers and a successor per wait(). */
  function Processes(cfg: Config, phase: Phase): int {
    match phase
    case Watching(left) => 2 * cfg.workers - left
    case Collecting(_) => 2 * cfg.workers
    case Finished => 2 * cfg.workers
    case _ => Forked(cfg, phase)
  }

  ghost predicate OneEach(cfg: Config, s: Sys) {
    && (forall w: nat | w < Forked(cfg, s.phase) :: HasCurrent(s, w))
    && (forall k, j | 0 <= k < j < |s.workers| && !s.workers[k].reaped && !s.workers[j].reaped ::
          s.workers[k].index != s.workers[j].index)
    && (forall k | 0 <= k < |s.workers| :: s.workers[k].index < Forked(cfg, s.phase))
    && |s.workers| == Processes(cfg, s.phase)
    && (s.phase.Watching? ==> s.phase.left <= cfg.workers)
  }

  /** What a process can become other than by being waited for. */
  predicate Follows(w: Worker, w': Worker) {
    && w'.index == w.index && w'.reaped == w.reaped
    && (w'.status.Running? ==> w.status.Running?)
    && (w'.status.Exited? ==> w.status.Exited? || w.status.Running?)
  }

  ghost predicate SameProcesses(s: Sys, r: Sys) {
    |r.workers| == |s.workers| && forall k | 0 <= k < |s.workers| :: Follows(s.workers[k], r.workers[k])
  }

  predicate Forks(cfg: Config, s: Sys, a: Action) {
    a.Parent? && s.phase.Forking? && s.phase.next < cfg.workers
  }

  lemma AdvanceProcesses(cfg: Config, s: Sys, k: nat, sends: seq<bool>)
    requires cfg.Valid()
    ensures SameProcesses(s, AdvanceStep(cfg, s, k, sends))
  {
  }

  lemma ParentProcesses(cfg: Config, s: Sys)
    requires cfg.Valid() && !Forks(cfg, s, Parent)
    ensures SameProcesses(s, ParentStep(cfg, s))
  {
    assert ParentStep(cfg, s).workers == s.workers;
  }

  lemma LateProcesses(cfg: Config, s: Sys, o: nat, writes: Writes, sends: seq<bool>)
    requires cfg.Valid()
    ensures SameProcesses(s, LateStep(cfg, s, o, writes, sends))
  {
    assert LateStep(cfg, s, o, writes, sends).workers == s.workers;
  }

  /** Only the forks and wait() change the list of processes. */
  lemma StepProcesses(cfg: Config, s: Sys, a: Action)
    requires cfg.Valid() && !a.Reap? && !Forks(cfg, s, a)
    ensures SameProcesses(s, Step(cfg, s, a))
  {
    match a
    case Parent => ParentProcesses(cfg, s);
    case Advance(k, sends) => AdvanceProcesses(cfg, s, k, sends);
    case Late(o, writes, sends) => LateProcesses(cfg, s, o, writes, sends);
    case _ =>
  }

  /** The phase goes on without a fork or a wait(). */
  lemma StepPhase(cfg: Config, s: Sys, a: Action)
    requires cfg.Valid() && !a.Reap? && !Forks(cfg, s, a) && CountOk(cfg, s)
    ensures var r := Step(cfg, s, a);
            && Forked(cfg, r.phase) == Forked(cfg, s.phase) && Processes(cfg, r.phase) == Processes(cfg, s.phase)
            && (r.phase.Watching? ==> r.phase == s.phase || r.phase.left == cfg.workers)
  {
  }

  lemma SameOneEach(cfg: Config, s: Sys, r: Sys)
    requires OneEach(cfg, s) && SameProcesses(s, r)
    requires Forked(cfg, r.phase) == Forked(cfg, s.phase) && Processes(cfg, r.phase) == Processes(cfg, s.phase)
    requires r.phase.Watching? ==> r.phase == s.phase || r.phase.left == cfg.workers
    ensures OneEach(cfg, r)
  {
    forall w: nat | w < Forked(cfg, r.phase)
      ensures HasCurrent(r, w)
    {
      assert HasCurrent(s, w);
      var k: nat :| Current(s, k, w);
      assert Current(r, k, w);
    }
  }

  lemma ForkOneEach(cfg: Config, s: Sys)
    requires cfg.Valid() && OneEach(cfg, s) && Forks(cfg, s, Parent)
    ensures OneEach(cfg, ParentStep(cfg, s))
  {
    var m, r := s.phase.next, ParentStep(cfg, s);
    forall w: nat | w < m + 1
      ensures HasCurrent(r, w)
    {
      if w < m {
        assert HasCurrent(s, w);
        var k: nat :| Current(s, k, w);
        assert Current(r, k, w);
      } else {
        assert Current(r, |s.workers|, w);
      }
    }
  }

  lemma ReapOneEach(cfg: Config, s: Sys, k: nat)
    requires cfg.Valid() && cfg.program.MATRIX_C? && OneEach(cfg, s)
    ensures OneEach(cfg, ReapStep(cfg, s, k))
  {
    var r := ReapStep(cfg, s, k);
    if r != s {
      forall w: nat | w < cfg.workers
        ensures HasCurrent(r, w)
      {
        assert HasCurrent(s, w);
        var j: nat :| Current(s, j, w);
        assert Current(r, if j == k then |s.workers| else j, w);
      }
    }
  }

  lemma StepOneEach(cfg: Config, s: Sys, a: Action)
    requires cfg.Valid() && cfg.program.MATRIX_C? && OneEach(cfg, s) && CountOk(cfg, s)
    ensures OneEach(cfg, Step(cfg, s, a))
  {
    if a.Reap? {
      ReapOneEach(cfg, s, a.k);
    } else if Forks(cfg, s, a) {
      ForkOneEach(cfg, s);
    } else {
      StepProcesses(cfg, s, a);
      StepPhase(cfg, s, a);
      SameOneEach(cfg, s, Step(cfg, s, a));
    }
  }

  /** In every run of matrix.c every forked index has exactly one process that was
      not waited for, and the parent has forked one process per wait(). */
  lemma {:induction false} RunOneEach(cfg: Config, s: Sys, keys: seq<Key>, acts: seq<Action>)
    requires cfg.Valid() && cfg.program.MATRIX_C? && OneEach(cfg, s) && Base(cfg, s, keys)
    ensures OneEach(cfg, Run(cfg, s, acts))
    decreases |acts|
  {
    if acts != [] {
      StepOneEach(cfg, s, acts[0]);
      StepBase(cfg, s, keys, acts[0]);
      RunOneEach(cfg, Step(cfg, s, acts[0]), KeysAfter(cfg, s, keys, acts[0]), acts[1..]);
    }
  }

  // ----- lost indices -----

  predicate HasRunning(s: Sys, w: nat) {
    exists k | 0 <= k < |s.workers| :: s.workers[k].index == w && s.workers[k].status.Running?
  }

  /** No process of the index has completed its pass and none is running. */
  predicate IsLost(s: Sys, w: nat) {
    !HasPassed(s, w) && !HasRunning(s, w)
  }

  function Lost(cfg: Config, s: Sys): set<nat> {
    set w | w in Below(cfg.workers) && IsLost(s, w)
  }

  /** The successors that the parent will still fork. */
  function Respawns(s: Sys): nat {
    if s.phase.Watching? then s.phase.left else 0
  }

  /** The forks are over. */
  predicate Settled(s: Sys) {
    !s.phase.Publishing? && !s.phase.Forking?
  }

  lemma StaysLost(s: Sys, r: Sys, w: nat)
    requires SameProcesses(s, r) && IsLost(s, w)
    ensures IsLost(r, w)
  {
    forall k | 0 <= k < |r.workers| && r.workers[k].index == w
      ensures !r.workers[k].status.Running? && !r.workers[k].status.Exited?
    {
      assert Follows(s.workers[k], r.workers[k]);
    }
  }

  lemma ReapLost(cfg: Config, s: Sys, k: nat)
    requires cfg.Valid() && k < |s.workers| && ReapStep(cfg, s, k) != s
    ensures Lost(cfg, s) <= Lost(cfg, ReapStep(cfg, s, k)) + {s.workers[k].index}
  {
    var r := ReapStep(cfg, s, k);
    forall w | w in Lost(cfg, s) && w != s.workers[k].index
      ensures w in Lost(cfg, r)
    {
      forall j | 0 <= j < |r.workers| && r.workers[j].index == w
        ensures !r.workers[j].status.Running? && !r.workers[j].status.Exited?
      {
        assert j < |s.workers| && r.workers[j].status == s.workers[j].status;
      }
    }
  }

  lemma OneLess(small: set<nat>, large: set<nat>, x: nat)
    requires small <= large + {x}
    ensures |small| <= |large| + 1
  {
    SubsetSize(small, large + {x});
  }

  /** No step takes back more losses than it uses up successors. */
  lemma StepLost(cfg: Config, s: Sys, a: Action)
    requires cfg.Valid() && Settled(s)
    ensures Settled(Step(cfg, s, a))
    ensures |Lost(cfg, s)| + Respawns(Step(cfg, s, a)) <= |Lost(cfg, Step(cfg, s, a))| + Respawns(s)
  {
    var r := Step(cfg, s, a);
    if a.Reap? {
      if r != s {
        ReapLost(cfg, s, a.k);
        OneLess(Lost(cfg, s), Lost(cfg, r), s.workers[a.k].index);
      }
    } else {
      StepProcesses(cfg, s, a);
      forall w | w in Lost(cfg, s)
        ensures w in Lost(cfg, r)
      {
        StaysLost(s, r, w);
      }
      SubsetSize(Lost(cfg, s), Lost(cfg, r));
    }
  }

  lemma {:induction false} RunLost(cfg: Config, s: Sys, acts: seq<Action>)
    requires cfg.Valid() && Settled(s)
    ensures |Lost(cfg, s)| <= |Lost(cfg, Run(cfg, s, acts))| + Respawns(s)
    decreases |acts|
  {
    if acts != [] {
      StepLost(cfg, s, acts[0]);
      RunLost(cfg, Step(cfg, s, acts[0]), acts[1..]);
    }
  }

  lemma NoneLost(cfg: Config, s: Sys)
    requires PassesComplete(cfg, s)
    ensures Lost(cfg, s) == {}
  {
    assert forall w: nat | w < cfg.workers :: HasPassed(s, w);
  }

  /** More lost indices than successors: no schedule completes all passes. */
  lemma LostForGood(cfg: Config, s: Sys, more: seq<Action>)
    requires cfg.Valid() && Settled(s) && |Lost(cfg, s)| > Respawns(s)
    ensures !PassesComplete(cfg, Run(cfg, s, more))
  {
    RunLost(cfg, s, more);
    if PassesComplete(cfg, Run(cfg, s, more)) {
      NoneLost(cfg, Run(cfg, s, more));
    }
  }

  // ----- redoing what was lost -----

  /** The parent of matrix.c waits for its workers. */
  ghost predicate Watched(cfg: Config, s: Sys, keys: seq<Key>)
    requires cfg.Valid()
  {
    cfg.program.MATRIX_C? && s.phase.Watching? && Base(cfg, s, keys) && OneEach(cfg, s)
  }

  lemma LostIsKilled(cfg: Config, s: Sys, keys: seq<Key>, w: nat) returns (k: nat)
    requires cfg.Valid() && Watched(cfg, s, keys) && w in Lost(cfg, s)
    ensures Current(s, k, w) && s.workers[k].status.Killed?
  {
    assert HasCurrent(s, w);
    k :| Current(s, k, w);
    assert WorkerOk(cfg, s.workers[k]);
  }

  /** Whoever had passed or was running still has or is, and so is the successor. */
  ghost predicate Kept(s: Sys, r: Sys) {
    && (forall w: nat | HasPassed(s, w) :: HasPassed(r, w))
    && (forall w: nat | HasRunning(s, w) :: HasRunning(r, w))
  }

  lemma ReapKeeps(cfg: Config, s: Sys, k: nat)
    requires cfg.Valid() && cfg.program.MATRIX_C? && k < |s.workers| && ReapStep(cfg, s, k) != s
    ensures Kept(s, ReapStep(cfg, s, k)) && HasRunning(ReapStep(cfg, s, k), s.workers[k].index)
  {
    var r := ReapStep(cfg, s, k);
    assert r.workers[|s.workers|] == NewWorker(s.workers[k].index);
    assert forall j | 0 <= j < |s.workers| ::
        r.workers[j].index == s.workers[j].index && r.workers[j].status == s.workers[j].status;
  }

  lemma ReapWatched(cfg: Config, s: Sys, keys: seq<Key>, k: nat) returns (r: Sys)
    requires cfg.Valid() && Watched(cfg, s, keys) && s.phase.left > 0 && k < |s.workers|
    requires !s.workers[k].reaped && (s.workers[k].status.Exited? || s.workers[k].status.Killed?)
    ensures r == Step(cfg, s, Reap(k)) && r == ReapStep(cfg, s, k) != s
    ensures Watched(cfg, r, keys) && r.phase == Watching(s.phase.left - 1)
  {
    r := ReapStep(cfg, s, k);
    ReapBase(cfg, s, keys, k);
    ReapOneEach(cfg, s, k);
  }

  lemma FewerLost(cfg: Config, s: Sys, r: Sys, w: nat)
    requires Kept(s, r) && w in Lost(cfg, s) && HasRunning(r, w)
    ensures |Lost(cfg, r)| < |Lost(cfg, s)|
  {
    assert Lost(cfg, r) <= Lost(cfg, s) - {w};
    SubsetSize(Lost(cfg, r), Lost(cfg, s) - {w});
  }

  lemma RecoverOne(cfg: Config, s: Sys, keys: seq<Key>) returns (k: nat, r: Sys)
    requires cfg.Valid() && Watched(cfg, s, keys) && 0 < |Lost(cfg, s)| <= s.phase.left
    ensures r == Step(cfg, s, Reap(k)) && KeysAfter(cfg, s, keys, Reap(k)) == keys
    ensures Watched(cfg, r, keys) && r.phase == Watching(s.phase.left - 1) && |Lost(cfg, r)| < |Lost(cfg, s)|
  {
    var w :| w in Lost(cfg, s);
    k := LostIsKilled(cfg, s, keys, w);
    r := ReapWatched(cfg, s, keys, k);
    ReapKeeps(cfg, s, k);
    FewerLost(cfg, s, r, w);
  }

  /** The parent waits for a killed process of each lost index. */
  lemma {:induction false} RecoverLost(cfg: Config, s: Sys, keys: seq<Key>) returns (acts: seq<Action>, r: Sys)
    requires cfg.Valid() && Watched(cfg, s, keys) && |Lost(cfg, s)| <= s.phase.left
    ensures Plain(acts) && r == Run(cfg, s, acts) && KeysAlong(cfg, s, keys, acts) == keys
    ensures Watched(cfg, r, keys) && Lost(cfg, r) == {}
    decreases s.phase.left
  {
    acts, r := [], s;
    if |Lost(cfg, s)| > 0 {
      var k, m := RecoverOne(cfg, s, keys);
      var rest;
      rest, r := RecoverLost(cfg, m, keys);
      acts := [Reap(k)] + rest;
      RunCons(cfg, s, keys, Reap(k), rest);
    }
  }

  lemma EndedWatched(cfg: Config, s: Sys, keys: seq<Key>, k: nat, r: Sys, keys': seq<Key>)
    requires cfg.Valid() && Watched(cfg, s, keys) && k < |s.workers| && s.workers[k].status.Running?
    requires Ended(cfg, s, keys, k, r, keys') && Base(cfg, r, keys')
    ensures Watched(cfg, r, keys') && HasPassed(r, s.workers[k].index)
    ensures forall w: nat | HasPassed(s, w) :: HasPassed(r, w)
    ensures forall w: nat | HasRunning(s, w) && w != s.workers[k].index :: HasRunning(r, w)
  {
    assert forall j | 0 <= j < |s.workers| && j != k :: r.workers[j] == s.workers[j];
    SameOneEach(cfg, s, r);
    assert r.workers[k].index == s.workers[k].index && r.workers[k].status.Exited?;
  }

  /** One running process of the index goes on to its end. */
  lemma FinishIndex(cfg: Config, s: Sys, keys: seq<Key>, k: nat)
    returns (acts: seq<Action>, r: Sys, keys': seq<Key>)
    requires cfg.Valid() && Watched(cfg, s, keys) && k < |s.workers| && s.workers[k].status.Running?
    ensures Plain(acts) && r == Run(cfg, s, acts) && keys' == KeysAlong(cfg, s, keys, acts)
    ensures Watched(cfg, r, keys') && r.phase == s.phase && |r.workers| == |s.workers|
    ensures r.workers[k].status.Exited? && r.workers[k].index == s.workers[k].index
    ensures r.workers[k].reaped == s.workers[k].reaped
    ensures forall w: nat | HasPassed(s, w) :: HasPassed(r, w)
    ensures forall w: nat | HasRunning(s, w) && w != s.workers[k].index :: HasRunning(r, w)
  {
    acts, r, keys' := FinishWorker(cfg, s, keys, k);
    EndedWatched(cfg, s, keys, k, r, keys');
  }

  /** The indices before m have passed; the others have passed or are running. */
  ghost predicate PassedUpTo(cfg: Config, s: Sys, m: nat) {
    && (forall w: nat | w < m :: HasPassed(s, w))
    && (forall w: nat | m <= w < cfg.workers :: HasPassed(s, w) || HasRunning(s, w))
  }

  lemma FinishOne(cfg: Config, s: Sys, keys: seq<Key>, m: nat)
    returns (acts: seq<Action>, r: Sys, keys': seq<Key>)
    requires cfg.Valid() && Watched(cfg, s, keys) && m < cfg.workers && PassedUpTo(cfg, s, m)
    ensures Plain(acts) && r == Run(cfg, s, acts) && keys' == KeysAlong(cfg, s, keys, acts)
    ensures Watched(cfg, r, keys') && PassedUpTo(cfg, r, m + 1)
  {
    acts, r, keys' := [], s, keys;
    if !HasPassed(s, m) {
      assert HasRunning(s, m);
      var k :| 0 <= k < |s.workers| && s.workers[k].index == m && s.workers[k].status.Running?;
      acts, r, keys' := FinishIndex(cfg, s, keys, k);
      assert HasPassed(r, m);
    }
  }

  lemma {:induction false} FinishIndices(cfg: Config, s: Sys, keys: seq<Key>, m: nat)
    returns (acts: seq<Action>, r: Sys, keys': seq<Key>)
    requires cfg.Valid() && Watched(cfg, s, keys) && m <= cfg.workers && PassedUpTo(cfg, s, m)
    ensures Plain(acts) && r == Run(cfg, s, acts) && keys' == KeysAlong(cfg, s, keys, acts)
    ensures Watched(cfg, r, keys') && PassesComplete(cfg, r)
    decreases cfg.workers - m
  {
    acts, r, keys' := [], s, keys;
    if m < cfg.workers {
      var first, mid, keys1 := FinishOne(cfg, s, keys, m);
      var rest;
      rest, r, keys' := FinishIndices(cfg, mid, keys1, m + 1);
      acts := first + rest;
      RunConcat(cfg, s, keys, first, rest);
    }
  }

  /** All passes are completed without another kill. */
  lemma CompletePasses(cfg: Config, s: Sys, keys: seq<Key>)
    returns (acts: seq<Action>, r: Sys, keys': seq<Key>)
    requires cfg.Valid() && Watched(cfg, s, keys) && |Lost(cfg, s)| <= s.phase.left
    ensures Plain(acts) && r == Run(cfg, s, acts) && keys' == KeysAlong(cfg, s, keys, acts)
    ensures Watched(cfg, r, keys') && PassesComplete(cfg, r)
  {
    var first, mid := RecoverLost(cfg, s, keys);
    forall w: nat | w < cfg.workers
      ensures HasPassed(mid, w) || HasRunning(mid, w)
    {
      assert w in Below(cfg.workers) && w !in Lost(cfg, mid);
    }
    var rest;
    rest, r, keys' := FinishIndices(cfg, mid, keys, 0);
    acts := first + rest;
    RunConcat(cfg, s, keys, first, rest);
  }

  // ----- until the parent stops waiting -----

  lemma PassesKept(cfg: Config, s: Sys, r: Sys)
    requires PassesComplete(cfg, s) && forall w: nat | HasPassed(s, w) :: HasPassed(r, w)
    ensures PassesComplete(cfg, r)
  {
  }

  /** One of the processes of index 0 is dead and not waited for, or soon will be. */
  lemma DeadFirst(cfg: Config, s: Sys, keys: seq<Key>)
    returns (acts: seq<Action>, r: Sys, keys': seq<Key>, k: nat)
    requires cfg.Valid() && Watched(cfg, s, keys) && PassesComplete(cfg, s)
    ensures Plain(acts) && r == Run(cfg, s, acts) && keys' == KeysAlong(cfg, s, keys, acts)
    ensures Watched(cfg, r, keys') && PassesComplete(cfg, r) && r.phase == s.phase
    ensures k < |r.workers| && !r.workers[k].reaped && (r.workers[k].status.Exited? || r.workers[k].status.Killed?)
  {
    assert HasCurrent(s, 0);
    k :| Current(s, k, 0);
    assert WorkerOk(cfg, s.workers[k]);
    acts, r, keys' := [], s, keys;
    if s.workers[k].status.Running? {
      acts, r, keys' := FinishIndex(cfg, s, keys, k);
      PassesKept(cfg, s, r);
    }
  }

  lemma ReapPassed(cfg: Config, s: Sys, keys: seq<Key>, k: nat) returns (r: Sys)
    requires cfg.Valid() && Watched(cfg, s, keys) && PassesComplete(cfg, s) && s.phase.left > 0
    requires k < |s.workers| && !s.workers[k].reaped && (s.workers[k].status.Exited? || s.workers[k].status.Killed?)
    ensures r == Step(cfg, s, Reap(k)) && KeysAfter(cfg, s, keys, Reap(k)) == keys
    ensures Watched(cfg, r, keys) && PassesComplete(cfg, r) && r.phase == Watching(s.phase.left - 1)
  {
    r := ReapWatched(cfg, s, keys, k);
    ReapKeeps(cfg, s, k);
    PassesKept(cfg, s, r);
  }

  lemma WaitOnce(cfg: Config, s: Sys, keys: seq<Key>)
    returns (first: seq<Action>, k: nat, mid: Sys, keys': seq<Key>, r: Sys)
    requires cfg.Valid() && Watched(cfg, s, keys) && PassesComplete(cfg, s) && s.phase.left > 0
    ensures Plain(first) && mid == Run(cfg, s, first) && keys' == KeysAlong(cfg, s, keys, first)
    ensures r == Step(cfg, mid, Reap(k)) && KeysAfter(cfg, mid, keys', Reap(k)) == keys'
    ensures Watched(cfg, r, keys') && PassesComplete(cfg, r) && r.phase == Watching(s.phase.left - 1)
  {
    first, mid, keys', k := DeadFirst(cfg, s, keys);
    r := ReapPassed(cfg, mid, keys', k);
  }

  lemma {:induction false} WaitOut(cfg: Config, s: Sys, keys: seq<Key>)
    returns (acts: seq<Action>, r: Sys, keys': seq<Key>)
    requires cfg.Valid() && Watched(cfg, s, keys) && PassesComplete(cfg, s)
    ensures Plain(acts) && r == Run(cfg, s, acts) && keys' == KeysAlong(cfg, s, keys, acts)
    ensures Watched(cfg, r, keys') && PassesComplete(cfg, r) && r.phase == Watching(0)
    decreases s.phase.left
  {
    acts, r, keys' := [], s, keys;
    if s.phase.left > 0 {
      var first, k, mid, keys1, next := WaitOnce(cfg, s, keys);
      var rest;
      rest, r, keys' := WaitOut(cfg, next, keys1);
      acts := first + ([Reap(k)] + rest);
      RunConcat(cfg, s, keys, first, [Reap(k)] + rest);
      RunCons(cfg, mid, keys1, Reap(k), rest);
    }
  }

  // ----- the results -----

  lemma RunWatched(cfg: Config, acts: seq<Action>)
    requires cfg.Valid() && cfg.program.MATRIX_C? && Run(cfg, INIT, acts).phase.Watching?
    ensures Watched(cfg, Run(cfg, INIT, acts), KeysAlong(cfg, INIT, [], acts))
  {
    InitBase(cfg);
    RunBase(cfg, INIT, [], acts);
    RunOneEach(cfg, INIT, [], acts);
  }

  /** From every reachable state of the waiting parent: all passes can still be
      completed, and then without another kill, exactly if no more indices are lost
      than successors will be forked. */
  lemma RecoveryIff(cfg: Config, acts: seq<Action>)
    requires cfg.Valid() && cfg.program.MATRIX_C? && Run(cfg, INIT, acts).phase.Watching?
    ensures var s := Run(cfg, INIT, acts);
            |Lost(cfg, s)| <= s.phase.left <==>
            exists more: seq<Action> :: Plain(more) && PassesComplete(cfg, Run(cfg, s, more))
    ensures var s := Run(cfg, INIT, acts);
            |Lost(cfg, s)| <= s.phase.left <==>
            exists more: seq<Action> :: PassesComplete(cfg, Run(cfg, s, more))
  {
    var s, keys := Run(cfg, INIT, acts), KeysAlong(cfg, INIT, [], acts);
    RunWatched(cfg, acts);
    if |Lost(cfg, s)| <= s.phase.left {
      var more, r, keys' := CompletePasses(cfg, s, keys);
    } else {
      forall more: seq<Action>
        ensures !PassesComplete(cfg, Run(cfg, s, more))
      {
        LostForGood(cfg, s, more);
      }
    }
  }

  /** The killed processes that have not been waited for. */
  function Unburied(s: Sys): set<nat> {
    set k: nat | k < |s.workers| && s.workers[k].status.Killed? && !s.workers[k].reaped
  }

  /** The indices of some processes. */
  function IndicesOf(s: Sys, ks: set<nat>): set<nat> {
    set k | k in ks && k < |s.workers| :: s.workers[k].index
  }

  lemma {:induction false} IndicesSize(s: Sys, ks: set<nat>)
    ensures |IndicesOf(s, ks)| <= |ks|
    decreases |ks|
  {
    if k :| k in ks {
      IndicesSize(s, ks - {k});
      var less := IndicesOf(s, ks - {k});
      if k < |s.workers| {
        assert IndicesOf(s, ks) <= less + {s.workers[k].index};
        OneLess(IndicesOf(s, ks), less, s.workers[k].index);
      } else {
        assert IndicesOf(s, ks) == less;
      }
    } else {
      assert IndicesOf(s, ks) == {};
    }
  }

  /** Every lost index has a killed process that was not waited for. */
  lemma LostAreUnburied(cfg: Config, s: Sys, keys: seq<Key>)
    requires cfg.Valid() && Watched(cfg, s, keys)
    ensures |Lost(cfg, s)| <= |Unburied(s)|
  {
    forall w | w in Lost(cfg, s)
      ensures w in IndicesOf(s, Unburied(s))
    {
      var k := LostIsKilled(cfg, s, keys, w);
      assert k in Unburied(s);
    }
    SubsetSize(Lost(cfg, s), IndicesOf(s, Unburied(s)));
    IndicesSize(s, Unburied(s));
  }

  ghost predicate WholeProduct(cfg: Config, s: Sys)
    requires cfg.Valid()
  {
    s.phase == Finished && |s.c| == cfg.n * cfg.n && RightValues(cfg.n, s.c)
  }

  lemma CollectAll(cfg: Config, acts: seq<Action>, s: Sys, keys: seq<Key>) returns (rest: seq<Action>, r: Sys)
    requires cfg.Valid() && Safe(cfg) && cfg.n % TILE == 0 && Ready(cfg, s, keys)
    requires s == Run(cfg, INIT, acts) && keys == KeysAlong(cfg, INIT, [], acts)
    ensures Plain(rest) && r == Run(cfg, s, rest) && WholeProduct(cfg, r)
  {
    SafeMeansSeparate(cfg);
    InitOrdered(cfg);
    RunOrdered(cfg, INIT, [], acts);
    r := MasterFinishes(cfg, s, keys);
    rest := Parents(Left(cfg, s));
    CorrectIsRight(cfg, r.c);
  }

  lemma BeginsToCollect(cfg: Config, acts: seq<Action>) returns (s: Sys, keys: seq<Key>)
    requires cfg.Valid()
    requires Run(cfg, INIT, acts).phase == Watching(0) && PassesComplete(cfg, Run(cfg, INIT, acts))
    ensures s == Run(cfg, INIT, acts + [Parent]) && keys == KeysAlong(cfg, INIT, [], acts + [Parent])
    ensures Ready(cfg, s, keys)
  {
    var s0 := Run(cfg, INIT, acts);
    keys := KeysAlong(cfg, INIT, [], acts);
    RunFacts(cfg, acts);
    CollectionBegins(cfg, s0, keys);
    RunSnoc(cfg, acts, Parent);
    s := Step(cfg, s0, Parent);
  }

  lemma ParentThen(cfg: Config, acts: seq<Action>, rest: seq<Action>)
    requires cfg.Valid()
    ensures Run(cfg, INIT, acts + ([Parent] + rest)) == Run(cfg, Run(cfg, INIT, acts + [Parent]), rest)
    ensures Plain(rest) ==> Plain([Parent] + rest)
  {
    assert (acts + [Parent]) + rest == acts + ([Parent] + rest);
    RunConcat(cfg, INIT, [], acts + [Parent], rest);
  }

  lemma CollectAfterWait(cfg: Config, acts: seq<Action>) returns (rest: seq<Action>)
    requires cfg.Valid() && Safe(cfg) && cfg.n % TILE == 0
    requires Run(cfg, INIT, acts).phase == Watching(0) && PassesComplete(cfg, Run(cfg, INIT, acts))
    ensures Plain(rest) && WholeProduct(cfg, Run(cfg, INIT, acts + rest))
  {
    var s, keys := BeginsToCollect(cfg, acts);
    var r;
    rest, r := CollectAll(cfg, acts + [Parent], s, keys);
    ParentThen(cfg, acts, rest);
    rest := [Parent] + rest;
  }

  /** Deaths are survived: if the waiting parent still has a successor for every
      killed process that it has not waited for, then without further kills all
      passes are completed and the waiting ends; in a safe configuration of even N
      the run ends with the whole product. */
  lemma Recovery(cfg: Config, acts: seq<Action>) returns (more: seq<Action>, rest: seq<Action>)
    requires cfg.Valid() && cfg.program.MATRIX_C? && Run(cfg, INIT, acts).phase.Watching?
    requires var s := Run(cfg, INIT, acts); |Unburied(s)| <= s.phase.left || |Lost(cfg, s)| <= s.phase.left
    ensures Plain(more) && Plain(rest)
    ensures var r := Run(cfg, INIT, acts + more); PassesComplete(cfg, r) && r.phase == Watching(0)
    ensures Safe(cfg) && cfg.n % TILE == 0 ==>
              var r := Run(cfg, INIT, acts + more + rest);
              r.phase == Finished && |r.c| == cfg.n * cfg.n && RightValues(cfg.n, r.c)
  {
    more := PassesAndWaits(cfg, acts);
    rest := [];
    if Safe(cfg) && cfg.n % TILE == 0 {
      rest := CollectAfterWait(cfg, acts + more);
    }
  }

  lemma PassesAndWaits(cfg: Config, acts: seq<Action>) returns (more: seq<Action>)
    requires cfg.Valid() && cfg.program.MATRIX_C? && Run(cfg, INIT, acts).phase.Watching?
    requires var s := Run(cfg, INIT, acts); |Unburied(s)| <= s.phase.left || |Lost(cfg, s)| <= s.phase.left
    ensures Plain(more)
    ensures var r := Run(cfg, INIT, acts + more); PassesComplete(cfg, r) && r.phase == Watching(0)
  {
    var s, keys := Run(cfg, INIT, acts), KeysAlong(cfg, INIT, [], acts);
    RunWatched(cfg, acts);
    LostAreUnburied(cfg, s, keys);
    var first, mid, keys1 := CompletePasses(cfg, s, keys);
    var second, r, keys2 := WaitOut(cfg, mid, keys1);
    more := first + second;
    RunConcat(cfg, s, keys, first, second);
    RunConcat(cfg, INIT, [], acts, more);
  }
}
