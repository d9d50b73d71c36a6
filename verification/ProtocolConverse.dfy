/** In every other configuration the master can store a wrong value: a run without
    any kill, timeout or failed call-back, in which every worker completes its
    pass. */
module ProtocolConverse {
  import opened TupleSpace
  import opened Waiting
  import opened ServerInvariants
  import opened Keys
  import opened Naturals
  import opened Tiling
  import opened Products
  import opened MatrixProtocol
  import opened KeyedSpace
  import opened ProtocolBase
  import opened ProtocolOrder
  import opened ProtocolTheorems
  import opened KeyCount

  // ----- putting runs together -----

  lemma {:induction false} RunConcat(cfg: Config, s: Sys, keys: seq<Key>, xs: seq<Action>, ys: seq<Action>)
    requires cfg.Valid()
    ensures Run(cfg, s, xs + ys) == Run(cfg, Run(cfg, s, xs), ys)
    ensures KeysAlong(cfg, s, keys, xs + ys) == KeysAlong(cfg, Run(cfg, s, xs), KeysAlong(cfg, s, keys, xs), ys)
    decreases |xs|
  {
    if xs == [] {
      assert xs + ys == ys;
    } else {
      assert (xs + ys)[1..] == xs[1..] + ys;
      RunConcat(cfg, Step(cfg, s, xs[0]), KeysAfter(cfg, s, keys, xs[0]), xs[1..], ys);
    }
  }

  lemma RunCons(cfg: Config, s: Sys, keys: seq<Key>, a: Action, ys: seq<Action>)
    requires cfg.Valid()
    ensures Run(cfg, s, [a] + ys) == Run(cfg, Step(cfg, s, a), ys)
    ensures KeysAlong(cfg, s, keys, [a] + ys) == KeysAlong(cfg, Step(cfg, s, a), KeysAfter(cfg, s, keys, a), ys)
  {
    assert ([a] + ys)[1..] == ys;
  }

  predicate Harmless(a: Action) {
    a.Parent? || a.Reap? || (a.Advance? && Outcome(a.sends, 0))
  }

  /** Schedules in which nothing goes wrong: no kill, no timeout, no failed call-back. */
  predicate Plain(acts: seq<Action>) {
    forall i | 0 <= i < |acts| :: Harmless(acts[i])
  }

  lemma PlainDelivered(acts: seq<Action>)
    requires Plain(acts)
    ensures Delivered(acts)
  {
    forall i | 0 <= i < |acts|
      ensures CallsBack(acts[i])
    {
      assert Harmless(acts[i]);
    }
  }

  // ----- the parent up to the forks -----

  lemma {:induction false} PublishAll(cfg: Config, s: Sys, keys: seq<Key>) returns (acts: seq<Action>)
    requires cfg.Valid() && Base(cfg, s, keys) && s.phase.Publishing?
    ensures Plain(acts)
    ensures var r := Run(cfg, s, acts); r.phase == Forking(0) && r.workers == []
    ensures KeysAlong(cfg, s, keys, acts) == Initial(cfg)
    decreases 2 * cfg.Square() - s.phase.next
  {
    var p, r := s.phase.next, Step(cfg, s, Parent);
    StepBase(cfg, s, keys, Parent);
    var rest: seq<Action> := [];
    if p < 2 * cfg.Square() {
      rest := PublishAll(cfg, r, KeysAfter(cfg, s, keys, Parent));
    } else {
      assert keys == Initial(cfg);
    }
    acts := [Parent] + rest;
    RunCons(cfg, s, keys, Parent, rest);
  }

  function Fresh(m: nat): seq<Worker> {
    seq(m, i requires 0 <= i < m => NewWorker(i))
  }

  lemma {:induction false} ForkAll(cfg: Config, s: Sys, keys: seq<Key>) returns (acts: seq<Action>)
    requires cfg.Valid() && s.phase.Forking? && s.phase.next <= cfg.workers && s.workers == Fresh(s.phase.next)
    ensures Plain(acts)
    ensures var r := Run(cfg, s, acts); r.phase == Watching(cfg.workers) && r.workers == Fresh(cfg.workers)
    ensures KeysAlong(cfg, s, keys, acts) == keys
    decreases cfg.workers - s.phase.next
  {
    var m, r := s.phase.next, Step(cfg, s, Parent);
    var rest: seq<Action> := [];
    if m < cfg.workers {
      assert Fresh(m + 1) == Fresh(m) + [NewWorker(m)];
      rest := ForkAll(cfg, r, keys);
    }
    acts := [Parent] + rest;
    RunCons(cfg, s, keys, Parent, rest);
  }

  // ----- one worker from its start to its exit -----

  /** All new keys are results of worker w. */
  ghost predicate Extends(cfg: Config, keys: seq<Key>, keys': seq<Key>, w: nat)
    requires cfg.Valid()
  {
    && keys <= keys'
    && forall p | |keys| <= p < |keys'| :: keys'[p].kind == 'C' && cfg.G().Owner(Cell(keys'[p].i, keys'[p].j)) == w
  }

  /** An upper bound on the turns a worker has left, and what is left of a turn. */
  function TurnBound(cfg: Config): nat
    requires cfg.Valid()
  {
    Times(Times(cfg.G().Blocks(), cfg.G().Blocks()), cfg.G().Area())
  }

  lemma {:induction false} TimesAtLeast(q: nat, d: nat)
    requires d >= 1
    ensures Times(q, d) >= q
  {
    if q > 0 { TimesAtLeast(q - 1, d); }
  }

  lemma TurnBounded(cfg: Config, w: nat, t: nat)
    requires cfg.Valid() && cfg.G().HasCell(w, t)
    ensures t < TurnBound(cfg)
  {
    var g := cfg.G();
    TimesAtLeast(Quot(t, g.Area()), g.workers);
    Unpair(t, g.Area());
    PairBelow(Quot(t, g.Area()), Rem(t, g.Area()), g.Area(), Times(g.Blocks(), g.Blocks()));
  }

  function TurnsLeft(cfg: Config, w: Worker): nat
    requires cfg.Valid()
  {
    if w.turn < TurnBound(cfg) then TurnBound(cfg) - w.turn else 0
  }

  function RoundsLeft(cfg: Config, w: Worker): nat {
    if w.k < cfg.n then 2 * (cfg.n - w.k) + (if w.a.None? then 1 else 0) else 0
  }

  /** One exchange of a running worker before collection: it comes closer to its
      end, and lists at most the cell it was at. */
  ghost predicate Advanced(cfg: Config, s: Sys, keys: seq<Key>, k: nat, r: Sys, keys': seq<Key>)
    requires cfg.Valid() && k < |s.workers|
  {
    && r.phase == s.phase && |r.workers| == |s.workers|
    && r.workers == s.workers[k := r.workers[k]]
    && var w, w' := s.workers[k], r.workers[k];
    && w'.index == w.index && w'.reaped == w.reaped
    && Extends(cfg, keys, keys', w.index)
    && match NextCall(cfg, w)
       case None => w'.status.Exited? && keys' == keys
       case Some(ReadCall(_)) =>
         w'.status.Running? && w'.turn == w.turn && RoundsLeft(cfg, w') < RoundsLeft(cfg, w) && keys' == keys
       case Some(PutCall(_, _, _)) =>
         w'.status.Running? && w'.turn == w.turn + 1
  }

  lemma ExtendsWith(cfg: Config, keys: seq<Key>, w: nat, t: nat)
    requires cfg.Valid() && w < cfg.workers && cfg.G().HasCell(w, t)
    ensures var key := CKey(cfg.G().CellAt(w, t));
            Extends(cfg, keys, WithKey(keys, key), w) && key in WithKey(keys, key)
  {
    CellOfTurn(cfg.G(), w, t);
  }

  lemma ReadCloser(cfg: Config, w: Worker, key: Key, data: string)
    requires cfg.Valid() && WorkerOk(cfg, w) && NextCall(cfg, w) == Some(ReadCall(key))
    ensures var w' := AfterRead(w, data);
            w'.turn == w.turn && w'.index == w.index && w'.status == w.status && w'.reaped == w.reaped
            && RoundsLeft(cfg, w') < RoundsLeft(cfg, w)
  {
  }

  lemma ReadAdvanced(cfg: Config, s: Sys, keys: seq<Key>, k: nat, key: Key, r: Sys)
    requires cfg.Valid() && Base(cfg, s, keys)
    requires k < |s.workers| && s.workers[k].status.Running? && NextCall(cfg, s.workers[k]) == Some(ReadCall(key))
    requires exists data: string :: r.workers == s.workers[k := AfterRead(s.workers[k], data)]
    requires r.phase == s.phase
    ensures Advanced(cfg, s, keys, k, r, keys)
  {
    var data: string :| r.workers == s.workers[k := AfterRead(s.workers[k], data)];
    ReadCloser(cfg, s.workers[k], key, data);
  }

  lemma PutAdvanced(cfg: Config, s: Sys, keys: seq<Key>, k: nat, r: Sys, keys': seq<Key>)
    requires cfg.Valid() && Base(cfg, s, keys)
    requires k < |s.workers| && s.workers[k].status.Running?
    requires NextCall(cfg, s.workers[k]).Some? && NextCall(cfg, s.workers[k]).value.PutCall?
    requires r.workers == s.workers[k := AfterPut(s.workers[k])] && r.phase == s.phase
    requires keys' == WithKey(keys, CKey(cfg.G().CellAt(s.workers[k].index, s.workers[k].turn)))
    ensures Advanced(cfg, s, keys, k, r, keys')
  {
    ExtendsWith(cfg, keys, s.workers[k].index, s.workers[k].turn);
  }

  lemma OneAdvance(cfg: Config, s: Sys, keys: seq<Key>, k: nat)
    requires cfg.Valid() && Base(cfg, s, keys) && s.phase.Watching?
    requires k < |s.workers| && s.workers[k].status.Running?
    ensures Advanced(cfg, s, keys, k, Step(cfg, s, Advance(k, [true])), KeysAfter(cfg, s, keys, Advance(k, [true])))
  {
    var r := Step(cfg, s, Advance(k, [true]));
    match NextCall(cfg, s.workers[k])
    case None =>
    case Some(ReadCall(key)) =>
      AdvanceRead(cfg, s, keys, k, key, [true]);
      ReadAdvanced(cfg, s, keys, k, key, r);
    case Some(PutCall(_, _, _)) =>
      AdvancePut(cfg, s, keys, k, [true]);
      PutAdvanced(cfg, s, keys, k, r, KeysAfter(cfg, s, keys, Advance(k, [true])));
  }

  ghost predicate Ended(cfg: Config, s: Sys, keys: seq<Key>, k: nat, r: Sys, keys': seq<Key>)
    requires cfg.Valid() && k < |s.workers|
  {
    && r.phase == s.phase && |r.workers| == |s.workers|
    && r.workers == s.workers[k := r.workers[k]]
    && r.workers[k].index == s.workers[k].index && r.workers[k].reaped == s.workers[k].reaped
    && r.workers[k].status.Exited?
    && Extends(cfg, keys, keys', s.workers[k].index)
  }

  lemma EndLater(cfg: Config, s: Sys, keys: seq<Key>, k: nat, m: Sys, keys1: seq<Key>, r: Sys, keys2: seq<Key>)
    requires cfg.Valid() && k < |s.workers| && Advanced(cfg, s, keys, k, m, keys1) && NextCall(cfg, s.workers[k]).Some?
    requires Ended(cfg, m, keys1, k, r, keys2)
    ensures Ended(cfg, s, keys, k, r, keys2)
  {
    var w := s.workers[k];
    forall p | |keys| <= p < |keys2|
      ensures keys2[p].kind == 'C' && cfg.G().Owner(Cell(keys2[p].i, keys2[p].j)) == w.index
    {
      if p < |keys1| { assert keys2[p] == keys1[p]; }
    }
  }

  lemma AdvanceOnce(cfg: Config, s: Sys, keys: seq<Key>, k: nat) returns (m: Sys, keys1: seq<Key>)
    requires cfg.Valid() && Base(cfg, s, keys) && s.phase.Watching?
    requires k < |s.workers| && s.workers[k].status.Running?
    ensures m == Step(cfg, s, Advance(k, [true])) && keys1 == KeysAfter(cfg, s, keys, Advance(k, [true]))
    ensures Base(cfg, m, keys1) && Advanced(cfg, s, keys, k, m, keys1)
  {
    m, keys1 := Step(cfg, s, Advance(k, [true])), KeysAfter(cfg, s, keys, Advance(k, [true]));
    OneAdvance(cfg, s, keys, k);
    StepBase(cfg, s, keys, Advance(k, [true]));
  }

  lemma {:induction false} FinishWorker(cfg: Config, s: Sys, keys: seq<Key>, k: nat)
    returns (acts: seq<Action>, r: Sys, keys': seq<Key>)
    requires cfg.Valid() && Base(cfg, s, keys) && s.phase.Watching?
    requires k < |s.workers| && s.workers[k].status.Running?
    ensures Plain(acts) && r == Run(cfg, s, acts) && keys' == KeysAlong(cfg, s, keys, acts)
    ensures Ended(cfg, s, keys, k, r, keys') && Base(cfg, r, keys')
    decreases TurnsLeft(cfg, s.workers[k]), RoundsLeft(cfg, s.workers[k])
  {
    var m, keys1 := AdvanceOnce(cfg, s, keys, k);
    var rest: seq<Action> := [];
    r, keys' := m, keys1;
    if NextCall(cfg, s.workers[k]).Some? {
      TurnBounded(cfg, s.workers[k].index, s.workers[k].turn);
      rest, r, keys' := FinishWorker(cfg, m, keys1, k);
      EndLater(cfg, s, keys, k, m, keys1, r, keys');
    }
    acts := [Advance(k, [true])] + rest;
    RunCons(cfg, s, keys, Advance(k, [true]), rest);
  }

  // ----- all workers, one after the other -----

  /** The first incarnations: none reaped, each running or done. */
  predicate FirstOnes(cfg: Config, s: Sys, exited: nat) {
    && s.phase == Watching(cfg.workers) && |s.workers| == cfg.workers
    && forall k | 0 <= k < |s.workers| ::
         && s.workers[k].index == k && !s.workers[k].reaped
         && (s.workers[k].status.Running? || s.workers[k].status.Exited?)
         && (k < exited ==> s.workers[k].status.Exited?)
  }

  lemma OneMoreExited(cfg: Config, s: Sys, keys: seq<Key>, m: nat, r: Sys, keys': seq<Key>)
    requires cfg.Valid() && FirstOnes(cfg, s, m) && m < cfg.workers && Ended(cfg, s, keys, m, r, keys')
    ensures FirstOnes(cfg, r, m + 1) && keys <= keys'
  {
  }

  lemma {:induction false} FinishFrom(cfg: Config, s: Sys, keys: seq<Key>, m: nat) returns (acts: seq<Action>)
    requires cfg.Valid() && Base(cfg, s, keys) && FirstOnes(cfg, s, m) && m <= cfg.workers
    ensures Plain(acts)
    ensures FirstOnes(cfg, Run(cfg, s, acts), cfg.workers)
    ensures keys <= KeysAlong(cfg, s, keys, acts)
    decreases cfg.workers - m
  {
    acts := [];
    if m < cfg.workers {
      if s.workers[m].status.Exited? {
        acts := FinishFrom(cfg, s, keys, m + 1);
      } else {
        var first, r, keys' := FinishWorker(cfg, s, keys, m);
        OneMoreExited(cfg, s, keys, m, r, keys');
        var rest := FinishFrom(cfg, r, keys', m + 1);
        acts := first + rest;
        RunConcat(cfg, s, keys, first, rest);
      }
    }
  }

  lemma {:induction false} ReapAll(cfg: Config, s: Sys, keys: seq<Key>) returns (acts: seq<Action>)
    requires cfg.Valid() && s.phase.Watching? && s.phase.left <= cfg.workers <= |s.workers|
    requires forall k | cfg.workers - s.phase.left <= k < cfg.workers ::
               !s.workers[k].reaped && s.workers[k].status.Exited?
    ensures Plain(acts)
    ensures var r := Run(cfg, s, acts); r.phase == Watching(0) && r.server == s.server && r.c == s.c
    ensures KeysAlong(cfg, s, keys, acts) == keys
    decreases s.phase.left
  {
    acts := [];
    if s.phase.left > 0 {
      var a := Reap(cfg.workers - s.phase.left);
      var r := Step(cfg, s, a);
      var rest := ReapAll(cfg, r, keys);
      acts := [a] + rest;
      RunCons(cfg, s, keys, a, rest);
    }
  }

  // ----- what a run leads to -----

  lemma RunFacts(cfg: Config, acts: seq<Action>)
    requires cfg.Valid()
    ensures var s, keys := Run(cfg, INIT, acts), KeysAlong(cfg, INIT, [], acts);
            Base(cfg, s, keys) && (Early(s.phase) ==> Progress(cfg, s, keys))
  {
    InitOrdered(cfg);
    RunBase(cfg, INIT, [], acts);
    if Early(Run(cfg, INIT, acts).phase) { RunOrdered(cfg, INIT, [], acts); }
  }

  // ----- from the last exit to the collection -----

  predicate HasExited(s: Sys, k: nat, index: nat) {
    k < |s.workers| && s.workers[k].index == index && s.workers[k].status.Exited?
  }

  lemma ExitedStaysOnce(cfg: Config, s: Sys, a: Action, k: nat, index: nat)
    requires cfg.Valid() && HasExited(s, k, index)
    ensures HasExited(Step(cfg, s, a), k, index)
  {
  }

  lemma {:induction false} ExitedStays(cfg: Config, s: Sys, acts: seq<Action>, k: nat, index: nat)
    requires cfg.Valid() && HasExited(s, k, index)
    ensures HasExited(Run(cfg, s, acts), k, index)
    decreases |acts|
  {
    if acts != [] {
      ExitedStaysOnce(cfg, s, acts[0], k, index);
      ExitedStays(cfg, Step(cfg, s, acts[0]), acts[1..], k, index);
    }
  }

  lemma PassesAfter(cfg: Config, s: Sys, acts: seq<Action>)
    requires cfg.Valid() && FirstOnes(cfg, s, cfg.workers)
    ensures PassesComplete(cfg, Run(cfg, s, acts))
  {
    var r := Run(cfg, s, acts);
    forall w: nat | w < cfg.workers
      ensures HasPassed(r, w)
    {
      ExitedStays(cfg, s, acts, w, w);
      assert r.workers[w].index == w;
    }
  }

  /** Collection is about to begin, with every pass complete and this list. */
  ghost predicate Ready(cfg: Config, s: Sys, keys: seq<Key>)
    requires cfg.Valid()
  {
    && s.phase == Collecting(false) && s.c == []
    && Base(cfg, s, keys) && Progress(cfg, s, keys) && PassesComplete(cfg, s)
  }

  lemma CollectionBegins(cfg: Config, s: Sys, keys: seq<Key>)
    requires cfg.Valid() && Base(cfg, s, keys) && Progress(cfg, s, keys) && PassesComplete(cfg, s)
    requires s.phase == Watching(0)
    ensures Ready(cfg, Step(cfg, s, Parent), keys) && KeysAfter(cfg, s, keys, Parent) == keys
  {
    var r := Step(cfg, s, Parent);
    assert r == s.(phase := Collecting(false));
    ParentBase(cfg, s, keys);
    SamePasses(cfg, s, r);
  }

  lemma AllReapedFacts(cfg: Config, first: seq<Action>) returns (acts: seq<Action>, m: Sys, keys: seq<Key>)
    requires cfg.Valid() && Plain(first) && FirstOnes(cfg, Run(cfg, INIT, first), cfg.workers)
    ensures Plain(acts) && m == Run(cfg, INIT, acts) && m.phase == Watching(0) && PassesComplete(cfg, m)
    ensures keys == KeysAlong(cfg, INIT, [], acts) == KeysAlong(cfg, INIT, [], first)
  {
    var s := Run(cfg, INIT, first);
    keys := KeysAlong(cfg, INIT, [], first);
    var reaps := ReapAll(cfg, s, keys);
    RunConcat(cfg, INIT, [], first, reaps);
    PassesAfter(cfg, s, reaps);
    acts := first + reaps;
    m := Run(cfg, s, reaps);
  }

  lemma RunSnoc(cfg: Config, acts: seq<Action>, a: Action)
    requires cfg.Valid()
    ensures Run(cfg, INIT, acts + [a]) == Step(cfg, Run(cfg, INIT, acts), a)
    ensures KeysAlong(cfg, INIT, [], acts + [a]) == KeysAfter(cfg, Run(cfg, INIT, acts), KeysAlong(cfg, INIT, [], acts), a)
  {
    RunConcat(cfg, INIT, [], acts, [a]);
    RunCons(cfg, Run(cfg, INIT, acts), KeysAlong(cfg, INIT, [], acts), a, []);
  }

  /** When all workers have exited the parent reaps them and begins to collect. */
  lemma ReapAndCollect(cfg: Config, first: seq<Action>) returns (acts: seq<Action>)
    requires cfg.Valid() && Plain(first) && FirstOnes(cfg, Run(cfg, INIT, first), cfg.workers)
    ensures Plain(acts)
    ensures KeysAlong(cfg, INIT, [], acts) == KeysAlong(cfg, INIT, [], first)
    ensures Ready(cfg, Run(cfg, INIT, acts), KeysAlong(cfg, INIT, [], acts))
  {
    var most, m, keys := AllReapedFacts(cfg, first);
    RunFacts(cfg, most);
    CollectionBegins(cfg, m, keys);
    RunSnoc(cfg, most, Parent);
    acts := most + [Parent];
  }

  // ----- the bad run, stage by stage -----

  lemma AllForked(cfg: Config) returns (acts: seq<Action>)
    requires cfg.Valid()
    ensures Plain(acts)
    ensures var s := Run(cfg, INIT, acts); s.phase == Watching(cfg.workers) && s.workers == Fresh(cfg.workers)
    ensures KeysAlong(cfg, INIT, [], acts) == Initial(cfg)
  {
    InitBase(cfg);
    var first := PublishAll(cfg, INIT, []);
    var rest := ForkAll(cfg, Run(cfg, INIT, first), Initial(cfg));
    acts := first + rest;
    RunConcat(cfg, INIT, [], first, rest);
  }

  lemma OneEnded(cfg: Config, s: Sys, keys: seq<Key>, w: nat, r: Sys, keys': seq<Key>)
    requires cfg.Valid() && w < cfg.workers && s.phase == Watching(cfg.workers) && s.workers == Fresh(cfg.workers)
    requires Ended(cfg, s, keys, w, r, keys')
    ensures FirstOnes(cfg, r, 0) && r.workers[w].status.Exited? && Extends(cfg, keys, keys', w)
  {
  }

  /** One worker runs first and alone. */
  lemma SoloFirst(cfg: Config, w: nat) returns (acts: seq<Action>)
    requires cfg.Valid() && w < cfg.workers
    ensures Plain(acts)
    ensures var r := Run(cfg, INIT, acts); FirstOnes(cfg, r, 0) && r.workers[w].status.Exited?
    ensures Extends(cfg, Initial(cfg), KeysAlong(cfg, INIT, [], acts), w)
  {
    var first := AllForked(cfg);
    RunFacts(cfg, first);
    var s := Run(cfg, INIT, first);
    var rest, r, keys := FinishWorker(cfg, s, Initial(cfg), w);
    OneEnded(cfg, s, Initial(cfg), w, r, keys);
    acts := first + rest;
    RunConcat(cfg, INIT, [], first, rest);
  }

  lemma TrapSet(cfg: Config) returns (acts: seq<Action>)
    requires cfg.Valid() && !Safe(cfg)
    ensures Plain(acts)
    ensures FirstOnes(cfg, Run(cfg, INIT, acts), 0)
    ensures var keys := KeysAlong(cfg, INIT, [], acts); CKey(Trap(cfg)) in keys && CKey(Cell(0, 1)) !in keys
  {
    TrapWorks(cfg);
    TurnOfCell(cfg.G(), Trap(cfg));
    var w := cfg.G().Owner(Trap(cfg));
    acts := SoloFirst(cfg, w);
    RunFacts(cfg, acts);
    TrapListed(cfg, Run(cfg, INIT, acts), KeysAlong(cfg, INIT, [], acts), w);
  }

  lemma TrapListed(cfg: Config, r: Sys, keys: seq<Key>, w: nat)
    requires cfg.Valid() && !Safe(cfg) && w == cfg.G().Owner(Trap(cfg)) && w < |r.workers|
    requires Base(cfg, r, keys) && Progress(cfg, r, keys) && Early(r.phase)
    requires r.workers[w].status.Exited? && r.workers[w].index == w
    requires Extends(cfg, Initial(cfg), keys, w)
    ensures CKey(Trap(cfg)) in keys && CKey(Cell(0, 1)) !in keys
  {
    TrapWorks(cfg);
    ExitPublishes(cfg, r, keys, w, Trap(cfg));
    forall p | 0 <= p < |keys|
      ensures keys[p] != CKey(Cell(0, 1))
    {
      if p < 2 * cfg.Square() {
        assert keys[p] == Initial(cfg)[p];
        KeyOfPlace(cfg, p);
      }
    }
  }

  /** All workers are done, and the trap is listed before the cell (0, 1). */
  lemma AllExited(cfg: Config) returns (acts: seq<Action>, front: seq<Key>)
    requires cfg.Valid() && !Safe(cfg)
    ensures Plain(acts)
    ensures FirstOnes(cfg, Run(cfg, INIT, acts), cfg.workers)
    ensures front <= KeysAlong(cfg, INIT, [], acts) && CKey(Trap(cfg)) in front && CKey(Cell(0, 1)) !in front
  {
    var first := TrapSet(cfg);
    RunFacts(cfg, first);
    front := KeysAlong(cfg, INIT, [], first);
    var rest := FinishFrom(cfg, Run(cfg, INIT, first), front, 0);
    acts := first + rest;
    RunConcat(cfg, INIT, [], first, rest);
  }

  lemma CornerListed(cfg: Config, s: Sys, keys: seq<Key>)
    requires cfg.Valid() && !Safe(cfg) && FirstOnes(cfg, s, cfg.workers)
    requires Base(cfg, s, keys) && Progress(cfg, s, keys)
    ensures CKey(Cell(0, 0)) in keys && CKey(Cell(0, 1)) in keys
  {
    TrapWorks(cfg);
    ExitPublishes(cfg, s, keys, 0, Cell(0, 0));
    ExitPublishes(cfg, s, keys, 0, Cell(0, 1));
  }

  /** All workers are done and reaped, and collection begins. */
  lemma AllReaped(cfg: Config) returns (acts: seq<Action>, front: seq<Key>)
    requires cfg.Valid() && !Safe(cfg)
    ensures Plain(acts)
    ensures var s, keys := Run(cfg, INIT, acts), KeysAlong(cfg, INIT, [], acts);
            && Ready(cfg, s, keys)
            && front <= keys && CKey(Trap(cfg)) in front && CKey(Cell(0, 1)) !in front
            && CKey(Cell(0, 0)) in keys && CKey(Cell(0, 1)) in keys
  {
    var first;
    first, front := AllExited(cfg);
    RunFacts(cfg, first);
    CornerListed(cfg, Run(cfg, INIT, first), KeysAlong(cfg, INIT, [], first));
    acts := ReapAndCollect(cfg, first);
  }

  // ----- two GETs -----

  lemma OneGet(cfg: Config, s: Sys, keys: seq<Key>)
    requires cfg.Valid() && Base(cfg, s, keys) && s.phase == Collecting(false) && |s.c| < cfg.Square()
    requires CKey(RowMajor(cfg.n, |s.c|)) in keys
    ensures var hit := FirstHit(keys, CKey(RowMajor(cfg.n, |s.c|)));
            var r := Step(cfg, s, Parent);
            && hit >= 0 && r.phase == Collecting(false)
            && r.c == s.c + [ValueOf(cfg.n, keys[hit])]
            && KeysAfter(cfg, s, keys, Parent) == Remove(keys, hit)
  {
    GetOutcomes(cfg, s, keys);
    var c := RowMajor(cfg.n, |s.c|);
    assert Confused(CKey(c), CKey(c));
  }

  lemma TwoCells(cfg: Config)
    requires cfg.Valid() && cfg.n >= 2
    ensures cfg.Square() >= 2 && RowMajor(cfg.n, 0) == Cell(0, 0) && RowMajor(cfg.n, 1) == Cell(0, 1)
  {
    TimesIsMul(cfg.n, cfg.n);
    assert cfg.n * cfg.n >= 2 * cfg.n;
  }

  /** A search for (0, 1) over a list with the trap in front gives another cell. */
  lemma WrongCell(cfg: Config, keys: seq<Key>, front: seq<Key>)
    requires cfg.Valid() && !Safe(cfg) && front <= keys && CKey(Trap(cfg)) in front && CKey(Cell(0, 1)) !in front
    ensures var hit := FirstHit(keys, CKey(Cell(0, 1)));
            hit >= 0 && ValueOf(cfg.n, keys[hit]) != Product(cfg.n, 0, 1)
  {
    TrapWorks(cfg);
    var a := Cell(0, 1);
    var p :| 0 <= p < |front| && front[p] == CKey(Trap(cfg));
    var hit := FirstHit(keys, CKey(a));
    assert keys[p] == front[p] && 0 <= hit <= p && keys[hit] == front[hit];
    ConfusedColumns(CKey(a), keys[hit]);
    ColumnsDiffer(cfg.n, 0, 1, keys[hit].j);
  }

  lemma FrontAfterRemove(keys: seq<Key>, front: seq<Key>, hit: nat, key: Key)
    requires front <= keys && hit < |keys| && key in front && key != keys[hit]
    ensures var front' := if hit < |front| then Remove(front, hit) else front;
            front' <= Remove(keys, hit) && key in front' && forall k | k in front' :: k in front
  {
    var front' := if hit < |front| then Remove(front, hit) else front;
    var left := Remove(keys, hit);
    assert forall i | 0 <= i < |front'| :: left[i] == front'[i];
    assert front' == left[..|front'|];
    if hit < |front| { InRemove(front, hit, key); }
  }

  lemma FirstGetLeavesTrap(cfg: Config, keys: seq<Key>, front: seq<Key>) returns (front': seq<Key>)
    requires cfg.Valid() && !Safe(cfg) && front <= keys && CKey(Trap(cfg)) in front && CKey(Cell(0, 1)) !in front
    requires CKey(Cell(0, 0)) in keys && CKey(Cell(0, 1)) in keys
    requires FirstHit(keys, CKey(Cell(0, 0))) >= 0
    ensures var keys' := Remove(keys, FirstHit(keys, CKey(Cell(0, 0))));
            front' <= keys' && CKey(Trap(cfg)) in front' && CKey(Cell(0, 1)) !in front' && CKey(Cell(0, 1)) in keys'
  {
    var hit := FirstHit(keys, CKey(Cell(0, 0)));
    ConfusedColumns(CKey(Cell(0, 0)), keys[hit]);
    FrontAfterRemove(keys, front, hit, CKey(Trap(cfg)));
    InRemove(keys, hit, CKey(Cell(0, 1)));
    front' := if hit < |front| then Remove(front, hit) else front;
  }

  lemma SecondGet(cfg: Config, s: Sys, keys: seq<Key>, front: seq<Key>)
    requires cfg.Valid() && !Safe(cfg) && Base(cfg, s, keys) && s.phase == Collecting(false) && |s.c| == 1
    requires front <= keys && CKey(Trap(cfg)) in front && CKey(Cell(0, 1)) !in front && CKey(Cell(0, 1)) in keys
    ensures var r, keys' := Step(cfg, s, Parent), KeysAfter(cfg, s, keys, Parent);
            && |r.c| == 2 && r.c[1] != Product(cfg.n, 0, 1) && r.phase == Collecting(false)
            && CKey(Cell(0, 1)) in keys' && |keys'| == |keys| - 1
  {
    TwoCells(cfg);
    OneGet(cfg, s, keys);
    WrongCell(cfg, keys, front);
    InRemove(keys, FirstHit(keys, CKey(Cell(0, 1))), CKey(Cell(0, 1)));
  }

  lemma RunTwo(cfg: Config, s: Sys, keys: seq<Key>)
    requires cfg.Valid()
    ensures Run(cfg, s, [Parent, Parent]) == Step(cfg, Step(cfg, s, Parent), Parent)
    ensures KeysAlong(cfg, s, keys, [Parent, Parent])
            == KeysAfter(cfg, Step(cfg, s, Parent), KeysAfter(cfg, s, keys, Parent), Parent)
  {
    assert [Parent, Parent] == [Parent] + [Parent];
    RunCons(cfg, s, keys, Parent, [Parent]);
    RunCons(cfg, Step(cfg, s, Parent), KeysAfter(cfg, s, keys, Parent), Parent, []);
  }

  /** The second cell is wrong, and the tuple of the cell (0, 1) is left over. */
  ghost predicate GoneWrong(cfg: Config, r: Sys, keys: seq<Key>) {
    && |r.c| == 2 && r.c[1] != Product(cfg.n, 0, 1) && r.phase == Collecting(false)
    && CKey(Cell(0, 1)) in keys && |keys| + 2 <= 3 * cfg.Square()
  }

  lemma TwoGets(cfg: Config, s: Sys, keys: seq<Key>, front: seq<Key>)
    requires cfg.Valid() && !Safe(cfg) && Base(cfg, s, keys) && s.phase == Collecting(false) && s.c == []
    requires front <= keys && CKey(Trap(cfg)) in front && CKey(Cell(0, 1)) !in front
    requires CKey(Cell(0, 0)) in keys && CKey(Cell(0, 1)) in keys
    ensures GoneWrong(cfg, Run(cfg, s, [Parent, Parent]), KeysAlong(cfg, s, keys, [Parent, Parent]))
  {
    TwoCells(cfg);
    KeysBounded(cfg, s, keys);
    OneGet(cfg, s, keys);
    StepBase(cfg, s, keys, Parent);
    var front' := FirstGetLeavesTrap(cfg, keys, front);
    SecondGet(cfg, Step(cfg, s, Parent), KeysAfter(cfg, s, keys, Parent), front');
    RunTwo(cfg, s, keys);
  }

  lemma BadRun(cfg: Config) returns (first: seq<Action>)
    requires cfg.Valid() && !Safe(cfg)
    ensures Plain(first) && Ready(cfg, Run(cfg, INIT, first), KeysAlong(cfg, INIT, [], first))
    ensures var acts := first + [Parent, Parent];
            GoneWrong(cfg, Run(cfg, INIT, acts), KeysAlong(cfg, INIT, [], acts))
  {
    var front;
    first, front := AllReaped(cfg);
    TwoGets(cfg, Run(cfg, INIT, first), KeysAlong(cfg, INIT, [], first), front);
    RunConcat(cfg, INIT, [], first, [Parent, Parent]);
  }

  lemma WrongSecond(cfg: Config, c: seq<int>)
    requires cfg.Valid() && cfg.n >= 2 && |c| == 2 && c[1] != Product(cfg.n, 0, 1)
    ensures !RightValues(cfg.n, c)
  {
    assert 1 / cfg.n == 0 && 1 % cfg.n == 1;
  }

  /** In every unsafe configuration, of either program, there is a run without any
      fault in which the master stores a wrong value for the cell (0, 1). */
  lemma WrongResult(cfg: Config) returns (acts: seq<Action>)
    requires cfg.Valid() && !Safe(cfg)
    ensures Plain(acts) && Delivered(acts)
    ensures var s := Run(cfg, INIT, acts); |s.c| == 2 && s.c[1] != Product(cfg.n, 0, 1) && !RightValues(cfg.n, s.c)
  {
    var first := BadRun(cfg);
    acts := first + [Parent, Parent];
    PlainDelivered(acts);
    WrongSecond(cfg, Run(cfg, INIT, acts).c);
  }

  /** The master stores only right values, in all runs, exactly in the safe
      configurations. */
  lemma SafetyIff(cfg: Config)
    requires cfg.Valid()
    ensures Safe(cfg) <==> forall acts: seq<Action> :: RightValues(cfg.n, Run(cfg, INIT, acts).c)
  {
    if Safe(cfg) {
      forall acts: seq<Action>
        ensures RightValues(cfg.n, Run(cfg, INIT, acts).c)
      {
        Safety(cfg, acts);
      }
    } else {
      var acts := WrongResult(cfg);
    }
  }
}
