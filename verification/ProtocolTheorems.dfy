/** The results about whole runs of the two programs. */
module ProtocolTheorems {
  import opened TupleSpace
  import opened Waiting
  import opened ServerInvariants
  import opened Keys
  import opened Naturals
  import opened Tiling
  import opened Products
  import opened MatrixProtocol
  import opened KeyedSpace
  import opened ProtocolBase
  import opened ProtocolOrder

  // ----- which sizes and numbers of workers are safe -----

  /** What a caller can check: few columns, or one worker, or the one lucky case. */
  predicate Safe(cfg: Config) {
    cfg.n <= 11 || cfg.workers == 1 || (cfg.workers == 5 && cfg.n <= 13)
  }

  lemma SideOfSquare(cfg: Config)
    requires cfg.Valid()
    ensures cfg.G().Blocks() == cfg.n / 2 && Times(cfg.G().Blocks(), TILE) == cfg.n / 2 * 2
  {
    QuotRemIsDivMod(cfg.n, TILE);
    TimesIsMul(cfg.n / 2, TILE);
  }

  lemma OwnerByColumn(cfg: Config, c: Cell)
    requires cfg.Valid()
    ensures cfg.G().Owner(c) == Rem(Times(Quot(c.i, TILE), cfg.G().Blocks()) + c.j / 2, cfg.workers)
  {
    QuotRemIsDivMod(c.j, TILE);
  }

  lemma SafeMeansSeparate(cfg: Config)
    requires cfg.Valid() && Safe(cfg)
    ensures Separate(cfg)
  {
    SideOfSquare(cfg);
    forall a: Cell, b: Cell | cfg.G().InSquare(a) && cfg.G().InSquare(b) && Confused(CKey(a), CKey(b))
      ensures cfg.G().Owner(a) == cfg.G().Owner(b)
    {
      ConfusedColumns(CKey(a), CKey(b));
      if a != b && cfg.workers == 5 {
        OwnerByColumn(cfg, a);
        OwnerByColumn(cfg, b);
      }
    }
  }

  /** In an unsafe configuration the cell (0, 1) of worker 0 is confused with this
      cell of another worker. */
  function Trap(cfg: Config): Cell {
    if cfg.workers == 5 then Cell(0, 12) else Cell(0, 10)
  }

  lemma TrapWorks(cfg: Config)
    requires cfg.Valid() && !Safe(cfg)
    ensures var a, b := Cell(0, 1), Trap(cfg);
            && cfg.G().InSquare(a) && cfg.G().InSquare(b) && Confused(CKey(a), CKey(b))
            && cfg.G().Owner(Cell(0, 0)) == 0 && cfg.G().Owner(a) == 0 && cfg.G().Owner(b) > 0
  {
    SideOfSquare(cfg);
    OwnerByColumn(cfg, Cell(0, 0));
    OwnerByColumn(cfg, Cell(0, 1));
    OwnerByColumn(cfg, Trap(cfg));
    OneIsPrefix(Trap(cfg).j);
    if cfg.workers < 5 { assert Rem(5, cfg.workers) > 0; }
  }

  lemma SafeIffSeparate(cfg: Config)
    requires cfg.Valid()
    ensures Safe(cfg) <==> Separate(cfg)
  {
    if Safe(cfg) { SafeMeansSeparate(cfg); } else { TrapWorks(cfg); }
  }

  // ----- safety -----

  lemma InitOrdered(cfg: Config)
    requires cfg.Valid()
    ensures Base(cfg, INIT, []) && Ordered(cfg, INIT, [])
  {
    InitBase(cfg);
  }

  /** In a safe configuration every value the master ever stores is the inner
      product of its row and column: for every interleaving and every pattern of
      kills, timeouts, late requests, failed call-backs and respawns. */
  lemma Safety(cfg: Config, acts: seq<Action>)
    requires cfg.Valid() && Safe(cfg)
    ensures var s := Run(cfg, INIT, acts); |s.c| <= cfg.n * cfg.n && RightValues(cfg.n, s.c)
  {
    SafeMeansSeparate(cfg);
    InitOrdered(cfg);
    RunBase(cfg, INIT, [], acts);
    RunOrdered(cfg, INIT, [], acts);
    CorrectIsRight(cfg, Run(cfg, INIT, acts).c);
  }

  /** For every size and number of workers: once A and B are published, a READ of
      one of their cells returns exactly that cell's numeral, ended by a NUL,
      whatever else happens. */
  lemma ReadsAreExact(cfg: Config, acts: seq<Action>, key: Key)
    requires cfg.Valid() && InputKey(cfg, key) && !Run(cfg, INIT, acts).phase.Publishing?
    ensures var reply := GetReply(SEARCH, Run(cfg, INIT, acts).server, Name(key), 0, true, ALL_OK);
            && reply == Present(Name(key), PRIORITY, Format(ValueOf(cfg.n, key)) + "\0")
            && Atoi(reply.data) == ValueOf(cfg.n, key)
  {
    InitBase(cfg);
    RunBase(cfg, INIT, [], acts);
    ReadExact(cfg, Run(cfg, INIT, acts), KeysAlong(cfg, INIT, [], acts), key, ALL_OK);
  }

  /** For every size and number of workers: no worker is ever stuck in a READ, and
      a result that is listed is the right numeral, ended by a NUL. */
  lemma ResultsAreRight(cfg: Config, acts: seq<Action>)
    requires cfg.Valid()
    ensures var s := Run(cfg, INIT, acts);
            && (forall k | 0 <= k < |s.workers| :: !s.workers[k].status.Blocked?)
            && (forall p, c: Cell | 0 <= p < |s.server.space| && s.server.space[p].name == Name(CKey(c)) ::
                  && s.server.space[p].data == Format(Product(cfg.n, c.i, c.j)) + "\0"
                  && Atoi(s.server.space[p].data) == Product(cfg.n, c.i, c.j))
  {
    InitBase(cfg);
    RunBase(cfg, INIT, [], acts);
    var s, keys := Run(cfg, INIT, acts), KeysAlong(cfg, INIT, [], acts);
    forall p, c: Cell | 0 <= p < |s.server.space| && s.server.space[p].name == Name(CKey(c))
      ensures s.server.space[p].data == Format(Product(cfg.n, c.i, c.j)) + "\0"
      ensures Atoi(s.server.space[p].data) == Product(cfg.n, c.i, c.j)
    {
      assert Shown(cfg.n, s.server.space[p], keys[p]);
      NameInjective(keys[p], CKey(c));
      DecodeEncoded(Product(cfg.n, c.i, c.j));
    }
  }

  // ----- completeness -----

  /** Every index has had one complete pass. */
  ghost predicate PassesComplete(cfg: Config, s: Sys) {
    forall w: nat | w < cfg.workers :: HasPassed(s, w)
  }

  predicate HasPassed(s: Sys, w: nat) {
    exists k | 0 <= k < |s.workers| :: s.workers[k].index == w && s.workers[k].status.Exited?
  }

  /** A process that has exited has published every result of its index. */
  lemma ExitPublishes(cfg: Config, s: Sys, keys: seq<Key>, k: nat, c: Cell)
    requires cfg.Valid() && Base(cfg, s, keys) && Progress(cfg, s, keys) && cfg.G().InSquare(c)
    requires k < |s.workers| && s.workers[k].status.Exited? && s.workers[k].index == cfg.G().Owner(c)
    ensures Published(cfg, |s.c|, keys, c)
  {
    var g := cfg.G();
    TurnOfCell(g, c);
    var w, t := g.Owner(c), g.Turn(c);
    assert WorkerOk(cfg, s.workers[k]);
    if s.workers[k].turn <= t { NoMoreCells(g, w, s.workers[k].turn, t); }
    assert PublishedTurn(cfg, |s.c|, keys, w, t);
  }

  lemma PassPublishes(cfg: Config, s: Sys, keys: seq<Key>, c: Cell)
    requires cfg.Valid() && Base(cfg, s, keys) && Progress(cfg, s, keys) && PassesComplete(cfg, s) && cfg.G().InSquare(c)
    ensures Published(cfg, |s.c|, keys, c)
  {
    TurnOfCell(cfg.G(), c);
    var w := cfg.G().Owner(c);
    assert HasPassed(s, w);
    var k :| 0 <= k < |s.workers| && s.workers[k].index == w && s.workers[k].status.Exited?;
    ExitPublishes(cfg, s, keys, k, c);
  }

  lemma WholeSquare(cfg: Config, p: nat)
    requires cfg.Valid() && cfg.n % TILE == 0 && p < cfg.Square()
    ensures cfg.G().InSquare(RowMajor(cfg.n, p))
  {
    SquareIsWhole(cfg.G());
    QuotBelow(p, cfg.n, cfg.n);
  }

  lemma NextIsListed(cfg: Config, s: Sys, keys: seq<Key>)
    requires cfg.Valid() && cfg.n % TILE == 0 && |s.c| < cfg.Square()
    requires Base(cfg, s, keys) && Progress(cfg, s, keys) && PassesComplete(cfg, s)
    ensures CKey(RowMajor(cfg.n, |s.c|)) in keys
    ensures FirstHit(keys, CKey(RowMajor(cfg.n, |s.c|))) >= 0
  {
    var c := RowMajor(cfg.n, |s.c|);
    WholeSquare(cfg, |s.c|);
    PassPublishes(cfg, s, keys, c);
    RankOfRowMajor(cfg, |s.c|);
    assert Confused(CKey(c), CKey(c));
  }

  /** With every result published, the next GET is answered at once. */
  lemma MasterProceeds(cfg: Config, s: Sys, keys: seq<Key>)
    requires cfg.Valid() && cfg.n % TILE == 0
    requires Base(cfg, s, keys) && Progress(cfg, s, keys) && PassesComplete(cfg, s)
    requires s.phase == Collecting(false) && |s.c| < cfg.Square()
    ensures var r := ParentStep(cfg, s); r.phase == Collecting(false) && |r.c| == |s.c| + 1 && r.workers == s.workers
  {
    NextIsListed(cfg, s, keys);
    GetOutcomes(cfg, s, keys);
  }

  function Parents(m: nat): seq<Action> {
    seq(m, i => Parent)
  }

  /** The steps the master still has to make. */
  function Left(cfg: Config, s: Sys): nat {
    if |s.c| <= cfg.Square() then cfg.Square() - |s.c| + 1 else 0
  }

  lemma RunParents(cfg: Config, s: Sys, m: nat)
    requires cfg.Valid() && m > 0
    ensures Run(cfg, s, Parents(m)) == Run(cfg, ParentStep(cfg, s), Parents(m - 1))
  {
    assert Parents(m)[1..] == Parents(m - 1);
    assert Step(cfg, s, Parent) == ParentStep(cfg, s);
  }

  lemma RunNoParents(cfg: Config, s: Sys)
    requires cfg.Valid()
    ensures Run(cfg, s, Parents(0)) == s
  {
    assert Parents(0) == [];
  }

  lemma SamePasses(cfg: Config, s: Sys, r: Sys)
    requires PassesComplete(cfg, s) && r.workers == s.workers
    ensures PassesComplete(cfg, r)
  {
    forall w: nat | w < cfg.workers
      ensures HasPassed(r, w)
    {
      assert HasPassed(s, w);
    }
  }

  /** The master stores what it asks for, and the order of the list is kept. */
  lemma MasterOrdered(cfg: Config, s: Sys, keys: seq<Key>)
    requires cfg.Valid() && Base(cfg, s, keys) && s.phase == Collecting(false) && |s.c| < cfg.Square()
    requires Progress(cfg, s, keys) && Sorted(cfg, |s.c|, keys) && Correct(cfg, s.c)
    ensures var r, keys' := ParentStep(cfg, s), KeysAfter(cfg, s, keys, Parent);
            Base(cfg, r, keys') && Progress(cfg, r, keys') && Sorted(cfg, |r.c|, keys') && Correct(cfg, r.c)
  {
    ParentBase(cfg, s, keys);
    GetOutcomes(cfg, s, keys);
    GetOrdered(cfg, s, keys, ServeGet(cfg, s));
  }

  /** All that the master needs to go on to the end. */
  ghost predicate Collectable(cfg: Config, s: Sys, keys: seq<Key>)
    requires cfg.Valid()
  {
    && s.phase == Collecting(false) && Base(cfg, s, keys) && PassesComplete(cfg, s)
    && Progress(cfg, s, keys) && Sorted(cfg, |s.c|, keys) && Correct(cfg, s.c)
  }

  lemma MasterKeeps(cfg: Config, s: Sys, keys: seq<Key>)
    requires cfg.Valid() && cfg.n % TILE == 0 && Collectable(cfg, s, keys) && |s.c| < cfg.Square()
    ensures Collectable(cfg, ParentStep(cfg, s), KeysAfter(cfg, s, keys, Parent))
    ensures |ParentStep(cfg, s).c| == |s.c| + 1
  {
    MasterProceeds(cfg, s, keys);
    SamePasses(cfg, s, ParentStep(cfg, s));
    MasterOrdered(cfg, s, keys);
  }

  lemma LeftParents(cfg: Config, s: Sys, next: Sys)
    requires cfg.Valid() && |next.c| == |s.c| + 1 && next == ParentStep(cfg, s) && |s.c| < cfg.Square()
    ensures Left(cfg, next) < Left(cfg, s)
    ensures Run(cfg, s, Parents(Left(cfg, s))) == Run(cfg, next, Parents(Left(cfg, next)))
  {
    RunParents(cfg, s, Left(cfg, s));
  }

  lemma MasterAdvances(cfg: Config, s: Sys, keys: seq<Key>) returns (next: Sys, keys': seq<Key>)
    requires cfg.Valid() && cfg.n % TILE == 0 && Collectable(cfg, s, keys) && |s.c| < cfg.Square()
    ensures Collectable(cfg, next, keys') && Left(cfg, next) < Left(cfg, s)
    ensures Run(cfg, s, Parents(Left(cfg, s))) == Run(cfg, next, Parents(Left(cfg, next)))
  {
    next, keys' := ParentStep(cfg, s), KeysAfter(cfg, s, keys, Parent);
    MasterKeeps(cfg, s, keys);
    LeftParents(cfg, s, next);
  }

  lemma LastStep(cfg: Config, s: Sys)
    requires cfg.Valid() && s.phase == Collecting(false) && |s.c| == cfg.Square()
    ensures Run(cfg, s, Parents(Left(cfg, s))) == s.(phase := Finished)
  {
    RunParents(cfg, s, 1);
    RunNoParents(cfg, ParentStep(cfg, s));
  }

  lemma {:induction false} MasterFinishes(cfg: Config, s: Sys, keys: seq<Key>) returns (r: Sys)
    requires cfg.Valid() && cfg.n % TILE == 0 && Collectable(cfg, s, keys)
    ensures r == Run(cfg, s, Parents(Left(cfg, s)))
    ensures r.phase == Finished && |r.c| == cfg.Square() && Correct(cfg, r.c)
    decreases Left(cfg, s)
  {
    if |s.c| < cfg.Square() {
      var next, keys' := MasterAdvances(cfg, s, keys);
      r := MasterFinishes(cfg, next, keys');
    } else {
      LastStep(cfg, s);
      r := s.(phase := Finished);
    }
  }

  predicate CallsBack(a: Action) {
    match a
    case Advance(_, sends) => Outcome(sends, 0)
    case Late(_, _, sends) => Outcome(sends, 0)
    case _ => true
  }

  /** All call-backs to the waiting master succeed. */
  predicate Delivered(acts: seq<Action>) {
    forall i | 0 <= i < |acts| :: CallsBack(acts[i])
  }

  predicate StillQueued(s: Sys) {
    s.phase == Collecting(true) ==> s.server.queue != []
  }

  lemma StepStillQueued(cfg: Config, s: Sys, keys: seq<Key>, a: Action)
    requires cfg.Valid() && Base(cfg, s, keys) && StillQueued(s) && CallsBack(a)
    ensures StillQueued(Step(cfg, s, a))
  {
    match a
    case Parent => ParentStillQueued(cfg, s, keys);
    case Advance(k, sends) => AdvanceStillQueued(cfg, s, keys, k, sends);
    case Late(o, writes, sends) => LateStillQueued(cfg, s, keys, o, writes, sends);
    case _ =>
  }

  lemma ParentStillQueued(cfg: Config, s: Sys, keys: seq<Key>)
    requires cfg.Valid() && Base(cfg, s, keys) && StillQueued(s)
    ensures StillQueued(ParentStep(cfg, s))
  {
    if s.phase == Collecting(false) && |s.c| < cfg.Square() { GetOutcomes(cfg, s, keys); }
  }

  lemma AdvanceStillQueued(cfg: Config, s: Sys, keys: seq<Key>, k: nat, sends: seq<bool>)
    requires cfg.Valid() && Base(cfg, s, keys) && StillQueued(s) && Outcome(sends, 0)
    ensures StillQueued(AdvanceStep(cfg, s, k, sends))
  {
    if k < |s.workers| && s.workers[k].status.Running? {
      match NextCall(cfg, s.workers[k])
      case None =>
      case Some(ReadCall(key)) => AdvanceRead(cfg, s, keys, k, key, sends);
      case Some(PutCall(_, _, _)) => AdvancePut(cfg, s, keys, k, sends);
    }
  }

  lemma LateStillQueued(cfg: Config, s: Sys, keys: seq<Key>, o: nat, writes: Writes, sends: seq<bool>)
    requires cfg.Valid() && Base(cfg, s, keys) && StillQueued(s) && Outcome(sends, 0)
    ensures StillQueued(LateStep(cfg, s, o, writes, sends))
  {
    if o < |s.orphans| {
      match s.orphans[o]
      case ReadCall(key) => ReadExact(cfg, s, keys, key, writes);
      case PutCall(_, _, _) => LatePut(cfg, s, keys, o, writes, sends);
    }
  }

  lemma {:induction false} RunStillQueued(cfg: Config, s: Sys, keys: seq<Key>, acts: seq<Action>)
    requires cfg.Valid() && Base(cfg, s, keys) && StillQueued(s) && Delivered(acts)
    ensures StillQueued(Run(cfg, s, acts))
    decreases |acts|
  {
    if acts != [] {
      StepStillQueued(cfg, s, keys, acts[0]);
      StepBase(cfg, s, keys, acts[0]);
      RunStillQueued(cfg, Step(cfg, s, acts[0]), KeysAfter(cfg, s, keys, acts[0]), acts[1..]);
    }
  }

  /** When every index has had a complete pass, however many incarnations were
      killed, redone or are still running, the master does not wait: its remaining
      GETs are all answered and it finishes with the whole product. */
  lemma Completion(cfg: Config, acts: seq<Action>)
    requires cfg.Valid() && Safe(cfg) && cfg.n % TILE == 0 && Delivered(acts)
    requires var s := Run(cfg, INIT, acts); s.phase.Collecting? && PassesComplete(cfg, s)
    ensures var s := Run(cfg, INIT, acts);
            var r := Run(cfg, s, Parents(Left(cfg, s)));
            r.phase == Finished && |r.c| == cfg.n * cfg.n && RightValues(cfg.n, r.c)
  {
    var s, keys := Run(cfg, INIT, acts), KeysAlong(cfg, INIT, [], acts);
    SafeMeansSeparate(cfg);
    InitOrdered(cfg);
    RunBase(cfg, INIT, [], acts);
    RunOrdered(cfg, INIT, [], acts);
    RunStillQueued(cfg, INIT, [], acts);
    NotWaiting(cfg, s, keys);
    var r := MasterFinishes(cfg, s, keys);
    CorrectIsRight(cfg, r.c);
  }

  lemma NotWaiting(cfg: Config, s: Sys, keys: seq<Key>)
    requires cfg.Valid() && cfg.n % TILE == 0 && Base(cfg, s, keys) && Progress(cfg, s, keys) && PassesComplete(cfg, s)
    ensures s.phase != Collecting(true) || s.server.queue == []
  {
    if s.phase == Collecting(true) && s.server.queue != [] {
      WholeSquare(cfg, |s.c|);
      PassPublishes(cfg, s, keys, RowMajor(cfg.n, |s.c|));
      RankOfRowMajor(cfg, |s.c|);
      WantedNotListed(cfg, s, keys);
    }
  }

  // ----- re-execution -----

  ghost predicate Listed(space: seq<Tuple>, name: string, data: string) {
    exists p | 0 <= p < |space| :: space[p].name == name && space[p].data == data
  }

  lemma ListedByKey(n: nat, space: seq<Tuple>, keys: seq<Key>, name: string, data: string)
    requires Shows(n, space, keys)
    ensures Listed(space, name, data) <==> exists key | key in keys :: name == Name(key) && data == Encode(ValueOf(n, key))
  {
    if Listed(space, name, data) {
      var p :| 0 <= p < |space| && space[p].name == name && space[p].data == data;
      assert Shown(n, space[p], keys[p]) && keys[p] in keys;
    }
    if key :| key in keys && name == Name(key) && data == Encode(ValueOf(n, key)) {
      var p :| 0 <= p < |keys| && keys[p] == key;
      assert Shown(n, space[p], keys[p]);
    }
  }

  /** After complete passes, and before collection, the list has exactly the keys
      of A, of B and of the square of C. */
  lemma KeysAfterPasses(cfg: Config, s: Sys, keys: seq<Key>, key: Key)
    requires cfg.Valid() && Base(cfg, s, keys) && Progress(cfg, s, keys) && PassesComplete(cfg, s)
    requires s.phase.Forking? || s.phase.Watching?
    ensures key in keys <==> key in Initial(cfg) || (key.kind == 'C' && cfg.G().InSquare(Cell(key.i, key.j)))
  {
    var size := 2 * cfg.Square();
    if key in keys {
      var p :| 0 <= p < |keys| && keys[p] == key;
      if p < size { assert Initial(cfg)[p] == keys[..size][p]; }
    }
    if key in Initial(cfg) {
      var p :| 0 <= p < size && Initial(cfg)[p] == key;
      assert keys[..size][p] == keys[p];
    }
    if key.kind == 'C' && cfg.G().InSquare(Cell(key.i, key.j)) {
      PassPublishes(cfg, s, keys, Cell(key.i, key.j));
    }
  }

  /** Re-execution is harmless: any two runs in which every index has completed a
      pass leave the same names with the same values in the space, however often
      workers were killed, retried and restarted on the way. */
  lemma ReExecution(cfg: Config, acts: seq<Action>, acts': seq<Action>, name: string, data: string)
    requires cfg.Valid()
    requires var s := Run(cfg, INIT, acts); (s.phase.Forking? || s.phase.Watching?) && PassesComplete(cfg, s)
    requires var s := Run(cfg, INIT, acts'); (s.phase.Forking? || s.phase.Watching?) && PassesComplete(cfg, s)
    ensures Listed(Run(cfg, INIT, acts).server.space, name, data) <==> Listed(Run(cfg, INIT, acts').server.space, name, data)
  {
    var keys, keys' := KeysAlong(cfg, INIT, [], acts), KeysAlong(cfg, INIT, [], acts');
    InitOrdered(cfg);
    RunBase(cfg, INIT, [], acts);
    RunBase(cfg, INIT, [], acts');
    RunOrdered(cfg, INIT, [], acts);
    RunOrdered(cfg, INIT, [], acts');
    ListedByKey(cfg.n, Run(cfg, INIT, acts).server.space, keys, name, data);
    ListedByKey(cfg.n, Run(cfg, INIT, acts').server.space, keys', name, data);
    forall key: Key
      ensures key in keys <==> key in keys'
    {
      KeysAfterPasses(cfg, Run(cfg, INIT, acts), keys, key);
      KeysAfterPasses(cfg, Run(cfg, INIT, acts'), keys', key);
    }
  }
}
