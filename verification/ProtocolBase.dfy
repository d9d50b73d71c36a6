/** What holds in every state of every run, for every size and every number of
    workers: what the tuple list looks like, that READs of A and B give the value
    of exactly the cell asked for, and that every value put under a key of C is
    the inner product that belongs there. */
module ProtocolBase {
  import opened TupleSpace
  import opened Waiting
  import opened ServerInvariants
  import opened Keys
  import opened Naturals
  import opened Tiling
  import opened Products
  import opened MatrixProtocol
  import opened KeyedSpace

  /** The keys of A and of B in row-major order. */
  function Initial(cfg: Config): (r: seq<Key>)
    requires cfg.n > 0
    ensures |r| == 2 * cfg.Square()
  {
    seq(2 * cfg.Square(), p requires 0 <= p < 2 * cfg.Square() => InitialKey(cfg, p))
  }

  /** The list starts with A and B in row-major order; all else is of C. */
  ghost predicate KeysOk(cfg: Config, phase: Phase, keys: seq<Key>)
    requires cfg.Valid()
  {
    var size := 2 * cfg.Square();
    match phase
    case Publishing(p) => p <= size && keys == Initial(cfg)[..p]
    case _ => && size <= |keys| && keys[..size] == Initial(cfg)
              && forall p | size <= p < |keys| :: keys[p].kind == 'C' && cfg.G().InSquare(Cell(keys[p].i, keys[p].j))
  }

  /** A process is where its loops say, with the right partial sum. */
  predicate WorkerOk(cfg: Config, w: Worker)
    requires cfg.Valid()
  {
    && w.index < cfg.workers && w.k <= cfg.n && !w.status.Blocked?
    && (w.status.Exited? ==> !cfg.G().HasCell(w.index, w.turn))
    && (cfg.G().HasCell(w.index, w.turn) ==>
          var c := cfg.G().CellAt(w.index, w.turn);
          && w.sum == PartialSum(c.i, c.j, w.k)
          && (w.a.Some? ==> w.k < cfg.n && w.a.value == Entry(INIT_A, c.i, w.k)))
  }

  predicate InputKey(cfg: Config, key: Key) {
    (key.kind == 'A' || key.kind == 'B') && key.i < cfg.n && key.j < cfg.n
  }

  predicate CallOk(cfg: Config, call: Call)
    requires cfg.Valid()
  {
    match call
    case ReadCall(key) => InputKey(cfg, key)
    case PutCall(index, turn, value) =>
      && index < cfg.workers && cfg.G().HasCell(index, turn)
      && var c := cfg.G().CellAt(index, turn); value == Product(cfg.n, c.i, c.j)
  }

  predicate CountOk(cfg: Config, s: Sys)
    requires cfg.Valid()
  {
    match s.phase
    case Publishing(_) => s.c == [] && s.workers == [] && s.orphans == []
    case Forking(w) => s.c == [] && w <= cfg.workers
    case Watching(_) => s.c == []
    case Collecting(waiting) => |s.c| <= cfg.Square() && (waiting ==> |s.c| < cfg.Square())
    case Finished => |s.c| == cfg.Square()
  }

  /** The key of the GET that waits in the queue. */
  function Wanted(cfg: Config, s: Sys): Option<Key>
    requires cfg.Valid()
  {
    if s.server.queue == [] then None else Some(CKey(RowMajor(cfg.n, |s.c|)))
  }

  ghost predicate Base(cfg: Config, s: Sys, keys: seq<Key>)
    requires cfg.Valid()
  {
    && Inv(SEARCH, s.server)
    && Shows(cfg.n, s.server.space, keys)
    && KeysOk(cfg, s.phase, keys)
    && QueueIs(s.server.queue, Wanted(cfg, s))
    && (s.server.queue != [] ==> s.phase == Collecting(true))
    && (forall k | 0 <= k < |s.workers| :: WorkerOk(cfg, s.workers[k]))
    && (forall o | 0 <= o < |s.orphans| :: CallOk(cfg, s.orphans[o]))
    && CountOk(cfg, s)
  }

  // ----- where the input cells are -----

  function Place(cfg: Config, key: Key): nat {
    (if key.kind == 'A' then 0 else cfg.Square()) + Times(key.i, cfg.n) + key.j
  }

  lemma PlaceOfKey(cfg: Config, key: Key)
    requires cfg.Valid() && InputKey(cfg, key)
    ensures Place(cfg, key) < 2 * cfg.Square() && InitialKey(cfg, Place(cfg, key)) == key
  {
    PairBelow(key.i, key.j, cfg.n, cfg.n);
    Pair(key.i, key.j, cfg.n);
  }

  lemma KeyOfPlace(cfg: Config, p: nat)
    requires cfg.Valid() && p < 2 * cfg.Square()
    ensures var key := InitialKey(cfg, p); InputKey(cfg, key) && Place(cfg, key) == p
  {
    var q := if p < cfg.Square() then p else p - cfg.Square();
    QuotBelow(q, cfg.n, cfg.n);
    Unpair(q, cfg.n);
  }

  lemma NotInitial(cfg: Config, key: Key)
    requires cfg.Valid() && key.kind == 'C'
    ensures key !in Initial(cfg)
  {
    forall p | 0 <= p < 2 * cfg.Square()
      ensures Initial(cfg)[p] != key
    {
      KeyOfPlace(cfg, p);
    }
  }

  lemma InitialAt(cfg: Config, phase: Phase, keys: seq<Key>, p: nat)
    requires cfg.Valid() && KeysOk(cfg, phase, keys) && !phase.Publishing? && p < 2 * cfg.Square()
    ensures keys[p] == InitialKey(cfg, p)
  {
    assert keys[p] == keys[..2 * cfg.Square()][p];
  }

  /** Among the keys that a search for an input cell hits, the cell itself comes
      first: it is there, and every other hit is further right in its row. */
  lemma ReadHitsExactly(cfg: Config, phase: Phase, keys: seq<Key>, key: Key)
    requires cfg.Valid() && KeysOk(cfg, phase, keys) && !phase.Publishing? && InputKey(cfg, key)
    ensures var hit := FirstHit(keys, key); hit >= 0 && keys[hit] == key
  {
    var p, hit := Place(cfg, key), FirstHit(keys, key);
    PlaceOfKey(cfg, key);
    InitialAt(cfg, phase, keys, p);
    assert Confused(key, keys[p]);
    assert 0 <= hit <= p;
    InitialAt(cfg, phase, keys, hit);
    KeyOfPlace(cfg, hit);
    ConfusedColumns(key, keys[hit]);
  }

  lemma CellInMatrix(cfg: Config, w: nat, t: nat)
    requires cfg.Valid() && w < cfg.workers && cfg.G().HasCell(w, t)
    ensures var c := cfg.G().CellAt(w, t); c.i < cfg.n && c.j < cfg.n && cfg.G().InSquare(c)
  {
    CellOfTurn(cfg.G(), w, t);
    SquareIsWhole(cfg.G());
  }

  // ----- PUTs of results -----

  predicate Reaches(cfg: Config, s: Sys, key: Key, sends: seq<bool>)
    requires cfg.Valid()
  {
    Wanted(cfg, s).Some? && Confused(Wanted(cfg, s).value, key) && Outcome(sends, 0)
  }

  function KeysAfterPut(cfg: Config, s: Sys, keys: seq<Key>, key: Key, sends: seq<bool>): seq<Key>
    requires cfg.Valid()
  {
    if Reaches(cfg, s, key, sends) then keys else WithKey(keys, key)
  }

  /** What a PUT of the value `value` under `key` changes. */
  ghost predicate PutOutcome(cfg: Config, s: Sys, keys: seq<Key>, key: Key, value: int, sends: seq<bool>, r: Sys)
    requires cfg.Valid()
  {
    && Inv(SEARCH, r.server)
    && Shows(cfg.n, r.server.space, KeysAfterPut(cfg, s, keys, key, sends))
    && r.workers == s.workers && r.orphans == s.orphans
    && (if Reaches(cfg, s, key, sends) then
          && r.c == s.c + [value] && r.phase == Collecting(false) && r.server.queue == []
        else
          && r.c == s.c && r.phase == s.phase
          && (r.server.queue == s.server.queue || r.server.queue == [])
          && (Outcome(sends, 0) ==> r.server.queue == s.server.queue))
  }

  /** The two outcomes of a PUT: it goes to the waiting GET, or it is stored. */
  lemma PutOutcomes(cfg: Config, s: Sys, keys: seq<Key>, key: Key, sends: seq<bool>)
    requires cfg.Valid() && Base(cfg, s, keys) && IsLetter(key.kind)
    ensures var value := ValueOf(cfg.n, key); PutOutcome(cfg, s, keys, key, value, sends, ServePut(s, key, value, sends))
  {
    var value := ValueOf(cfg.n, key);
    PutInv(SEARCH, s.server, Name(key), Encode(value), PRIORITY, sends);
    if Reaches(cfg, s, key, sends) {
      PutHanded(cfg.n, s.server, keys, key, Wanted(cfg, s).value, sends);
      DecodeEncoded(value);
    } else {
      PutStored(cfg.n, s.server, keys, key, Wanted(cfg, s), sends);
    }
  }

  lemma ResultPut(cfg: Config, s: Sys, keys: seq<Key>, c: Cell, sends: seq<bool>, r: Sys)
    requires cfg.Valid() && Base(cfg, s, keys) && cfg.G().InSquare(c) && !s.phase.Publishing?
    requires PutOutcome(cfg, s, keys, CKey(c), Product(cfg.n, c.i, c.j), sends, r)
    ensures Base(cfg, r, KeysAfterPut(cfg, s, keys, CKey(c), sends))
  {
    var size, keys' := 2 * cfg.Square(), KeysAfterPut(cfg, s, keys, CKey(c), sends);
    assert keys'[..size] == keys[..size];
    assert forall p | size <= p < |keys'| :: keys'[p].kind == 'C' && cfg.G().InSquare(Cell(keys'[p].i, keys'[p].j));
  }

  // ----- one step -----

  lemma PublishBase(cfg: Config, s: Sys, keys: seq<Key>, r: Sys)
    requires cfg.Valid() && Base(cfg, s, keys) && s.phase.Publishing? && s.phase.next < 2 * cfg.Square()
    requires var key := InitialKey(cfg, s.phase.next); PutOutcome(cfg, s, keys, key, ValueOf(cfg.n, key), [], r)
    ensures Base(cfg, r.(phase := Publishing(s.phase.next + 1)), keys + [InitialKey(cfg, s.phase.next)])
  {
    var p := s.phase.next;
    var key := InitialKey(cfg, p);
    NotYetPublished(cfg, keys, p);
    assert keys + [key] == Initial(cfg)[..p + 1];
  }

  lemma AtPublish(cfg: Config, s: Sys, keys: seq<Key>)
    requires cfg.Valid() && Base(cfg, s, keys) && s.phase.Publishing? && s.phase.next < 2 * cfg.Square()
    ensures Base(cfg, ParentStep(cfg, s), keys + [InitialKey(cfg, s.phase.next)])
  {
    var key := InitialKey(cfg, s.phase.next);
    PutOutcomes(cfg, s, keys, key, []);
    PublishBase(cfg, s, keys, ServePut(s, key, ValueOf(cfg.n, key), []));
  }

  lemma AllPublishedBase(cfg: Config, s: Sys, keys: seq<Key>)
    requires cfg.Valid() && Base(cfg, s, keys) && s.phase == Publishing(2 * cfg.Square())
    ensures Base(cfg, s.(phase := Forking(0)), keys)
  {
    assert Initial(cfg)[..|keys|] == Initial(cfg);
    assert keys[..|keys|] == keys;
  }

  lemma NotYetPublished(cfg: Config, keys: seq<Key>, p: nat)
    requires cfg.Valid() && p < 2 * cfg.Square() && keys == Initial(cfg)[..p]
    ensures InitialKey(cfg, p) !in keys
  {
    forall q | 0 <= q < p
      ensures keys[q] != InitialKey(cfg, p)
    {
      KeyOfPlace(cfg, q);
      KeyOfPlace(cfg, p);
    }
  }

  /** The keys after the master's GET: the first hit is removed. */
  function KeysAfterGet(cfg: Config, s: Sys, keys: seq<Key>): seq<Key>
    requires cfg.Valid()
  {
    var hit := FirstHit(keys, CKey(RowMajor(cfg.n, |s.c|)));
    if hit == -1 then keys else Remove(keys, hit)
  }

  ghost predicate GetOutcome(cfg: Config, s: Sys, keys: seq<Key>, r: Sys)
    requires cfg.Valid()
  {
    var key := CKey(RowMajor(cfg.n, |s.c|));
    var hit := FirstHit(keys, key);
    && Inv(SEARCH, r.server)
    && Shows(cfg.n, r.server.space, KeysAfterGet(cfg, s, keys))
    && r.workers == s.workers && r.orphans == s.orphans
    && (if hit == -1 then
          r.c == s.c && r.phase == Collecting(true) && r.server.queue == s.server.queue + [ClientRequest(key, GET)]
        else
          r.c == s.c + [ValueOf(cfg.n, keys[hit])] && r.phase == s.phase && r.server.queue == s.server.queue)
  }

  lemma MasterServer(cfg: Config, s: Sys)
    requires cfg.Valid() && Inv(SEARCH, s.server)
    ensures var r := ServeGet(cfg, s);
            && r.server == Get(SEARCH, s.server, ClientRequest(CKey(RowMajor(cfg.n, |s.c|)), GET), 0, true, ALL_OK)
            && r.workers == s.workers && r.orphans == s.orphans && Inv(SEARCH, r.server)
  {
    GetInv(SEARCH, s.server, ClientRequest(CKey(RowMajor(cfg.n, |s.c|)), GET), 0, true, ALL_OK);
  }

  lemma MasterWaits(cfg: Config, s: Sys, keys: seq<Key>)
    requires cfg.Valid() && Base(cfg, s, keys) && FirstHit(keys, CKey(RowMajor(cfg.n, |s.c|))) == -1
    ensures GetOutcome(cfg, s, keys, ServeGet(cfg, s))
  {
    var key := CKey(RowMajor(cfg.n, |s.c|));
    MasterServer(cfg, s);
    GetWaits(cfg.n, s.server, keys, key);
    ReplyValue(cfg.n, s.server, keys, key);
  }

  lemma MasterTakes(cfg: Config, s: Sys, keys: seq<Key>)
    requires cfg.Valid() && Base(cfg, s, keys) && FirstHit(keys, CKey(RowMajor(cfg.n, |s.c|))) >= 0
    ensures GetOutcome(cfg, s, keys, ServeGet(cfg, s))
  {
    var key := CKey(RowMajor(cfg.n, |s.c|));
    MasterServer(cfg, s);
    GetRemoves(cfg.n, s.server, keys, key, FirstHit(keys, key));
    ReplyValue(cfg.n, s.server, keys, key);
  }

  lemma GetOutcomes(cfg: Config, s: Sys, keys: seq<Key>)
    requires cfg.Valid() && Base(cfg, s, keys)
    ensures GetOutcome(cfg, s, keys, ServeGet(cfg, s))
  {
    if FirstHit(keys, CKey(RowMajor(cfg.n, |s.c|))) == -1 {
      MasterWaits(cfg, s, keys);
    } else {
      MasterTakes(cfg, s, keys);
    }
  }

  /** Every key that the search for a cell of C hits is of C. */
  lemma HitsResult(cfg: Config, phase: Phase, keys: seq<Key>, c: Cell)
    requires cfg.Valid() && KeysOk(cfg, phase, keys) && !phase.Publishing?
    ensures var hit := FirstHit(keys, CKey(c)); hit == -1 || hit >= 2 * cfg.Square()
  {
    var hit := FirstHit(keys, CKey(c));
    if 0 <= hit < 2 * cfg.Square() {
      InitialAt(cfg, phase, keys, hit);
      KeyOfPlace(cfg, hit);
    }
  }

  lemma KeysOkWithout(cfg: Config, phase: Phase, keys: seq<Key>, hit: nat)
    requires cfg.Valid() && KeysOk(cfg, phase, keys) && !phase.Publishing? && 2 * cfg.Square() <= hit < |keys|
    ensures KeysOk(cfg, phase, Remove(keys, hit))
  {
    var size, keys' := 2 * cfg.Square(), Remove(keys, hit);
    assert keys'[..size] == keys[..size];
    assert forall p | size <= p < |keys'| :: keys'[p] == keys[if p < hit then p else p + 1];
  }

  lemma AfterHitBase(cfg: Config, s: Sys, keys: seq<Key>, r: Sys, hit: nat)
    requires cfg.Valid() && Base(cfg, s, keys) && s.phase == Collecting(false) && |s.c| < cfg.Square()
    requires GetOutcome(cfg, s, keys, r) && hit == FirstHit(keys, CKey(RowMajor(cfg.n, |s.c|)))
    ensures Base(cfg, r, Remove(keys, hit))
  {
    HitsResult(cfg, s.phase, keys, RowMajor(cfg.n, |s.c|));
    KeysOkWithout(cfg, s.phase, keys, hit);
  }

  lemma AfterMissBase(cfg: Config, s: Sys, keys: seq<Key>, r: Sys)
    requires cfg.Valid() && Base(cfg, s, keys) && s.phase == Collecting(false) && |s.c| < cfg.Square()
    requires GetOutcome(cfg, s, keys, r) && FirstHit(keys, CKey(RowMajor(cfg.n, |s.c|))) == -1
    ensures Base(cfg, r, keys)
  {
  }

  lemma AfterGetBase(cfg: Config, s: Sys, keys: seq<Key>, r: Sys)
    requires cfg.Valid() && Base(cfg, s, keys) && s.phase == Collecting(false) && |s.c| < cfg.Square()
    requires GetOutcome(cfg, s, keys, r)
    ensures Base(cfg, r, KeysAfterGet(cfg, s, keys))
  {
    var hit := FirstHit(keys, CKey(RowMajor(cfg.n, |s.c|)));
    if hit >= 0 { AfterHitBase(cfg, s, keys, r, hit); } else { AfterMissBase(cfg, s, keys, r); }
  }

  /** The keys after an action. */
  function KeysAfter(cfg: Config, s: Sys, keys: seq<Key>, a: Action): seq<Key>
    requires cfg.Valid()
  {
    match a
    case Parent =>
      if s.phase.Publishing? && s.phase.next < 2 * cfg.Square() then keys + [InitialKey(cfg, s.phase.next)]
      else if s.phase == Collecting(false) && |s.c| < cfg.Square() then KeysAfterGet(cfg, s, keys)
      else keys
    case Advance(k, sends) =>
      if k < |s.workers| && s.workers[k].status.Running? && NextCall(cfg, s.workers[k]).Some?
         && NextCall(cfg, s.workers[k]).value.PutCall? then
        KeysAfterPut(cfg, s, keys, CallKey(cfg, NextCall(cfg, s.workers[k]).value), sends)
      else keys
    case Late(o, _, sends) =>
      if o < |s.orphans| && s.orphans[o].PutCall? then KeysAfterPut(cfg, s, keys, CallKey(cfg, s.orphans[o]), sends)
      else keys
    case _ => keys
  }

  lemma CollectBase(cfg: Config, s: Sys, keys: seq<Key>)
    requires cfg.Valid() && Base(cfg, s, keys) && s.phase == Collecting(false) && |s.c| < cfg.Square()
    ensures Base(cfg, ParentStep(cfg, s), KeysAfter(cfg, s, keys, Parent))
  {
    GetOutcomes(cfg, s, keys);
    AfterGetBase(cfg, s, keys, ServeGet(cfg, s));
  }

  lemma WithWorkersBase(cfg: Config, s: Sys, keys: seq<Key>, ws: seq<Worker>, phase: Phase)
    requires cfg.Valid() && Base(cfg, s, keys) && forall k | 0 <= k < |ws| :: WorkerOk(cfg, ws[k])
    requires phase == s.phase || (s.phase.Watching? && phase.Watching?)
    requires s.phase.Publishing? ==> ws == []
    ensures Base(cfg, s.(workers := ws, phase := phase), keys)
  {
  }

  lemma WithPhaseBase(cfg: Config, s: Sys, keys: seq<Key>, phase: Phase)
    requires cfg.Valid() && Base(cfg, s, keys) && !s.phase.Publishing? && !phase.Publishing?
    requires s.server.queue == [] && CountOk(cfg, s.(phase := phase))
    ensures Base(cfg, s.(phase := phase), keys)
  {
  }

  lemma ForkBase(cfg: Config, s: Sys, keys: seq<Key>)
    requires cfg.Valid() && Base(cfg, s, keys) && s.phase.Forking? && s.phase.next < cfg.workers
    ensures Base(cfg, ParentStep(cfg, s), keys)
  {
    var w := s.phase.next;
    WithWorkersBase(cfg, s, keys, s.workers + [NewWorker(w)], s.phase);
    WithPhaseBase(cfg, s.(workers := s.workers + [NewWorker(w)]), keys, Forking(w + 1));
  }

  /** The parent's other steps change the phase at most. */
  lemma QuietParentBase(cfg: Config, s: Sys, keys: seq<Key>)
    requires cfg.Valid() && Base(cfg, s, keys) && !s.phase.Publishing?
    requires s.phase.Forking? ==> s.phase.next == cfg.workers
    requires s.phase.Collecting? ==> s.phase.waiting || |s.c| == cfg.Square()
    ensures Base(cfg, ParentStep(cfg, s), keys)
  {
    var r := ParentStep(cfg, s);
    if r != s {
      WithPhaseBase(cfg, s, keys, r.phase);
    }
  }

  lemma ParentBase(cfg: Config, s: Sys, keys: seq<Key>)
    requires cfg.Valid() && Base(cfg, s, keys)
    ensures Base(cfg, ParentStep(cfg, s), KeysAfter(cfg, s, keys, Parent))
  {
    if s.phase.Publishing? {
      if s.phase.next < 2 * cfg.Square() { AtPublish(cfg, s, keys); } else { AllPublishedBase(cfg, s, keys); }
    } else if s.phase == Collecting(false) && |s.c| < cfg.Square() {
      CollectBase(cfg, s, keys);
    } else if s.phase.Forking? && s.phase.next < cfg.workers {
      ForkBase(cfg, s, keys);
    } else {
      QuietParentBase(cfg, s, keys);
    }
  }

  lemma ReapBase(cfg: Config, s: Sys, keys: seq<Key>, k: nat)
    requires cfg.Valid() && Base(cfg, s, keys)
    ensures Base(cfg, ReapStep(cfg, s, k), keys)
  {
    var r := ReapStep(cfg, s, k);
    if r != s {
      WithWorkersBase(cfg, s, keys, r.workers, r.phase);
    }
  }

  lemma KillBase(cfg: Config, s: Sys, keys: seq<Key>, k: nat)
    requires cfg.Valid() && Base(cfg, s, keys)
    ensures Base(cfg, KillStep(cfg, s, k), keys)
  {
    var r := KillStep(cfg, s, k);
    if r != s {
      WithWorkersBase(cfg, s, keys, r.workers, r.phase);
    }
  }

  lemma WithOrphanBase(cfg: Config, s: Sys, keys: seq<Key>, call: Call)
    requires cfg.Valid() && Base(cfg, s, keys) && CallOk(cfg, call) && !s.phase.Publishing?
    ensures Base(cfg, s.(orphans := s.orphans + [call]), keys)
  {
  }

  lemma AbandonBase(cfg: Config, s: Sys, keys: seq<Key>, k: nat)
    requires cfg.Valid() && Base(cfg, s, keys)
    ensures Base(cfg, AbandonStep(cfg, s, k), keys)
  {
    if k < |s.workers| && NextCall(cfg, s.workers[k]).Some? {
      NextCallOk(cfg, s.workers[k]);
      WithOrphanBase(cfg, s, keys, NextCall(cfg, s.workers[k]).value);
    }
  }

  /** A process asks for cells of the inputs and puts finished inner products. */
  lemma NextCallOk(cfg: Config, w: Worker)
    requires cfg.Valid() && WorkerOk(cfg, w) && NextCall(cfg, w).Some?
    ensures CallOk(cfg, NextCall(cfg, w).value)
  {
    CellInMatrix(cfg, w.index, w.turn);
  }

  /** A READ of an input cell is answered with that cell's value and changes
      nothing but the history. */
  lemma ReadExact(cfg: Config, s: Sys, keys: seq<Key>, key: Key, w: Writes)
    requires cfg.Valid() && Base(cfg, s, keys) && !s.phase.Publishing? && InputKey(cfg, key)
    ensures var reply := GetReply(SEARCH, s.server, Name(key), 0, true, ALL_OK);
            reply == Present(Name(key), PRIORITY, Encode(ValueOf(cfg.n, key))) && Atoi(reply.data) == ValueOf(cfg.n, key)
    ensures var r := ServeRead(s, key, w);
            r == s.(server := s.server.(log := r.server.log)) && Inv(SEARCH, r.server)
  {
    ReadHitsExactly(cfg, s.phase, keys, key);
    FindIsFirstHit(cfg.n, s.server.space, keys, key);
    ReplyValue(cfg.n, s.server, keys, key);
    GetInv(SEARCH, s.server, ClientRequest(key, READ), 0, true, w);
  }

  lemma AfterReadOk(cfg: Config, w: Worker, key: Key, data: string)
    requires cfg.Valid() && WorkerOk(cfg, w) && w.status.Running?
    requires NextCall(cfg, w) == Some(ReadCall(key)) && Atoi(data) == ValueOf(cfg.n, key)
    ensures WorkerOk(cfg, AfterRead(w, data))
  {
  }

  /** The effect of a process' READ. */
  lemma AdvanceRead(cfg: Config, s: Sys, keys: seq<Key>, k: nat, key: Key, sends: seq<bool>)
    requires cfg.Valid() && Base(cfg, s, keys) && k < |s.workers| && s.workers[k].status.Running?
    requires NextCall(cfg, s.workers[k]) == Some(ReadCall(key))
    ensures var reply := GetReply(SEARCH, s.server, Name(key), 0, true, ALL_OK);
            var r := ServeRead(s, key, ALL_OK);
            && reply.Present?
            && WorkerOk(cfg, AfterRead(s.workers[k], reply.data))
            && AdvanceStep(cfg, s, k, sends) == r.(workers := s.workers[k := AfterRead(s.workers[k], reply.data)])
            && r == s.(server := s.server.(log := r.server.log)) && Inv(SEARCH, r.server)
  {
    var w := s.workers[k];
    NextCallOk(cfg, w);
    ReadExact(cfg, s, keys, key, ALL_OK);
    AfterReadOk(cfg, w, key, GetReply(SEARCH, s.server, Name(key), 0, true, ALL_OK).data);
  }

  lemma WithLogBase(cfg: Config, s: Sys, keys: seq<Key>, log: seq<Delivery>)
    requires cfg.Valid() && Base(cfg, s, keys) && Inv(SEARCH, s.server.(log := log))
    ensures Base(cfg, s.(server := s.server.(log := log)), keys)
  {
  }

  /** The effect of a process' PUT, in terms of the PUT alone. */
  lemma AdvancePut(cfg: Config, s: Sys, keys: seq<Key>, k: nat, sends: seq<bool>)
    requires cfg.Valid() && Base(cfg, s, keys) && k < |s.workers| && s.workers[k].status.Running?
    requires NextCall(cfg, s.workers[k]).Some? && NextCall(cfg, s.workers[k]).value.PutCall?
    ensures var w := s.workers[k];
            var c := cfg.G().CellAt(w.index, w.turn);
            var r := ServePut(s, CKey(c), Product(cfg.n, c.i, c.j), sends);
            && PutOutcome(cfg, s, keys, CKey(c), Product(cfg.n, c.i, c.j), sends, r)
            && Base(cfg, r, KeysAfterPut(cfg, s, keys, CKey(c), sends))
            && AdvanceStep(cfg, s, k, sends) == r.(workers := s.workers[k := AfterPut(w)])
            && WorkerOk(cfg, AfterPut(w))
  {
    var w := s.workers[k];
    var c := cfg.G().CellAt(w.index, w.turn);
    NextCallOk(cfg, w);
    CellInMatrix(cfg, w.index, w.turn);
    PutOutcomes(cfg, s, keys, CKey(c), sends);
    ResultPut(cfg, s, keys, c, sends, ServePut(s, CKey(c), Product(cfg.n, c.i, c.j), sends));
  }

  lemma WithWorkerBase(cfg: Config, s: Sys, keys: seq<Key>, k: nat, w: Worker)
    requires cfg.Valid() && Base(cfg, s, keys) && k < |s.workers| && WorkerOk(cfg, w)
    ensures Base(cfg, s.(workers := s.workers[k := w]), keys)
  {
  }

  lemma AdvanceReadBase(cfg: Config, s: Sys, keys: seq<Key>, k: nat, key: Key, sends: seq<bool>)
    requires cfg.Valid() && Base(cfg, s, keys) && k < |s.workers| && s.workers[k].status.Running?
    requires NextCall(cfg, s.workers[k]) == Some(ReadCall(key))
    ensures Base(cfg, AdvanceStep(cfg, s, k, sends), keys)
  {
    AdvanceRead(cfg, s, keys, k, key, sends);
    var r := ServeRead(s, key, ALL_OK);
    WithLogBase(cfg, s, keys, r.server.log);
    var reply := GetReply(SEARCH, s.server, Name(key), 0, true, ALL_OK);
    WithWorkerBase(cfg, r, keys, k, AfterRead(s.workers[k], reply.data));
  }

  lemma AdvancePutBase(cfg: Config, s: Sys, keys: seq<Key>, k: nat, sends: seq<bool>)
    requires cfg.Valid() && Base(cfg, s, keys) && k < |s.workers| && s.workers[k].status.Running?
    requires NextCall(cfg, s.workers[k]).Some? && NextCall(cfg, s.workers[k]).value.PutCall?
    ensures Base(cfg, AdvanceStep(cfg, s, k, sends),
                 KeysAfterPut(cfg, s, keys, CallKey(cfg, NextCall(cfg, s.workers[k]).value), sends))
  {
    var w := s.workers[k];
    AdvancePut(cfg, s, keys, k, sends);
    var c := cfg.G().CellAt(w.index, w.turn);
    WithWorkerBase(cfg, ServePut(s, CKey(c), Product(cfg.n, c.i, c.j), sends),
                   KeysAfterPut(cfg, s, keys, CKey(c), sends), k, AfterPut(w));
  }

  lemma AdvanceBase(cfg: Config, s: Sys, keys: seq<Key>, k: nat, sends: seq<bool>)
    requires cfg.Valid() && Base(cfg, s, keys)
    ensures Base(cfg, AdvanceStep(cfg, s, k, sends), KeysAfter(cfg, s, keys, Advance(k, sends)))
  {
    if k < |s.workers| && s.workers[k].status.Running? {
      match NextCall(cfg, s.workers[k])
      case None => WithWorkerBase(cfg, s, keys, k, s.workers[k].(status := Exited));
      case Some(ReadCall(key)) => AdvanceReadBase(cfg, s, keys, k, key, sends);
      case Some(PutCall(_, _, _)) => AdvancePutBase(cfg, s, keys, k, sends);
    }
  }

  lemma WithoutOrphanBase(cfg: Config, s: Sys, keys: seq<Key>, o: nat)
    requires cfg.Valid() && Base(cfg, s, keys) && o < |s.orphans|
    ensures Base(cfg, s.(orphans := Remove(s.orphans, o)), keys)
  {
    var left := Remove(s.orphans, o);
    assert forall i | 0 <= i < |left| :: left[i] == s.orphans[if i < o then i else i + 1];
  }

  /** The effect of an abandoned PUT, in terms of the PUT alone. */
  lemma LatePut(cfg: Config, s: Sys, keys: seq<Key>, o: nat, writes: Writes, sends: seq<bool>)
    requires cfg.Valid() && Base(cfg, s, keys) && o < |s.orphans| && s.orphans[o].PutCall?
    ensures var c := cfg.G().CellAt(s.orphans[o].index, s.orphans[o].turn);
            var r := ServePut(s, CKey(c), Product(cfg.n, c.i, c.j), sends);
            && CallKey(cfg, s.orphans[o]) == CKey(c)
            && PutOutcome(cfg, s, keys, CKey(c), Product(cfg.n, c.i, c.j), sends, r)
            && Base(cfg, r, KeysAfterPut(cfg, s, keys, CKey(c), sends))
            && LateStep(cfg, s, o, writes, sends) == r.(orphans := Remove(s.orphans, o))
  {
    CellInMatrix(cfg, s.orphans[o].index, s.orphans[o].turn);
    var c := cfg.G().CellAt(s.orphans[o].index, s.orphans[o].turn);
    PutOutcomes(cfg, s, keys, CKey(c), sends);
    ResultPut(cfg, s, keys, c, sends, ServePut(s, CKey(c), Product(cfg.n, c.i, c.j), sends));
  }

  lemma LateReadBase(cfg: Config, s: Sys, keys: seq<Key>, o: nat, key: Key, writes: Writes, sends: seq<bool>)
    requires cfg.Valid() && Base(cfg, s, keys) && o < |s.orphans| && s.orphans[o] == ReadCall(key)
    ensures Base(cfg, LateStep(cfg, s, o, writes, sends), keys)
  {
    ReadExact(cfg, s, keys, key, writes);
    var r := ServeRead(s, key, writes);
    WithLogBase(cfg, s, keys, r.server.log);
    WithoutOrphanBase(cfg, r, keys, o);
  }

  lemma LatePutBase(cfg: Config, s: Sys, keys: seq<Key>, o: nat, writes: Writes, sends: seq<bool>)
    requires cfg.Valid() && Base(cfg, s, keys) && o < |s.orphans| && s.orphans[o].PutCall?
    ensures Base(cfg, LateStep(cfg, s, o, writes, sends),
                 KeysAfterPut(cfg, s, keys, CallKey(cfg, s.orphans[o]), sends))
  {
    LatePut(cfg, s, keys, o, writes, sends);
    var c := cfg.G().CellAt(s.orphans[o].index, s.orphans[o].turn);
    WithoutOrphanBase(cfg, ServePut(s, CKey(c), Product(cfg.n, c.i, c.j), sends),
                      KeysAfterPut(cfg, s, keys, CKey(c), sends), o);
  }

  lemma LateBase(cfg: Config, s: Sys, keys: seq<Key>, o: nat, writes: Writes, sends: seq<bool>)
    requires cfg.Valid() && Base(cfg, s, keys)
    ensures Base(cfg, LateStep(cfg, s, o, writes, sends), KeysAfter(cfg, s, keys, Late(o, writes, sends)))
  {
    if o < |s.orphans| {
      match s.orphans[o]
      case ReadCall(key) => LateReadBase(cfg, s, keys, o, key, writes, sends);
      case PutCall(_, _, _) => LatePutBase(cfg, s, keys, o, writes, sends);
    }
  }

  lemma StepBase(cfg: Config, s: Sys, keys: seq<Key>, a: Action)
    requires cfg.Valid() && Base(cfg, s, keys)
    ensures Base(cfg, Step(cfg, s, a), KeysAfter(cfg, s, keys, a))
  {
    match a
    case Parent => ParentBase(cfg, s, keys);
    case Reap(k) => ReapBase(cfg, s, keys, k);
    case Advance(k, sends) => AdvanceBase(cfg, s, keys, k, sends);
    case Kill(k) => KillBase(cfg, s, keys, k);
    case Abandon(k) => AbandonBase(cfg, s, keys, k);
    case Late(o, writes, sends) => LateBase(cfg, s, keys, o, writes, sends);
  }

  lemma InitBase(cfg: Config)
    requires cfg.Valid()
    ensures Base(cfg, INIT, [])
  {
    ServeInv(SEARCH, []);
    assert Initial(cfg)[..0] == [];
  }

  /** The keys after a schedule. */
  function KeysAlong(cfg: Config, s: Sys, keys: seq<Key>, acts: seq<Action>): seq<Key>
    requires cfg.Valid()
    decreases |acts|
  {
    if acts == [] then keys else KeysAlong(cfg, Step(cfg, s, acts[0]), KeysAfter(cfg, s, keys, acts[0]), acts[1..])
  }

  lemma {:induction false} RunBase(cfg: Config, s: Sys, keys: seq<Key>, acts: seq<Action>)
    requires cfg.Valid() && Base(cfg, s, keys)
    ensures Base(cfg, Run(cfg, s, acts), KeysAlong(cfg, s, keys, acts))
    decreases |acts|
  {
    if acts != [] {
      StepBase(cfg, s, keys, acts[0]);
      RunBase(cfg, Step(cfg, s, acts[0]), KeysAfter(cfg, s, keys, acts[0]), acts[1..]);
    }
  }
}
