/** The order in which results are listed, and what it buys: when every pair of
    columns that a search confuses belongs to one worker, the master stores the
    right value for every cell, in every run. */
module ProtocolOrder {
  import opened TupleSpace
  import opened Waiting
  import opened ServerInvariants
  import opened Keys
  import opened Naturals
  import opened Tiling
  import opened Products
  import opened MatrixProtocol
  import opened KeyedSpace
  import opened ProtocolBase

  /** Two cells of the square that a search confuses have the same owner. */
  ghost predicate Separate(cfg: Config)
    requires cfg.Valid()
  {
    forall a: Cell, b: Cell | cfg.G().InSquare(a) && cfg.G().InSquare(b) && Confused(CKey(a), CKey(b)) ::
      cfg.G().Owner(a) == cfg.G().Owner(b)
  }

  /** The result is in the list, or the master has taken it. */
  predicate Published(cfg: Config, count: nat, keys: seq<Key>, c: Cell) {
    CKey(c) in keys || Rank(cfg.n, c) < count
  }

  predicate PublishedTurn(cfg: Config, count: nat, keys: seq<Key>, w: nat, t: nat)
    requires cfg.Valid()
  {
    cfg.G().HasCell(w, t) && Published(cfg, count, keys, cfg.G().CellAt(w, t))
  }

  /** Worker w's results before its given turn are published. */
  ghost predicate Done(cfg: Config, count: nat, keys: seq<Key>, w: nat, turn: nat)
    requires cfg.Valid()
  {
    forall t: nat | t < turn :: PublishedTurn(cfg, count, keys, w, t)
  }

  ghost predicate OrphanDone(cfg: Config, count: nat, keys: seq<Key>, call: Call)
    requires cfg.Valid()
  {
    call.PutCall? ==> Done(cfg, count, keys, call.index, call.turn)
  }

  /** Every process, and every abandoned PUT, comes after the earlier results of
      its index. */
  ghost predicate Progress(cfg: Config, s: Sys, keys: seq<Key>)
    requires cfg.Valid()
  {
    && (forall k | 0 <= k < |s.workers| :: Done(cfg, |s.c|, keys, s.workers[k].index, s.workers[k].turn))
    && (forall o | 0 <= o < |s.orphans| :: OrphanDone(cfg, |s.c|, keys, s.orphans[o]))
  }

  /** A listed result comes after every result still to be collected whose search
      would hit it. */
  ghost predicate Sorted(cfg: Config, count: nat, keys: seq<Key>)
    requires cfg.Valid()
  {
    forall p, a: Cell {:trigger Confused(CKey(a), keys[p])} |
      2 * cfg.Square() <= p < |keys| && Confused(CKey(a), keys[p]) && CKey(a) != keys[p] ::
      Rank(cfg.n, a) < count || CKey(a) in keys[..p]
  }

  /** What the master has stored is right. */
  ghost predicate Correct(cfg: Config, c: seq<int>)
    requires cfg.Valid()
  {
    forall p | 0 <= p < |c| :: c[p] == Product(cfg.n, RowMajor(cfg.n, p).i, RowMajor(cfg.n, p).j)
  }

  /** The same in the source's arithmetic. */
  lemma CorrectIsRight(cfg: Config, c: seq<int>)
    requires cfg.Valid()
    ensures Correct(cfg, c) <==> RightValues(cfg.n, c)
    ensures cfg.Square() == cfg.n * cfg.n
  {
    TimesIsMul(cfg.n, cfg.n);
    forall p: nat
      ensures RowMajor(cfg.n, p).i == p / cfg.n && RowMajor(cfg.n, p).j == p % cfg.n
    {
      QuotRemIsDivMod(p, cfg.n);
    }
  }

  lemma RankOfRowMajor(cfg: Config, p: nat)
    requires cfg.Valid()
    ensures Rank(cfg.n, RowMajor(cfg.n, p)) == p
  {
    Unpair(p, cfg.n);
  }

  /** A search hits nothing outside the square, nor from outside inside it. */
  lemma ConfusedInSquare(cfg: Config, a: Cell, b: Cell)
    requires cfg.Valid() && cfg.G().InSquare(b) && Confused(CKey(a), CKey(b))
    ensures cfg.G().InSquare(a) && a.i == b.i && a.j <= b.j
  {
    ConfusedColumns(CKey(a), CKey(b));
  }

  /** When a process comes to a cell, the confused cells to its left are published. */
  lemma EarlierPublished(cfg: Config, count: nat, keys: seq<Key>, a: Cell, w: nat, t: nat)
    requires cfg.Valid() && Separate(cfg) && w < cfg.workers && cfg.G().HasCell(w, t) && Done(cfg, count, keys, w, t)
    requires var b := cfg.G().CellAt(w, t); Confused(CKey(a), CKey(b)) && a != b
    ensures Published(cfg, count, keys, a)
  {
    var g, b := cfg.G(), cfg.G().CellAt(w, t);
    CellOfTurn(g, w, t);
    ConfusedInSquare(cfg, a, b);
    RowOrder(g, a, b);
    TurnOfCell(g, a);
    assert PublishedTurn(cfg, count, keys, w, g.Turn(a));
  }

  // ----- a PUT -----

  /** The master's waiting GET is for a cell that is not listed. */
  lemma WantedNotListed(cfg: Config, s: Sys, keys: seq<Key>)
    requires cfg.Valid() && Base(cfg, s, keys) && Wanted(cfg, s).Some?
    ensures Wanted(cfg, s).value !in keys
  {
    var key := Wanted(cfg, s).value;
    OccursIff(key, key);
    var q := s.server.queue[0];
    assert q in s.server.queue;
    forall p | 0 <= p < |keys|
      ensures keys[p] != key
    {
      assert Shown(cfg.n, s.server.space[p], keys[p]);
    }
  }

  lemma HandedToItsCell(cfg: Config, s: Sys, keys: seq<Key>, w: nat, t: nat, sends: seq<bool>)
    requires cfg.Valid() && Separate(cfg) && Base(cfg, s, keys)
    requires w < cfg.workers && cfg.G().HasCell(w, t) && Done(cfg, |s.c|, keys, w, t)
    requires Reaches(cfg, s, CKey(cfg.G().CellAt(w, t)), sends)
    ensures RowMajor(cfg.n, |s.c|) == cfg.G().CellAt(w, t)
  {
    var a, b := RowMajor(cfg.n, |s.c|), cfg.G().CellAt(w, t);
    if a != b {
      EarlierPublished(cfg, |s.c|, keys, a, w, t);
      RankOfRowMajor(cfg, |s.c|);
      WantedNotListed(cfg, s, keys);
    }
  }

  /** More keys, or more collected cells, keep what was published. */
  lemma DoneMono(cfg: Config, count: nat, keys: seq<Key>, count': nat, keys': seq<Key>, w: nat, turn: nat)
    requires cfg.Valid() && Done(cfg, count, keys, w, turn)
    requires forall c: Cell :: Published(cfg, count, keys, c) ==> Published(cfg, count', keys', c)
    ensures Done(cfg, count', keys', w, turn)
  {
    forall t: nat | t < turn
      ensures PublishedTurn(cfg, count', keys', w, t)
    {
      assert PublishedTurn(cfg, count, keys, w, t);
    }
  }

  lemma ProgressMono(cfg: Config, s: Sys, keys: seq<Key>, r: Sys, keys': seq<Key>)
    requires cfg.Valid() && Progress(cfg, s, keys) && r.workers == s.workers && r.orphans == s.orphans
    requires forall c: Cell :: Published(cfg, |s.c|, keys, c) ==> Published(cfg, |r.c|, keys', c)
    ensures Progress(cfg, r, keys')
  {
    forall k | 0 <= k < |s.workers|
      ensures Done(cfg, |r.c|, keys', s.workers[k].index, s.workers[k].turn)
    {
      DoneMono(cfg, |s.c|, keys, |r.c|, keys', s.workers[k].index, s.workers[k].turn);
    }
    forall o | 0 <= o < |s.orphans|
      ensures OrphanDone(cfg, |r.c|, keys', s.orphans[o])
    {
      assert OrphanDone(cfg, |s.c|, keys, s.orphans[o]);
      if s.orphans[o].PutCall? {
        DoneMono(cfg, |s.c|, keys, |r.c|, keys', s.orphans[o].index, s.orphans[o].turn);
      }
    }
  }

  /** A PUT that is handed over only if it is the wanted one publishes its cell. */
  lemma PutProgress(cfg: Config, s: Sys, keys: seq<Key>, b: Cell, sends: seq<bool>, r: Sys)
    requires cfg.Valid() && Progress(cfg, s, keys)
    requires PutOutcome(cfg, s, keys, CKey(b), Product(cfg.n, b.i, b.j), sends, r)
    requires Reaches(cfg, s, CKey(b), sends) ==> RowMajor(cfg.n, |s.c|) == b
    ensures var keys' := KeysAfterPut(cfg, s, keys, CKey(b), sends);
            Progress(cfg, r, keys') && Published(cfg, |r.c|, keys', b)
  {
    RankOfRowMajor(cfg, |s.c|);
    ProgressMono(cfg, s, keys, r, KeysAfterPut(cfg, s, keys, CKey(b), sends));
  }

  lemma SortedAppend(cfg: Config, count: nat, keys: seq<Key>, b: Cell)
    requires cfg.Valid() && Sorted(cfg, count, keys) && 2 * cfg.Square() <= |keys|
    requires forall a: Cell | Confused(CKey(a), CKey(b)) && a != b :: Published(cfg, count, keys, a)
    ensures Sorted(cfg, count, WithKey(keys, CKey(b)))
  {
    var keys' := WithKey(keys, CKey(b));
    forall p, a: Cell | 2 * cfg.Square() <= p < |keys'| && Confused(CKey(a), keys'[p]) && CKey(a) != keys'[p]
      ensures Rank(cfg.n, a) < count || CKey(a) in keys'[..p]
    {
      if p < |keys| {
        assert keys'[..p] == keys[..p] && keys'[p] == keys[p];
        assert Confused(CKey(a), keys[p]);
      } else {
        assert keys'[..p] == keys;
        assert Published(cfg, count, keys, a);
      }
    }
  }

  /** Collection has not begun. */
  predicate Early(phase: Phase) {
    phase.Publishing? || phase.Forking? || phase.Watching?
  }

  /** The invariant: `Progress` in every run up to the collection, all of it in
      every run if the columns are separate. */
  ghost predicate Ordered(cfg: Config, s: Sys, keys: seq<Key>)
    requires cfg.Valid()
  {
    Progress(cfg, s, keys) && (Separate(cfg) ==> Sorted(cfg, |s.c|, keys) && Correct(cfg, s.c))
  }

  lemma PutOrdered(cfg: Config, s: Sys, keys: seq<Key>, w: nat, t: nat, sends: seq<bool>, r: Sys)
    requires cfg.Valid() && (Separate(cfg) || Early(s.phase)) && Base(cfg, s, keys) && !s.phase.Publishing?
    requires Ordered(cfg, s, keys)
    requires w < cfg.workers && cfg.G().HasCell(w, t) && Done(cfg, |s.c|, keys, w, t)
    requires var b := cfg.G().CellAt(w, t); PutOutcome(cfg, s, keys, CKey(b), Product(cfg.n, b.i, b.j), sends, r)
    ensures var b := cfg.G().CellAt(w, t);
            var keys' := KeysAfterPut(cfg, s, keys, CKey(b), sends);
            Ordered(cfg, r, keys') && Published(cfg, |r.c|, keys', b)
  {
    var b := cfg.G().CellAt(w, t);
    if Reaches(cfg, s, CKey(b), sends) {
      HandedToItsCell(cfg, s, keys, w, t, sends);
    } else if Separate(cfg) {
      forall a: Cell | Confused(CKey(a), CKey(b)) && a != b
        ensures Published(cfg, |s.c|, keys, a)
      {
        EarlierPublished(cfg, |s.c|, keys, a, w, t);
      }
      SortedAppend(cfg, |s.c|, keys, b);
    }
    PutProgress(cfg, s, keys, b, sends, r);
  }

  // ----- the master's GET -----

  /** The first hit of the master's search is the cell it asks for. */
  lemma GetHitsExactly(cfg: Config, s: Sys, keys: seq<Key>)
    requires cfg.Valid() && Base(cfg, s, keys) && !s.phase.Publishing? && Sorted(cfg, |s.c|, keys)
    ensures var key := CKey(RowMajor(cfg.n, |s.c|)); var hit := FirstHit(keys, key);
            hit == -1 || (hit >= 2 * cfg.Square() && keys[hit] == key)
  {
    var a := RowMajor(cfg.n, |s.c|);
    var hit := FirstHit(keys, CKey(a));
    HitsResult(cfg, s.phase, keys, a);
    RankOfRowMajor(cfg, |s.c|);
    if hit >= 0 {
      assert Confused(CKey(a), CKey(a));
      assert CKey(a) !in keys[..hit];
      assert Confused(CKey(a), keys[hit]);
    }
  }

  lemma InRemove(keys: seq<Key>, hit: nat, key: Key)
    requires hit < |keys| && key in keys && key != keys[hit]
    ensures key in Remove(keys, hit)
  {
    var p :| 0 <= p < |keys| && keys[p] == key;
    assert Remove(keys, hit)[if p < hit then p else p - 1] == key;
  }

  lemma SortedRemove(cfg: Config, keys: seq<Key>, hit: nat, a: Cell)
    requires cfg.Valid() && hit < |keys| && keys[hit] == CKey(a) && 2 * cfg.Square() <= hit
    requires Sorted(cfg, Rank(cfg.n, a), keys)
    ensures Sorted(cfg, Rank(cfg.n, a) + 1, Remove(keys, hit))
  {
    var keys' := Remove(keys, hit);
    forall p, b: Cell | 2 * cfg.Square() <= p < |keys'| && Confused(CKey(b), keys'[p]) && CKey(b) != keys'[p]
      ensures Rank(cfg.n, b) < Rank(cfg.n, a) + 1 || CKey(b) in keys'[..p]
    {
      var q := if p < hit then p else p + 1;
      assert keys'[p] == keys[q];
      assert Confused(CKey(b), keys[q]);
      if b != a && CKey(b) in keys[..q] {
        if p < hit {
          assert keys'[..p] == keys[..p];
        } else {
          InRemove(keys[..q], hit, CKey(b));
          assert Remove(keys[..q], hit) == keys'[..p];
        }
      }
    }
  }

  lemma PublishedRemove(cfg: Config, keys: seq<Key>, hit: nat, a: Cell, c: Cell)
    requires hit < |keys| && keys[hit] == CKey(a) && Published(cfg, Rank(cfg.n, a), keys, c)
    ensures Published(cfg, Rank(cfg.n, a) + 1, Remove(keys, hit), c)
  {
    if c != a && CKey(c) in keys { InRemove(keys, hit, CKey(c)); }
  }

  lemma TakeOrdered(cfg: Config, s: Sys, keys: seq<Key>, r: Sys, a: Cell, hit: nat)
    requires cfg.Valid() && a == RowMajor(cfg.n, |s.c|)
    requires Progress(cfg, s, keys) && Sorted(cfg, |s.c|, keys) && Correct(cfg, s.c)
    requires 2 * cfg.Square() <= hit < |keys| && keys[hit] == CKey(a)
    requires r.workers == s.workers && r.orphans == s.orphans && r.c == s.c + [Product(cfg.n, a.i, a.j)]
    ensures Progress(cfg, r, Remove(keys, hit)) && Sorted(cfg, |r.c|, Remove(keys, hit)) && Correct(cfg, r.c)
  {
    RankOfRowMajor(cfg, |s.c|);
    SortedRemove(cfg, keys, hit, a);
    forall c: Cell | Published(cfg, |s.c|, keys, c)
      ensures Published(cfg, |r.c|, Remove(keys, hit), c)
    {
      PublishedRemove(cfg, keys, hit, a, c);
    }
    ProgressMono(cfg, s, keys, r, Remove(keys, hit));
  }

  lemma WaitOrdered(cfg: Config, s: Sys, keys: seq<Key>, r: Sys)
    requires cfg.Valid() && Progress(cfg, s, keys) && Sorted(cfg, |s.c|, keys) && Correct(cfg, s.c)
    requires r.workers == s.workers && r.orphans == s.orphans && r.c == s.c
    ensures Progress(cfg, r, keys) && Sorted(cfg, |r.c|, keys) && Correct(cfg, r.c)
  {
  }

  lemma HitOrdered(cfg: Config, s: Sys, keys: seq<Key>, r: Sys, hit: nat)
    requires cfg.Valid() && GetOutcome(cfg, s, keys, r) && hit == FirstHit(keys, CKey(RowMajor(cfg.n, |s.c|)))
    requires 2 * cfg.Square() <= hit && keys[hit] == CKey(RowMajor(cfg.n, |s.c|))
    requires Progress(cfg, s, keys) && Sorted(cfg, |s.c|, keys) && Correct(cfg, s.c)
    ensures Progress(cfg, r, Remove(keys, hit)) && Sorted(cfg, |r.c|, Remove(keys, hit)) && Correct(cfg, r.c)
  {
    TakeOrdered(cfg, s, keys, r, RowMajor(cfg.n, |s.c|), hit);
  }

  lemma GetOrdered(cfg: Config, s: Sys, keys: seq<Key>, r: Sys)
    requires cfg.Valid() && Base(cfg, s, keys) && s.phase == Collecting(false) && |s.c| < cfg.Square()
    requires Progress(cfg, s, keys) && Sorted(cfg, |s.c|, keys) && Correct(cfg, s.c)
    requires GetOutcome(cfg, s, keys, r)
    ensures var keys' := KeysAfterGet(cfg, s, keys);
            Progress(cfg, r, keys') && Sorted(cfg, |r.c|, keys') && Correct(cfg, r.c)
  {
    var hit := FirstHit(keys, CKey(RowMajor(cfg.n, |s.c|)));
    GetHitsExactly(cfg, s, keys);
    if hit >= 0 { HitOrdered(cfg, s, keys, r, hit); } else { WaitOrdered(cfg, s, keys, r); }
  }

  // ----- one step -----

  lemma SortedInitially(cfg: Config, phase: Phase, count: nat, keys: seq<Key>)
    requires cfg.Valid() && KeysOk(cfg, phase, keys) && phase.Publishing?
    ensures Sorted(cfg, count, keys)
  {
  }

  lemma PublishOrdered(cfg: Config, s: Sys, keys: seq<Key>)
    requires cfg.Valid() && Base(cfg, s, keys) && s.phase.Publishing? && s.phase.next < 2 * cfg.Square()
    ensures Ordered(cfg, ParentStep(cfg, s), keys + [InitialKey(cfg, s.phase.next)])
  {
    var key := InitialKey(cfg, s.phase.next);
    AtPublish(cfg, s, keys);
    PutOutcomes(cfg, s, keys, key, []);
    SortedInitially(cfg, Publishing(s.phase.next + 1), 0, keys + [key]);
  }

  lemma ParentOrdered(cfg: Config, s: Sys, keys: seq<Key>)
    requires cfg.Valid() && Base(cfg, s, keys) && Ordered(cfg, s, keys)
    requires Separate(cfg) || Early(ParentStep(cfg, s).phase)
    ensures Ordered(cfg, ParentStep(cfg, s), KeysAfter(cfg, s, keys, Parent))
  {
    match s.phase
    case Publishing(p) =>
      if p < 2 * cfg.Square() { PublishOrdered(cfg, s, keys); }
    case Collecting(waiting) =>
      if !waiting && |s.c| < cfg.Square() {
        GetOutcomes(cfg, s, keys);
        GetOrdered(cfg, s, keys, ServeGet(cfg, s));
      }
    case _ =>
  }

  lemma QuietOrdered(cfg: Config, s: Sys, keys: seq<Key>, k: nat)
    requires cfg.Valid() && Ordered(cfg, s, keys)
    ensures Ordered(cfg, ReapStep(cfg, s, k), keys)
    ensures Ordered(cfg, KillStep(cfg, s, k), keys)
  {
  }

  lemma AbandonOrdered(cfg: Config, s: Sys, keys: seq<Key>, k: nat)
    requires cfg.Valid() && Ordered(cfg, s, keys)
    ensures Ordered(cfg, AbandonStep(cfg, s, k), keys)
  {
  }

  /** The process' turn moves on by one published cell. */
  lemma DoneNext(cfg: Config, count: nat, keys: seq<Key>, w: nat, turn: nat)
    requires cfg.Valid() && Done(cfg, count, keys, w, turn) && PublishedTurn(cfg, count, keys, w, turn)
    ensures Done(cfg, count, keys, w, turn + 1)
  {
  }

  lemma WithWorkerOrdered(cfg: Config, s: Sys, keys: seq<Key>, k: nat, w: Worker)
    requires cfg.Valid() && Ordered(cfg, s, keys) && k < |s.workers| && Done(cfg, |s.c|, keys, w.index, w.turn)
    ensures Ordered(cfg, s.(workers := s.workers[k := w]), keys)
  {
  }

  lemma AdvancePutOrdered(cfg: Config, s: Sys, keys: seq<Key>, k: nat, sends: seq<bool>)
    requires cfg.Valid() && (Separate(cfg) || Early(s.phase)) && Base(cfg, s, keys) && Ordered(cfg, s, keys)
    requires k < |s.workers| && s.workers[k].status.Running?
    requires NextCall(cfg, s.workers[k]).Some? && NextCall(cfg, s.workers[k]).value.PutCall?
    ensures var w := s.workers[k];
            Ordered(cfg, AdvanceStep(cfg, s, k, sends),
                    KeysAfterPut(cfg, s, keys, CKey(cfg.G().CellAt(w.index, w.turn)), sends))
  {
    var w := s.workers[k];
    AdvancePut(cfg, s, keys, k, sends);
    var c := cfg.G().CellAt(w.index, w.turn);
    var r, keys' := ServePut(s, CKey(c), Product(cfg.n, c.i, c.j), sends), KeysAfterPut(cfg, s, keys, CKey(c), sends);
    PutOrdered(cfg, s, keys, w.index, w.turn, sends, r);
    assert Done(cfg, |r.c|, keys', r.workers[k].index, r.workers[k].turn);
    DoneNext(cfg, |r.c|, keys', w.index, w.turn);
    WithWorkerOrdered(cfg, r, keys', k, AfterPut(w));
  }

  lemma AdvanceReadOrdered(cfg: Config, s: Sys, keys: seq<Key>, k: nat, key: Key, sends: seq<bool>)
    requires cfg.Valid() && Base(cfg, s, keys) && Ordered(cfg, s, keys)
    requires k < |s.workers| && s.workers[k].status.Running? && NextCall(cfg, s.workers[k]) == Some(ReadCall(key))
    ensures Ordered(cfg, AdvanceStep(cfg, s, k, sends), keys)
  {
    AdvanceRead(cfg, s, keys, k, key, sends);
    WithWorkerOrdered(cfg, ServeRead(s, key, ALL_OK), keys, k, AdvanceStep(cfg, s, k, sends).workers[k]);
  }

  lemma AdvanceOrdered(cfg: Config, s: Sys, keys: seq<Key>, k: nat, sends: seq<bool>)
    requires cfg.Valid() && (Separate(cfg) || Early(s.phase)) && Base(cfg, s, keys) && Ordered(cfg, s, keys)
    ensures Ordered(cfg, AdvanceStep(cfg, s, k, sends), KeysAfter(cfg, s, keys, Advance(k, sends)))
  {
    if k < |s.workers| && s.workers[k].status.Running? {
      match NextCall(cfg, s.workers[k])
      case None => WithWorkerOrdered(cfg, s, keys, k, s.workers[k].(status := Exited));
      case Some(ReadCall(key)) => AdvanceReadOrdered(cfg, s, keys, k, key, sends);
      case Some(PutCall(_, _, _)) => AdvancePutOrdered(cfg, s, keys, k, sends);
    }
  }

  lemma WithoutOrphanOrdered(cfg: Config, s: Sys, keys: seq<Key>, o: nat)
    requires cfg.Valid() && Ordered(cfg, s, keys) && o < |s.orphans|
    ensures Ordered(cfg, s.(orphans := Remove(s.orphans, o)), keys)
  {
    var left := Remove(s.orphans, o);
    assert forall i | 0 <= i < |left| :: left[i] == s.orphans[if i < o then i else i + 1];
  }

  lemma LateReadOrdered(cfg: Config, s: Sys, keys: seq<Key>, o: nat, key: Key, writes: Writes, sends: seq<bool>)
    requires cfg.Valid() && Base(cfg, s, keys) && Ordered(cfg, s, keys)
    requires o < |s.orphans| && s.orphans[o] == ReadCall(key)
    ensures Ordered(cfg, LateStep(cfg, s, o, writes, sends), keys)
  {
    ReadExact(cfg, s, keys, key, writes);
    WithoutOrphanOrdered(cfg, s, keys, o);
  }

  lemma LatePutOrdered(cfg: Config, s: Sys, keys: seq<Key>, o: nat, writes: Writes, sends: seq<bool>)
    requires cfg.Valid() && (Separate(cfg) || Early(s.phase)) && Base(cfg, s, keys) && Ordered(cfg, s, keys)
    requires o < |s.orphans| && s.orphans[o].PutCall?
    ensures Ordered(cfg, LateStep(cfg, s, o, writes, sends),
                    KeysAfterPut(cfg, s, keys, CallKey(cfg, s.orphans[o]), sends))
  {
    var w, t := s.orphans[o].index, s.orphans[o].turn;
    LatePut(cfg, s, keys, o, writes, sends);
    var c := cfg.G().CellAt(w, t);
    var r := ServePut(s, CKey(c), Product(cfg.n, c.i, c.j), sends);
    assert OrphanDone(cfg, |s.c|, keys, s.orphans[o]);
    PutOrdered(cfg, s, keys, w, t, sends, r);
    WithoutOrphanOrdered(cfg, r, KeysAfterPut(cfg, s, keys, CKey(c), sends), o);
  }

  lemma LateOrdered(cfg: Config, s: Sys, keys: seq<Key>, o: nat, writes: Writes, sends: seq<bool>)
    requires cfg.Valid() && (Separate(cfg) || Early(s.phase)) && Base(cfg, s, keys) && Ordered(cfg, s, keys)
    ensures Ordered(cfg, LateStep(cfg, s, o, writes, sends), KeysAfter(cfg, s, keys, Late(o, writes, sends)))
  {
    if o < |s.orphans| {
      match s.orphans[o]
      case ReadCall(key) => LateReadOrdered(cfg, s, keys, o, key, writes, sends);
      case PutCall(_, _, _) => LatePutOrdered(cfg, s, keys, o, writes, sends);
    }
  }

  /** Once collection has begun it stays begun. */
  lemma EarlyBefore(cfg: Config, s: Sys, a: Action)
    requires cfg.Valid() && Early(Step(cfg, s, a).phase)
    ensures Early(s.phase)
  {
  }

  lemma {:induction false} EarlyAlong(cfg: Config, s: Sys, acts: seq<Action>)
    requires cfg.Valid() && Early(Run(cfg, s, acts).phase)
    ensures Early(s.phase)
    decreases |acts|
  {
    if acts != [] {
      EarlyAlong(cfg, Step(cfg, s, acts[0]), acts[1..]);
      EarlyBefore(cfg, s, acts[0]);
    }
  }

  lemma StepOrdered(cfg: Config, s: Sys, keys: seq<Key>, a: Action)
    requires cfg.Valid() && Base(cfg, s, keys) && Ordered(cfg, s, keys)
    requires Separate(cfg) || Early(Step(cfg, s, a).phase)
    ensures Ordered(cfg, Step(cfg, s, a), KeysAfter(cfg, s, keys, a))
  {
    if Early(Step(cfg, s, a).phase) { EarlyBefore(cfg, s, a); }
    match a
    case Parent => ParentOrdered(cfg, s, keys);
    case Reap(k) => QuietOrdered(cfg, s, keys, k);
    case Advance(k, sends) => AdvanceOrdered(cfg, s, keys, k, sends);
    case Kill(k) => QuietOrdered(cfg, s, keys, k);
    case Abandon(k) => AbandonOrdered(cfg, s, keys, k);
    case Late(o, writes, sends) => LateOrdered(cfg, s, keys, o, writes, sends);
  }

  lemma {:induction false} RunOrdered(cfg: Config, s: Sys, keys: seq<Key>, acts: seq<Action>)
    requires cfg.Valid() && Base(cfg, s, keys) && Ordered(cfg, s, keys)
    requires Separate(cfg) || Early(Run(cfg, s, acts).phase)
    ensures Ordered(cfg, Run(cfg, s, acts), KeysAlong(cfg, s, keys, acts))
    decreases |acts|
  {
    if acts != [] {
      var r := Step(cfg, s, acts[0]);
      if Early(Run(cfg, s, acts).phase) { EarlyAlong(cfg, r, acts[1..]); }
      StepBase(cfg, s, keys, acts[0]);
      StepOrdered(cfg, s, keys, acts[0]);
      RunOrdered(cfg, r, KeysAfter(cfg, s, keys, acts[0]), acts[1..]);
    }
  }
}
