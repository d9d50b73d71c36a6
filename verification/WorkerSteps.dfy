/** What a worker of the transition system does at each point of its loops: which
    exchange it makes, with what in it, and where it is afterwards. */
module WorkerSteps {
  import opened TupleSpace
  import opened Keys
  import opened Tiling
  import opened Products
  import opened MatrixProtocol
  import opened ProtocolBase
  import opened EndToEnd

  /** Worker k is running at this cell. */
  predicate AtCell(cfg: Config, s: Sys, k: nat, c: Cell)
    requires cfg.Valid()
  {
    && k < |s.workers| && s.workers[k].status == Running
    && cfg.G().HasCell(s.workers[k].index, s.workers[k].turn)
    && cfg.G().CellAt(s.workers[k].index, s.workers[k].turn) == c
  }

  lemma CallAtCell(cfg: Config, s: Sys, k: nat, c: Cell)
    requires cfg.Valid() && AtCell(cfg, s, k, c)
    ensures var w := s.workers[k];
            NextCall(cfg, w) == Some(
              if w.k >= cfg.n then PutCall(w.index, w.turn, w.sum)
              else if w.a.None? then ReadCall(Key('A', c.i, w.k))
              else ReadCall(Key('B', w.k, c.j)))
  {
  }

  /** In round k of its cell the worker READs A_i_k and then B_k_j; after the last
      round it PUTs its sum as a numeral with a NUL. One connection each time. */
  lemma WorkerSends(cfg: Config, s: Sys, k: nat, c: Cell, sends: seq<bool>)
    requires cfg.Valid() && AtCell(cfg, s, k, c)
    ensures var w := s.workers[k];
            ConnectionsOf(cfg, s, Advance(k, sends)) == [
              if w.k >= cfg.n then
                PutConn(Some(PutHeader(Name(Key('C', c.i, c.j)), 1, 0, 0)), true, Some(Format(w.sum) + "\0"), true, sends)
              else
                GetConn(READ, Some(GetHeader(Name(if w.a.None? then Key('A', c.i, w.k) else Key('B', w.k, c.j)), 0, 0, 0, 0, 0)),
                        true, Writes(true, true, true))]
  {
    CallAtCell(cfg, s, k, c);
  }

  lemma AnswerTo(cfg: Config, s: Sys, keys: seq<Key>, k: nat, key: Key) returns (data: string)
    requires cfg.Valid() && Base(cfg, s, keys) && k < |s.workers| && NextCall(cfg, s.workers[k]) == Some(ReadCall(key))
    ensures GetReply(SEARCH, s.server, Name(key), 0, true, ALL_OK) == Present(Name(key), PRIORITY, data)
    ensures Atoi(data) == ValueOf(cfg.n, key)
  {
    NextCallOk(cfg, s.workers[k]);
    ReadExact(cfg, s, keys, key, ALL_OK);
    data := Encode(ValueOf(cfg.n, key));
  }

  /** A READ that is answered moves its worker and no other. */
  lemma ReadMoves(cfg: Config, s: Sys, k: nat, key: Key, data: string, sends: seq<bool>) returns (w': Worker)
    requires cfg.Valid() && k < |s.workers| && s.workers[k].status.Running?
    requires NextCall(cfg, s.workers[k]) == Some(ReadCall(key))
    requires GetReply(SEARCH, s.server, Name(key), 0, true, ALL_OK) == Present(Name(key), PRIORITY, data)
    ensures w' == AfterRead(s.workers[k], data) && AdvanceStep(cfg, s, k, sends).workers == s.workers[k := w']
  {
    w' := AfterRead(s.workers[k], data);
  }

  lemma TakesA(n: nat, c: Cell, w: Worker, data: string) returns (v: int)
    requires w.a == None && Atoi(data) == ValueOf(n, Key('A', c.i, w.k))
    ensures AfterRead(w, data) == w.(a := Some(v)) && v == 1 + c.i + w.k
  {
    v := Atoi(data);
  }

  lemma TakesB(cfg: Config, c: Cell, w: Worker, data: string) returns (sum: int)
    requires cfg.Valid() && WorkerOk(cfg, w) && w.status.Running? && w.k < cfg.n && w.a.Some?
    requires cfg.G().HasCell(w.index, w.turn) && cfg.G().CellAt(w.index, w.turn) == c
    requires Atoi(data) == ValueOf(cfg.n, Key('B', w.k, c.j))
    ensures AfterRead(w, data) == w.(a := None, k := w.k + 1, sum := sum) && sum == PartialSum(c.i, c.j, w.k + 1)
  {
    sum := AfterRead(w, data).sum;
    AfterReadOk(cfg, w, Key('B', w.k, c.j), data);
  }

  /** The first READ of a round gives 1 + i + k. */
  lemma FirstRead(cfg: Config, s: Sys, keys: seq<Key>, k: nat, c: Cell, sends: seq<bool>) returns (w': Worker, v: int)
    requires cfg.Valid() && Base(cfg, s, keys) && AtCell(cfg, s, k, c)
    requires s.workers[k].k < cfg.n && s.workers[k].a == None
    ensures w' == s.workers[k].(a := Some(v)) && v == 1 + c.i + s.workers[k].k
    ensures AdvanceStep(cfg, s, k, sends).workers == s.workers[k := w']
  {
    var key := Key('A', c.i, s.workers[k].k);
    CallAtCell(cfg, s, k, c);
    var data := AnswerTo(cfg, s, keys, k, key);
    v := TakesA(cfg.n, c, s.workers[k], data);
    w' := ReadMoves(cfg, s, k, key, data, sends);
  }

  /** The second completes the round: the sum is that of the first k + 1 products. */
  lemma SecondRead(cfg: Config, s: Sys, keys: seq<Key>, k: nat, c: Cell, sends: seq<bool>) returns (w': Worker, sum: int)
    requires cfg.Valid() && Base(cfg, s, keys) && AtCell(cfg, s, k, c)
    requires s.workers[k].k < cfg.n && s.workers[k].a.Some?
    ensures w' == s.workers[k].(a := None, k := s.workers[k].k + 1, sum := sum)
    ensures sum == PartialSum(c.i, c.j, s.workers[k].k + 1)
    ensures AdvanceStep(cfg, s, k, sends).workers == s.workers[k := w']
  {
    var key := Key('B', s.workers[k].k, c.j);
    CallAtCell(cfg, s, k, c);
    var data := AnswerTo(cfg, s, keys, k, key);
    sum := TakesB(cfg, c, s.workers[k], data);
    w' := ReadMoves(cfg, s, k, key, data, sends);
  }

  /** What is put after the last round is the inner product of the cell. */
  lemma SumIsProduct(cfg: Config, s: Sys, keys: seq<Key>, k: nat, c: Cell)
    requires cfg.Valid() && Base(cfg, s, keys) && AtCell(cfg, s, k, c) && s.workers[k].k >= cfg.n
    ensures s.workers[k].sum == Product(cfg.n, c.i, c.j)
  {
    assert WorkerOk(cfg, s.workers[k]);
  }

  /** After the PUT the worker is at the beginning of its next turn. */
  lemma LastPut(cfg: Config, s: Sys, k: nat, c: Cell, sends: seq<bool>) returns (w': Worker)
    requires cfg.Valid() && AtCell(cfg, s, k, c) && s.workers[k].k >= cfg.n
    ensures w' == Worker(s.workers[k].index, s.workers[k].turn + 1, 0, None, 0, Running, s.workers[k].reaped)
    ensures AdvanceStep(cfg, s, k, sends).workers == s.workers[k := w']
  {
    CallAtCell(cfg, s, k, c);
    w' := AfterPut(s.workers[k]);
  }

  /** Without a cell left the worker exits and says nothing. */
  lemma LastExit(cfg: Config, s: Sys, k: nat, sends: seq<bool>)
    requires cfg.Valid() && k < |s.workers| && s.workers[k].status == Running
    requires !cfg.G().HasCell(s.workers[k].index, s.workers[k].turn)
    ensures ConnectionsOf(cfg, s, Advance(k, sends)) == []
    ensures AdvanceStep(cfg, s, k, sends) == s.(workers := s.workers[k := s.workers[k].(status := Exited)])
  {
  }
}
