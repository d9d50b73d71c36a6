/** The matrix runs on the server: what the actions of a schedule send to it is a
    sequence of connections, and the state in the run is the state that serving
    these connections gives, on values and on the heap. */
module EndToEnd {
  import opened TupleSpace
  import opened ServerInvariants
  import opened Keys
  import opened Naturals
  import opened Tiling
  import opened MatrixProtocol
  import opened ProtocolBase
  import opened TshServer

  /** The client's PUT, READ and GET as the server sees them. */
  function PutOf(key: Key, value: int, sends: seq<bool>): Connection {
    PutConn(Some(PutHeader(Name(key), PRIORITY, 0, 0)), true, Some(Encode(value)), true, sends)
  }

  function GetOf(key: Key, op: Op, w: Writes): Connection {
    GetConn(op, Some(GetHeader(Name(key), 0, 0, 0, 0, 0)), true, w)
  }

  /** The connections of one action, one or none. */
  function ConnectionsOf(cfg: Config, s: Sys, a: Action): seq<Connection>
    requires cfg.Valid()
  {
    match a
    case Parent =>
      if s.phase.Publishing? && s.phase.next < 2 * cfg.Square() then
        var key := InitialKey(cfg, s.phase.next);
        [PutOf(key, ValueOf(cfg.n, key), [])]
      else if s.phase == Collecting(false) && |s.c| < cfg.Square() then
        [GetOf(CKey(RowMajor(cfg.n, |s.c|)), GET, ALL_OK)]
      else []
    case Advance(k, sends) =>
      if k < |s.workers| && s.workers[k].status.Running? then
        match NextCall(cfg, s.workers[k])
        case None => []
        case Some(call) => [CallConnection(cfg, call, ALL_OK, sends)]
      else []
    case Late(o, writes, sends) =>
      if o < |s.orphans| then [CallConnection(cfg, s.orphans[o], writes, sends)] else []
    case _ => []
  }

  function CallConnection(cfg: Config, call: Call, writes: Writes, sends: seq<bool>): Connection
    requires cfg.Valid()
  {
    match call
    case ReadCall(key) => GetOf(key, READ, writes)
    case PutCall(_, _, value) => PutOf(CallKey(cfg, call), value, sends)
  }

  /** The connections of a schedule. */
  function Connections(cfg: Config, s: Sys, acts: seq<Action>): seq<Connection>
    requires cfg.Valid()
    decreases |acts|
  {
    if acts == [] then [] else ConnectionsOf(cfg, s, acts[0]) + Connections(cfg, Step(cfg, s, acts[0]), acts[1..])
  }

  lemma NobodyGuarded(s: Server)
    requires Inv(SEARCH, s)
    ensures !Guard(s, 0, 0)
  {
    FaithfulFaults(s);
  }

  /** The exchanges of the transition system are the server's steps and replies. */
  lemma ExchangeServed(s: Sys, key: Key, value: int, op: Op, w: Writes, sends: seq<bool>)
    requires Inv(SEARCH, s.server)
    ensures ServePut(s, key, value, sends).server == Handle(SEARCH, s.server, PutOf(key, value, sends))
    ensures Get(SEARCH, s.server, ClientRequest(key, op), 0, true, w) == Handle(SEARCH, s.server, GetOf(key, op, w))
    ensures GetReply(SEARCH, s.server, Name(key), 0, true, w) == ReplyTo(SEARCH, s.server, GetOf(key, op, w))
  {
    NobodyGuarded(s.server);
  }

  function HandleAll(s: Server, cs: seq<Connection>): Server
    decreases |cs|
  {
    if cs == [] then s else HandleAll(Handle(SEARCH, s, cs[0]), cs[1..])
  }

  lemma ParentServed(cfg: Config, s: Sys)
    requires cfg.Valid() && Inv(SEARCH, s.server)
    ensures ParentStep(cfg, s).server == HandleAll(s.server, ConnectionsOf(cfg, s, Parent))
  {
    if s.phase.Publishing? && s.phase.next < 2 * cfg.Square() {
      var key := InitialKey(cfg, s.phase.next);
      ExchangeServed(s, key, ValueOf(cfg.n, key), GET, ALL_OK, []);
    } else if s.phase == Collecting(false) && |s.c| < cfg.Square() {
      ExchangeServed(s, CKey(RowMajor(cfg.n, |s.c|)), 0, GET, ALL_OK, []);
    }
  }

  lemma AdvanceServed(cfg: Config, s: Sys, k: nat, sends: seq<bool>)
    requires cfg.Valid() && Inv(SEARCH, s.server)
    ensures AdvanceStep(cfg, s, k, sends).server == HandleAll(s.server, ConnectionsOf(cfg, s, Advance(k, sends)))
  {
    if k < |s.workers| && s.workers[k].status.Running? {
      match NextCall(cfg, s.workers[k])
      case None =>
      case Some(ReadCall(key)) => ExchangeServed(s, key, 0, READ, ALL_OK, sends);
      case Some(PutCall(index, turn, value)) =>
        ExchangeServed(s, CKey(cfg.G().CellAt(index, turn)), value, READ, ALL_OK, sends);
    }
  }

  lemma LateServed(cfg: Config, s: Sys, o: nat, writes: Writes, sends: seq<bool>)
    requires cfg.Valid() && Inv(SEARCH, s.server)
    ensures LateStep(cfg, s, o, writes, sends).server
            == HandleAll(s.server, ConnectionsOf(cfg, s, Late(o, writes, sends)))
  {
    if o < |s.orphans| {
      match s.orphans[o]
      case ReadCall(key) => ExchangeServed(s, key, 0, READ, writes, sends);
      case PutCall(_, _, value) => ExchangeServed(s, CallKey(cfg, s.orphans[o]), value, READ, writes, sends);
    }
  }

  lemma StepServed(cfg: Config, s: Sys, a: Action)
    requires cfg.Valid() && Inv(SEARCH, s.server)
    ensures Step(cfg, s, a).server == HandleAll(s.server, ConnectionsOf(cfg, s, a))
  {
    match a
    case Parent => ParentServed(cfg, s);
    case Advance(k, sends) => AdvanceServed(cfg, s, k, sends);
    case Late(o, writes, sends) => LateServed(cfg, s, o, writes, sends);
    case _ =>
  }

  lemma {:induction false} ServeMore(before: seq<Connection>, cs: seq<Connection>)
    ensures Serve(SEARCH, before + cs) == HandleAll(Serve(SEARCH, before), cs)
    decreases |cs|
  {
    if cs == [] {
      assert before + cs == before;
    } else {
      assert before + cs == (before + [cs[0]]) + cs[1..];
      assert (before + [cs[0]])[..|before|] == before;
      ServeMore(before + [cs[0]], cs[1..]);
    }
  }

  lemma StepServedAfter(cfg: Config, s: Sys, before: seq<Connection>, a: Action)
    requires cfg.Valid() && s.server == Serve(SEARCH, before)
    ensures Step(cfg, s, a).server == Serve(SEARCH, before + ConnectionsOf(cfg, s, a))
  {
    ServeInv(SEARCH, before);
    StepServed(cfg, s, a);
    ServeMore(before, ConnectionsOf(cfg, s, a));
  }

  lemma Assoc(xs: seq<Connection>, ys: seq<Connection>, zs: seq<Connection>)
    ensures xs + ys + zs == xs + (ys + zs)
  {
  }

  lemma {:induction false} RunServedFrom(cfg: Config, s: Sys, before: seq<Connection>, acts: seq<Action>)
    requires cfg.Valid() && s.server == Serve(SEARCH, before)
    ensures Run(cfg, s, acts).server == Serve(SEARCH, before + Connections(cfg, s, acts))
    decreases |acts|
  {
    if acts == [] {
      assert before + Connections(cfg, s, acts) == before;
    } else {
      var cs, r := ConnectionsOf(cfg, s, acts[0]), Step(cfg, s, acts[0]);
      StepServedAfter(cfg, s, before, acts[0]);
      RunServedFrom(cfg, r, before + cs, acts[1..]);
      Assoc(before, cs, Connections(cfg, r, acts[1..]));
    }
  }

  /** Every run of the matrix programs is a run of the server. */
  lemma RunServed(cfg: Config, acts: seq<Action>)
    requires cfg.Valid()
    ensures Run(cfg, INIT, acts).server == Serve(SEARCH, Connections(cfg, INIT, acts))
  {
    RunServedFrom(cfg, INIT, [], acts);
    assert [] + Connections(cfg, INIT, acts) == Connections(cfg, INIT, acts);
  }

  // ----- abandoned exchanges -----

  lemma ThreeActions(cfg: Config, s: Sys, a: Action, b: Action, c: Action) returns (x: Sys, y: Sys, z: Sys)
    requires cfg.Valid()
    ensures x == Step(cfg, s, a) && y == Step(cfg, x, b) && z == Step(cfg, y, c)
    ensures Run(cfg, s, [a, b, c]) == z
    ensures Connections(cfg, s, [a, b, c]) == ConnectionsOf(cfg, s, a) + ConnectionsOf(cfg, x, b) + ConnectionsOf(cfg, y, c)
  {
    x := Step(cfg, s, a);
    y := Step(cfg, x, b);
    z := Step(cfg, y, c);
    assert [a, b, c][1..] == [b, c] && [b, c][1..] == [c] && [c][1..] == [];
    assert Run(cfg, z, []) == z && Run(cfg, y, [c]) == z && Run(cfg, x, [b, c]) == z;
    assert Connections(cfg, y, [c]) == ConnectionsOf(cfg, y, c) + Connections(cfg, z, []);
    assert Connections(cfg, x, [b, c]) == ConnectionsOf(cfg, x, b) + Connections(cfg, y, [c]);
  }

  predicate Calling(cfg: Config, s: Sys, k: nat, call: Call)
    requires cfg.Valid()
  {
    cfg.program.MATRIX_C? && k < |s.workers| && s.workers[k].status.Running? && NextCall(cfg, s.workers[k]) == Some(call)
  }

  lemma Abandoned(cfg: Config, s: Sys, k: nat, call: Call)
    requires cfg.Valid() && Calling(cfg, s, k, call)
    ensures Step(cfg, s, Abandon(k)) == s.(orphans := s.orphans + [call]) && ConnectionsOf(cfg, s, Abandon(k)) == []
  {
  }

  lemma LastOrphan(cfg: Config, s: Sys, writes: Writes, sends: seq<bool>)
    requires cfg.Valid() && s.orphans != []
    ensures var o: nat, r := |s.orphans| - 1, Step(cfg, s, Late(|s.orphans| - 1, writes, sends));
            && r.orphans == s.orphans[..o] && r.workers == s.workers
            && ConnectionsOf(cfg, s, Late(o, writes, sends)) == [CallConnection(cfg, s.orphans[o], writes, sends)]
  {
  }

  /** After a timeout the worker makes the same call again: the server sees it twice,
      the worker goes on once. */
  lemma RetrySeenTwice(cfg: Config, s: Sys, k: nat, call: Call, sends: seq<bool>, writes: Writes, late: seq<bool>)
    requires cfg.Valid() && Calling(cfg, s, k, call)
    ensures var acts := [Abandon(k), Advance(k, sends), Late(|s.orphans|, writes, late)];
            && Connections(cfg, s, acts) ==
                 [CallConnection(cfg, call, ALL_OK, sends), CallConnection(cfg, call, writes, late)]
            && Run(cfg, s, acts).workers == Step(cfg, s, Advance(k, sends)).workers
            && Run(cfg, s, acts).orphans == s.orphans
  {
    var x, y, z := ThreeActions(cfg, s, Abandon(k), Advance(k, sends), Late(|s.orphans|, writes, late));
    Abandoned(cfg, s, k, call);
    WithOrphan(cfg, s, k, call, sends);
    LastOrphan(cfg, y, writes, late);
  }

  /** An exchange that the server has not seen yet does not change the next one. */
  lemma WithOrphan(cfg: Config, s: Sys, k: nat, call: Call, sends: seq<bool>)
    requires cfg.Valid() && Calling(cfg, s, k, call)
    ensures var x := s.(orphans := s.orphans + [call]);
            && AdvanceStep(cfg, x, k, sends).workers == AdvanceStep(cfg, s, k, sends).workers
            && AdvanceStep(cfg, x, k, sends).orphans == s.orphans + [call]
            && ConnectionsOf(cfg, x, Advance(k, sends)) == [CallConnection(cfg, call, ALL_OK, sends)]
  {
  }

  /** A worker that is killed in an exchange: the server still sees that one call. */
  lemma LastCallSeen(cfg: Config, s: Sys, k: nat, call: Call, writes: Writes, sends: seq<bool>)
    requires cfg.Valid() && Calling(cfg, s, k, call)
    ensures var acts := [Abandon(k), Kill(k), Late(|s.orphans|, writes, sends)];
            && Connections(cfg, s, acts) == [CallConnection(cfg, call, writes, sends)]
            && Run(cfg, s, acts).workers == s.workers[k := s.workers[k].(status := Killed)]
            && Run(cfg, s, acts).orphans == s.orphans
  {
    var x, y, z := ThreeActions(cfg, s, Abandon(k), Kill(k), Late(|s.orphans|, writes, sends));
    Abandoned(cfg, s, k, call);
    LastOrphan(cfg, y, writes, sends);
  }

  /** The heap server, given the connections of a schedule, comes to the state of the
      run and gives the replies that the run's clients see. */
  method RunOnHeap(cfg: Config, acts: seq<Action>) returns (tsh: Tsh, replies: seq<Reply>)
    requires cfg.Valid()
    ensures tsh.Valid() && tsh.view == Run(cfg, INIT, acts).server
    ensures replies == Replies(SEARCH, Connections(cfg, INIT, acts))
  {
    tsh, replies := Start(SEARCH, Connections(cfg, INIT, acts));
    RunServed(cfg, acts);
  }
}
