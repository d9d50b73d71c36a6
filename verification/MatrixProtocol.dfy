/** The matrix multiplication of tsh/matrix.c and tsh/matrixrun.c as a transition
    system over the tuple space server: a parent that publishes A and B, forks and
    waits, respawns dead workers, and then collects C; and any number of worker
    processes, each at some point of its loops.

    An action names what happens next, so a sequence of actions is a schedule: any
    interleaving, any pattern of kills, timeouts and respawns. Actions that are
    not possible in a state leave it as it is. */
module MatrixProtocol {
  import opened TupleSpace
  import opened Keys
  import opened Naturals
  import opened Tiling
  import opened Products

  const TILE: nat := 2

  /** MATRIX_C has the chaos monkey, the timeouts and the respawning parent;
      MATRIXRUN only waits for its workers. */
  datatype Program = MATRIX_C | MATRIXRUN

  datatype Config = Config(program: Program, n: nat, workers: nat) {
    /** What main checks of its arguments. */
    predicate Valid() {
      1 <= n && 1 <= workers <= n * n
    }

    function G(): Grid {
      Grid(n, TILE, workers)
    }

    /** N * N. */
    function Square(): nat {
      Times(n, n)
    }
  }

  // ----- keys and values -----

  /** Value v as the client stores it: strlen(val) + 1 characters. */
  function Encode(v: int): string {
    Format(v) + "\0"
  }

  function RowMajor(n: nat, p: nat): Cell
    requires n > 0
  {
    Cell(Quot(p, n), Rem(p, n))
  }

  function Rank(n: nat, c: Cell): nat {
    Times(c.i, n) + c.j
  }

  /** The key and the value of the p-th PUT of the two initializations. */
  function InitialKey(cfg: Config, p: nat): Key
    requires cfg.n > 0
  {
    if p < cfg.Square() then Key('A', RowMajor(cfg.n, p).i, RowMajor(cfg.n, p).j)
    else Key('B', RowMajor(cfg.n, p - cfg.Square()).i, RowMajor(cfg.n, p - cfg.Square()).j)
  }

  /** Position p of the collected values is the inner product of row p / n and
      column p % n. */
  ghost predicate RightValues(n: nat, c: seq<int>)
    requires n > 0
  {
    forall p | 0 <= p < |c| :: c[p] == Product(n, p / n, p % n)
  }

  function CKey(c: Cell): Key {
    Key('C', c.i, c.j)
  }

  /** The value that belongs under a key. */
  function ValueOf(n: nat, key: Key): int {
    if key.kind == 'A' then Entry(INIT_A, key.i, key.j)
    else if key.kind == 'B' then Entry(INIT_B, key.i, key.j)
    else Product(n, key.i, key.j)
  }

  // ----- processes -----

  datatype Status = Running | Blocked | Exited | Killed

  /** A worker process between two exchanges with the server: it is at its
      `turn`-th cell, has done `k` rounds of the inner product, and `a` holds the
      value of A it has already read in the current round. */
  datatype Worker = Worker(index: nat, turn: nat, k: nat, a: Option<int>, sum: int, status: Status, reaped: bool)

  function NewWorker(index: nat): Worker {
    Worker(index, 0, 0, None, 0, Running, false)
  }

  /** The parent: `next` counts the PUTs of the initializations, the forks; `left`
      is to_wait; `waiting` means that the current GET was queued. */
  datatype Phase =
    | Publishing(next: nat)
    | Forking(next: nat)
    | Watching(left: nat)
    | Collecting(waiting: bool)
    | Finished

  /** An exchange with the server that a worker starts. */
  datatype Call = ReadCall(key: Key) | PutCall(index: nat, turn: nat, value: int)

  /** `orphans` are exchanges whose worker no longer waits for them, because it
      timed out or was killed, and which the server has not handled yet; `c` is
      what the master has stored, in the order of its loops. */
  datatype Sys = Sys(server: Server, phase: Phase, workers: seq<Worker>, orphans: seq<Call>, c: seq<int>)

  const INIT: Sys := Sys(EMPTY, Publishing(0), [], [], [])

  // ----- exchanges -----

  const PRIORITY: nat := 1
  const ALL_OK := Writes(true, true, true)

  /** The client leaves len and proc_id unset; they are 0 here. */
  function ClientRequest(key: Key, op: Op): Request {
    Request(Name(key), 0, 0, 0, 0, op)
  }

  function ServeRead(s: Sys, key: Key, w: Writes): Sys {
    s.(server := Get(SEARCH, s.server, ClientRequest(key, READ), 0, true, w))
  }

  /** The server handles a PUT. If the tuple goes to the waiting GET, which only
      the master can have issued, the master stores it and goes on. */
  function ServePut(s: Sys, key: Key, value: int, sends: seq<bool>): Sys {
    var t := NewTuple(s.server, Name(key), Encode(value), PRIORITY);
    var r := s.(server := Put(SEARCH, s.server, Name(key), Encode(value), PRIORITY, sends));
    if Winner(SEARCH, s.server, t, sends).Some? && s.phase == Collecting(true) then
      r.(c := s.c + [Atoi(t.data)], phase := Collecting(false))
    else r
  }

  /** The master's next GET; the answer is stored at once or the request waits. */
  function ServeGet(cfg: Config, s: Sys): Sys
    requires cfg.n > 0
  {
    var key := CKey(RowMajor(cfg.n, |s.c|));
    var r := s.(server := Get(SEARCH, s.server, ClientRequest(key, GET), 0, true, ALL_OK));
    match GetReply(SEARCH, s.server, Name(key), 0, true, ALL_OK)
    case Present(_, _, data) => r.(c := s.c + [Atoi(data)])
    case _ => r.(phase := Collecting(true))
  }

  // ----- actions -----

  /** What a running worker does next; None is the end of its loops. */
  function NextCall(cfg: Config, w: Worker): Option<Call>
    requires cfg.workers > 0
  {
    if !cfg.G().HasCell(w.index, w.turn) then None
    else
      var c := cfg.G().CellAt(w.index, w.turn);
      if w.k >= cfg.n then Some(PutCall(w.index, w.turn, w.sum))
      else if w.a.None? then Some(ReadCall(Key('A', c.i, w.k)))
      else Some(ReadCall(Key('B', w.k, c.j)))
  }

  /** The worker after its READ was answered with `data`. */
  function AfterRead(w: Worker, data: string): Worker {
    if w.a.None? then w.(a := Some(Atoi(data)))
    else w.(a := None, k := w.k + 1, sum := w.sum + w.a.value * Atoi(data))
  }

  function AfterPut(w: Worker): Worker {
    w.(turn := w.turn + 1, k := 0, a := None, sum := 0)
  }

  function CallKey(cfg: Config, call: Call): Key
    requires cfg.workers > 0
  {
    match call
    case ReadCall(key) => key
    case PutCall(index, turn, _) => if cfg.G().HasCell(index, turn) then CKey(cfg.G().CellAt(index, turn)) else Key('C', 0, 0)
  }

  datatype Action =
    | Parent
    | Reap(k: nat)
    | Advance(k: nat, sends: seq<bool>)
    | Kill(k: nat)
    | Abandon(k: nat)
    | Late(o: nat, writes: Writes, sends: seq<bool>)

  function ParentStep(cfg: Config, s: Sys): Sys
    requires cfg.n > 0
  {
    match s.phase
    case Publishing(p) =>
      if p < 2 * cfg.Square() then
        var key := InitialKey(cfg, p);
        ServePut(s, key, ValueOf(cfg.n, key), []).(phase := Publishing(p + 1))
      else s.(phase := Forking(0))
    case Forking(w) =>
      if w < cfg.workers then s.(workers := s.workers + [NewWorker(w)], phase := Forking(w + 1))
      else s.(phase := Watching(cfg.workers))
    case Watching(left) => if left == 0 then s.(phase := Collecting(false)) else s
    case Collecting(waiting) =>
      if waiting then s
      else if |s.c| < cfg.Square() then ServeGet(cfg, s)
      else s.(phase := Finished)
    case Finished => s
  }

  /** wait() returns the k-th process; matrix.c forks its successor. */
  function ReapStep(cfg: Config, s: Sys, k: nat): Sys {
    if s.phase.Watching? && s.phase.left > 0 && k < |s.workers| && !s.workers[k].reaped
       && (s.workers[k].status.Exited? || s.workers[k].status.Killed?) then
      var left := s.workers[k := s.workers[k].(reaped := true)];
      s.(workers := if cfg.program.MATRIX_C? then left + [NewWorker(s.workers[k].index)] else left,
         phase := Watching(s.phase.left - 1))
    else s
  }

  /** One exchange of the k-th process, or its exit. */
  function AdvanceStep(cfg: Config, s: Sys, k: nat, sends: seq<bool>): Sys
    requires cfg.workers > 0
  {
    if k < |s.workers| && s.workers[k].status.Running? then
      var w := s.workers[k];
      match NextCall(cfg, w)
      case None => s.(workers := s.workers[k := w.(status := Exited)])
      case Some(ReadCall(key)) =>
        var r := ServeRead(s, key, ALL_OK);
        (match GetReply(SEARCH, s.server, Name(key), 0, true, ALL_OK)
         case Present(_, _, data) => r.(workers := s.workers[k := AfterRead(w, data)])
         case _ => r.(workers := s.workers[k := w.(status := Blocked)]))
      case Some(PutCall(_, _, value)) =>
        var r := ServePut(s, CKey(cfg.G().CellAt(w.index, w.turn)), value, sends);
        r.(workers := s.workers[k := AfterPut(w)])
    else s
  }

  /** SIGKILL between two exchanges, of any worker process (see ChaosMonkey). */
  function KillStep(cfg: Config, s: Sys, k: nat): Sys {
    if cfg.program.MATRIX_C? && k < |s.workers| && (s.workers[k].status.Running? || s.workers[k].status.Blocked?) then
      s.(workers := s.workers[k := s.workers[k].(status := Killed)])
    else s
  }

  /** The k-th process starts its next exchange and stops waiting for it: after a
      timeout it starts it again, and it may be killed instead. */
  function AbandonStep(cfg: Config, s: Sys, k: nat): Sys
    requires cfg.workers > 0
  {
    if cfg.program.MATRIX_C? && k < |s.workers| && s.workers[k].status.Running? && NextCall(cfg, s.workers[k]).Some? then
      s.(orphans := s.orphans + [NextCall(cfg, s.workers[k]).value])
    else s
  }

  /** The server gets to an abandoned exchange. */
  function LateStep(cfg: Config, s: Sys, o: nat, writes: Writes, sends: seq<bool>): Sys
    requires cfg.workers > 0
  {
    if o < |s.orphans| then
      var r := match s.orphans[o]
               case ReadCall(key) => ServeRead(s, key, writes)
               case PutCall(_, _, value) => ServePut(s, CallKey(cfg, s.orphans[o]), value, sends);
      r.(orphans := Remove(s.orphans, o))
    else s
  }

  function Step(cfg: Config, s: Sys, a: Action): Sys
    requires cfg.Valid()
  {
    match a
    case Parent => ParentStep(cfg, s)
    case Reap(k) => ReapStep(cfg, s, k)
    case Advance(k, sends) => AdvanceStep(cfg, s, k, sends)
    case Kill(k) => KillStep(cfg, s, k)
    case Abandon(k) => AbandonStep(cfg, s, k)
    case Late(o, writes, sends) => LateStep(cfg, s, o, writes, sends)
  }

  function Run(cfg: Config, s: Sys, acts: seq<Action>): Sys
    requires cfg.Valid()
    decreases |acts|
  {
    if acts == [] then s else Run(cfg, Step(cfg, s, acts[0]), acts[1..])
  }
}
