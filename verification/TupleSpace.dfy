/** The tuple space server of tsh/tsh.c on values.

    One accepted connection is one atomic step, because the server's main loop
    handles a connection completely before it accepts the next. Everything the
    server cannot decide itself (what arrives, whether a write or a connection
    back to a waiting client succeeds) is a parameter of the step.

    Regular expression search is a parameter too: a `Matcher` says whether an
    expression matches a tuple name. */
module TupleSpace {

  datatype Option<+T> = None | Some(value: T)

  type Matcher = (string, string) -> bool

  datatype Op = GET | READ

  /** A stored tuple. `buf` identifies the malloc'ed payload buffer: buffers are
      numbered in the order in which the server accepts them, so `buf` also
      names the PUT instance the tuple came from. */
  datatype Tuple = Tuple(name: string, buf: nat, data: string, priority: nat)

  /** A waiting READ or GET. */
  datatype Request = Request(expr: string, host: int, port: int, cidport: int, procId: int, op: Op)

  /** The last tuple consumed by a process. */
  datatype Backup = Backup(tuple: Tuple, host: int, port: int, cidport: int, procId: int, fault: int)

  /** One attempt to send a tuple to a client. `waited` tells a call-back to a
      queued request from a direct reply. */
  datatype Delivery = Delivery(req: Request, tuple: Tuple, ok: bool, waited: bool)

  /** `freed` lists the payload buffers released so far, `issued` counts the
      buffers accepted so far, `log` is the history of delivery attempts. */
  datatype Server = Server(
    space: seq<Tuple>,
    queue: seq<Request>,
    backups: seq<Backup>,
    freed: seq<nat>,
    issued: nat,
    fetched: nat,
    log: seq<Delivery>)

  const EMPTY: Server := Server([], [], [], [], 0, 0, [])

  // ----- lookup in the tuple list -----

  /** findTuple: the leftmost match of maximal priority, or -1. */
  function Find(m: Matcher, space: seq<Tuple>, expr: string): (r: int)
    ensures -1 <= r < |space|
    ensures r == -1 <==> forall i | 0 <= i < |space| :: !m(expr, space[i].name)
    ensures r >= 0 ==> m(expr, space[r].name)
    ensures r >= 0 ==> forall i | 0 <= i < |space| && m(expr, space[i].name) ::
                         && space[i].priority <= space[r].priority
                         && (i < r ==> space[i].priority < space[r].priority)
  {
    if space == [] then -1
    else
      var n := |space| - 1;
      var high := Find(m, space[..n], expr);
      if m(expr, space[n].name) && (high == -1 || space[n].priority > space[high].priority) then n else high
  }

  /** Position of the tuple with this name, or -1. */
  function IndexOf(space: seq<Tuple>, name: string): (r: int)
    ensures -1 <= r < |space|
    ensures r == -1 <==> forall i | 0 <= i < |space| :: space[i].name != name
    ensures r >= 0 ==> space[r].name == name && forall i | 0 <= i < r :: space[i].name != name
  {
    if space == [] then -1
    else if space[0].name == name then 0
    else
      var r := IndexOf(space[1..], name);
      if r == -1 then -1 else r + 1
  }

  function Remove<T>(s: seq<T>, i: nat): (r: seq<T>)
    requires i < |s|
    ensures |r| == |s| - 1
  {
    s[..i] + s[i + 1..]
  }

  // ----- waiting requests -----

  datatype Consumed = Consumed(kept: seq<Request>, log: seq<Delivery>, winner: Option<Request>)

  /** consumeTuple in one pass over the queue. The k-th attempt to send succeeds
      iff `sends[k]`; attempts beyond the end of `sends` fail. */
  function Consume(m: Matcher, queue: seq<Request>, t: Tuple, sends: seq<bool>): Consumed {
    if queue == [] then Consumed([], [], None)
    else
      var q := queue[0];
      if !m(q.expr, t.name) then
        var r := Consume(m, queue[1..], t, sends);
        r.(kept := [q] + r.kept)
      else if sends != [] && sends[0] && q.op.GET? then
        Consumed(queue[1..], [Delivery(q, t, true, true)], Some(q))
      else
        var r := Consume(m, queue[1..], t, Later(sends));
        r.(log := [Delivery(q, t, sends != [] && sends[0], true)] + r.log)
  }

  function Later(sends: seq<bool>): seq<bool> {
    if sends == [] then [] else sends[1..]
  }

  // ----- the backup list -----

  function FindBackup(backups: seq<Backup>, host: int, procId: int): (r: int)
    ensures -1 <= r < |backups|
    ensures r == -1 <==> forall i | 0 <= i < |backups| :: !(backups[i].host == host && backups[i].procId == procId)
    ensures r >= 0 ==> backups[r].host == host && backups[r].procId == procId
    ensures r >= 0 ==> forall i | 0 <= i < r :: !(backups[i].host == host && backups[i].procId == procId)
  {
    if backups == [] then -1
    else if backups[0].host == host && backups[0].procId == procId then 0
    else
      var r := FindBackup(backups[1..], host, procId);
      if r == -1 then -1 else r + 1
  }

  function BackupOf(t: Tuple, q: Request, fault: int): Backup {
    Backup(t, q.host, q.port, q.cidport, q.procId, fault)
  }

  /** The consumed tuple becomes its consumer's backup; the buffer of the entry
      it replaces is released. */
  function Capture(s: Server, t: Tuple, q: Request): Server {
    var k := FindBackup(s.backups, q.host, q.procId);
    if k >= 0 then
      s.(backups := s.backups[k := BackupOf(t, q, s.backups[k].fault)],
         freed := s.freed + [s.backups[k].tuple.buf])
    else
      s.(backups := [BackupOf(t, q, 0)] + s.backups)
  }

  /** guardf: a process marked as faulty is refused. */
  predicate Guard(s: Server, host: int, procId: int) {
    exists i | 0 <= i < |s.backups| ::
      s.backups[i].fault == 1 && s.backups[i].host == host && s.backups[i].procId == procId
  }

  // ----- operations -----

  /** storeTuple: overwrite in place (releasing the old buffer) or append. */
  function Store(s: Server, t: Tuple): Server {
    var i := IndexOf(s.space, t.name);
    if i >= 0 then
      s.(space := s.space[i := t], freed := s.freed + [s.space[i].buf])
    else
      s.(space := s.space + [t])
  }

  function NewTuple(s: Server, name: string, data: string, priority: nat): Tuple {
    Tuple(name, s.issued, data, priority)
  }

  /** Offering a tuple to the waiting requests, with the bookkeeping: the
      winner's backup entry and the counter. */
  function Offer(m: Matcher, s: Server, t: Tuple, sends: seq<bool>): Server {
    var c := Consume(m, s.queue, t, sends);
    var s1 := s.(queue := c.kept, log := s.log + c.log);
    if c.winner.Some? then Capture(s1.(fetched := s1.fetched + 1), t, c.winner.value) else s1
  }

  /** The GET that consumes the offered tuple, if there is one. */
  function Winner(m: Matcher, s: Server, t: Tuple, sends: seq<bool>): Option<Request> {
    Consume(m, s.queue, t, sends).winner
  }

  /** An accepted PUT: offer the tuple to the waiting requests, store it unless
      one of them consumed it. */
  function Put(m: Matcher, s: Server, name: string, data: string, priority: nat, sends: seq<bool>): Server {
    var t := NewTuple(s, name, data, priority);
    var r := Offer(m, s.(issued := s.issued + 1), t, sends);
    if Winner(m, s, t, sends).Some? then r else Store(r, t)
  }

  /** Results of the three writes of a direct reply. */
  datatype Writes = Writes(found: bool, header: bool, body: bool) {
    predicate All() { found && header && body }
  }

  /** A READ or GET that passed the guard. `len == -1` asks for an answer at
      once; otherwise a request that finds nothing is queued. */
  function Get(m: Matcher, s: Server, q: Request, len: int, nodeOk: bool, w: Writes): Server {
    var i := Find(m, s.space, q.expr);
    if i == -1 then
      if len != -1 && nodeOk then s.(queue := s.queue + [q]) else s
    else
      var t := s.space[i];
      var s1 := s.(log := s.log + [Delivery(q, t, w.All(), false)]);
      if w.All() && q.op.GET? then Capture(s1.(space := Remove(s.space, i)), t, q) else s1
  }

  /** The prefix of the data that a direct reply carries. A negative length is a
      huge unsigned number in the comparison, so it does not truncate. */
  function ReplyData(data: string, len: int): (r: string) {
    if 0 < len < |data| then data[..len] else data
  }

  // ----- connections -----

  datatype PutHeader = PutHeader(name: string, priority: nat, host: int, procId: int)
  datatype GetHeader = GetHeader(expr: string, host: int, port: int, cidport: int, procId: int, len: int)

  /** What reaches the server on one connection, and how its own calls fare:
      `None` is a header or body that could not be read, `bufferOk`, `nodeOk` and the
      like are the results of the checked allocations. The output of a shell
      command is stored like the body of a PUT; it is `None` if the command failed. */
  datatype Connection =
    | PutConn(put: Option<PutHeader>, bufferOk: bool, body: Option<string>, tupleOk: bool, sends: seq<bool>)
    | GetConn(op: Op, get: Option<GetHeader>, nodeOk: bool, writes: Writes)
    | ShellConn(shell: Option<PutHeader>, bufferOk: bool, command: Option<string>, output: Option<string>,
                dataOk: bool, tupleOk: bool, sends: seq<bool>)
    | Unknown

  datatype ErrorCode = NOERROR | NOTUPLE | NOMEM | OVERRT

  /** `Absent(None)` is the not-found answer whose error field the server leaves
      unset; `Broken` is a reply of which some part could not be written. */
  datatype Reply =
    | Silent
    | PutReply(success: bool, error: ErrorCode)
    | ShellReply(success: bool, error: ErrorCode, response: Option<string>)
    | Absent(reason: Option<ErrorCode>)
    | Present(name: string, priority: nat, data: string)
    | Broken

  function ToRequest(h: GetHeader, op: Op): Request {
    Request(h.expr, h.host, h.port, h.cidport, h.procId, op)
  }

  /** The tuple made of a command's output: strlen(output) + 1 characters. */
  function ShellData(output: string): string {
    output + "\0"
  }

  /** The server after a shell operation that passed the guard: if everything went
      well the output of the command is put into the space. */
  function ShellState(m: Matcher, s: Server, h: PutHeader, bufferOk: bool, command: Option<string>,
                      output: Option<string>, dataOk: bool, tupleOk: bool, sends: seq<bool>): Server {
    if bufferOk && command.Some? && output.Some? && dataOk && tupleOk then
      Put(m, s, h.name, ShellData(output.value), h.priority, sends)
    else s
  }

  /** The server after one connection. */
  function Handle(m: Matcher, s: Server, c: Connection): Server {
    match c
    case PutConn(Some(h), true, Some(data), true, sends) =>
      if Guard(s, h.host, h.procId) then s else Put(m, s, h.name, data, h.priority, sends)
    case GetConn(op, Some(h), nodeOk, w) =>
      if Guard(s, h.host, h.procId) then s else Get(m, s, ToRequest(h, op), h.len, nodeOk, w)
    case ShellConn(Some(h), bufferOk, command, output, dataOk, tupleOk, sends) =>
      if Guard(s, h.host, h.procId) then s else ShellState(m, s, h, bufferOk, command, output, dataOk, tupleOk, sends)
    case _ => s
  }

  /** The error field after an accepted PUT. */
  function PutError(m: Matcher, s: Server, name: string, data: string, priority: nat, sends: seq<bool>): ErrorCode {
    if Winner(m, s, NewTuple(s, name, data, priority), sends).None? && IndexOf(s.space, name) >= 0 then OVERRT
    else NOERROR
  }

  /** The reply to a shell operation: an unset response field is None. */
  function ShellReplyTo(m: Matcher, s: Server, h: PutHeader, bufferOk: bool, command: Option<string>,
                        output: Option<string>, dataOk: bool, tupleOk: bool, sends: seq<bool>): Reply {
    if !bufferOk then ShellReply(false, NOMEM, None)
    else if command.None? then Silent
    else if output.None? then ShellReply(false, NOERROR, Some("shell execution failed"))
    else if !dataOk then ShellReply(false, NOMEM, None)
    else if !tupleOk then ShellReply(false, NOMEM, output)
    else ShellReply(true, PutError(m, s, h.name, ShellData(output.value), h.priority, sends), output)
  }

  function GetReply(m: Matcher, s: Server, expr: string, len: int, nodeOk: bool, w: Writes): Reply {
    var i := Find(m, s.space, expr);
    if i == -1 then Absent(if len == -1 then None else if nodeOk then Some(NOTUPLE) else Some(NOMEM))
    else if w.All() then Present(s.space[i].name, s.space[i].priority, ReplyData(s.space[i].data, len))
    else Broken
  }

  /** What the client reads back on the same connection. */
  function ReplyTo(m: Matcher, s: Server, c: Connection): Reply {
    match c
    case PutConn(Some(h), bufferOk, body, tupleOk, sends) =>
      if Guard(s, h.host, h.procId) then Silent
      else if !bufferOk then PutReply(false, NOMEM)
      else if body.None? then Silent
      else if !tupleOk then PutReply(false, NOMEM)
      else PutReply(true, PutError(m, s, h.name, body.value, h.priority, sends))
    case GetConn(op, Some(h), nodeOk, w) =>
      if Guard(s, h.host, h.procId) then Silent
      else GetReply(m, s, h.expr, h.len, nodeOk, w)
    case ShellConn(Some(h), bufferOk, command, output, dataOk, tupleOk, sends) =>
      if Guard(s, h.host, h.procId) then Silent
      else ShellReplyTo(m, s, h, bufferOk, command, output, dataOk, tupleOk, sends)
    case _ => Silent
  }

  /** The server after a sequence of connections, from a fresh start. */
  function Serve(m: Matcher, cs: seq<Connection>): Server {
    if cs == [] then EMPTY
    else Handle(m, Serve(m, cs[..|cs| - 1]), cs[|cs| - 1])
  }
}
