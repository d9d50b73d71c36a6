/** What each operation does with the fields of a connection, written out: which
    requests are queued and called back, when a tuple is given away, and what the
    client is told. */
module OperationMeaning {
  import opened TupleSpace
  import opened Waiting
  import opened ServerInvariants

  // ----- requests -----

  /** The request has the fields of the header and the operation of the connection. */
  predicate Asks(q: Request, h: GetHeader, op: Op) {
    && q.expr == h.expr && q.host == h.host && q.port == h.port && q.cidport == h.cidport
    && q.procId == h.procId && q.op == op
  }

  /** The backup entry holds the tuple and the address of its consumer. */
  predicate BacksUp(b: Backup, t: Tuple, q: Request) {
    && b.tuple == t && b.host == q.host && b.port == q.port && b.cidport == q.cidport
    && b.procId == q.procId && b.fault == 0
  }

  predicate NothingMatches(m: Matcher, s: Server, expr: string) {
    forall i | 0 <= i < |s.space| :: !m(expr, s.space[i].name)
  }

  /** A READ or GET that finds nothing: it waits at the end of the queue with the
      fields of its header, unless it must not wait or there is no memory. */
  lemma MissingTuple(m: Matcher, s: Server, op: Op, h: GetHeader, nodeOk: bool, w: Writes) returns (q: Request)
    requires !Guard(s, h.host, h.procId) && NothingMatches(m, s, h.expr)
    ensures Asks(q, h, op)
    ensures var c := GetConn(op, Some(h), nodeOk, w);
            && Handle(m, s, c) == (if h.len != -1 && nodeOk then s.(queue := s.queue + [q]) else s)
            && ReplyTo(m, s, c) == Absent(if h.len == -1 then None else if nodeOk then Some(NOTUPLE) else Some(NOMEM))
  {
    q := ToRequest(h, op);
  }

  /** The tuple that a READ or GET is answered with: the leftmost match of highest priority. */
  predicate Answers(m: Matcher, s: Server, expr: string, at: nat) {
    && at < |s.space| && m(expr, s.space[at].name)
    && forall i | 0 <= i < |s.space| && m(expr, s.space[i].name) ::
         s.space[i].priority <= s.space[at].priority && (i < at ==> s.space[i].priority < s.space[at].priority)
  }

  lemma AnswersIsFind(m: Matcher, s: Server, expr: string, at: nat)
    requires Answers(m, s, expr, at)
    ensures Find(m, s.space, expr) == at
  {
    var i := Find(m, s.space, expr);
    assert i != -1;
  }

  /** When any of the three writes of the direct reply fails, the tuple stays where it
      is, nobody is recorded as its consumer, and the client has no tuple. */
  lemma FailedReply(m: Matcher, s: Server, op: Op, h: GetHeader, nodeOk: bool, w: Writes, at: nat)
    requires !Guard(s, h.host, h.procId) && Answers(m, s, h.expr, at)
    requires !w.found || !w.header || !w.body
    ensures var c := GetConn(op, Some(h), nodeOk, w);
            var r := Handle(m, s, c);
            && r.space == s.space && r.queue == s.queue && r.backups == s.backups && r.freed == s.freed
            && r.issued == s.issued && r.fetched == s.fetched
            && |r.log| == |s.log| + 1 && r.log[..|s.log|] == s.log
            && !r.log[|s.log|].ok && Asks(r.log[|s.log|].req, h, op)
            && !ReplyTo(m, s, c).Present?
  {
    AnswersIsFind(m, s, h.expr, at);
  }

  /** When all three succeed, the client has the tuple's name, its priority and the
      part of its data it asked for. */
  lemma FullReply(m: Matcher, s: Server, op: Op, h: GetHeader, nodeOk: bool, w: Writes, at: nat)
    requires !Guard(s, h.host, h.procId) && Answers(m, s, h.expr, at)
    requires w.found && w.header && w.body
    ensures var t := s.space[at];
            ReplyTo(m, s, GetConn(op, Some(h), nodeOk, w))
            == Present(t.name, t.priority, if 0 < h.len < |t.data| then t.data[..h.len] else t.data)
  {
    AnswersIsFind(m, s, h.expr, at);
  }

  /** A READ then changes nothing but the history. */
  lemma FullRead(m: Matcher, s: Server, h: GetHeader, nodeOk: bool, w: Writes, at: nat)
    requires !Guard(s, h.host, h.procId) && Answers(m, s, h.expr, at)
    requires w.found && w.header && w.body
    ensures var r := Handle(m, s, GetConn(READ, Some(h), nodeOk, w));
            && r == s.(log := r.log) && |r.log| == |s.log| + 1 && r.log[..|s.log|] == s.log
            && var d := r.log[|s.log|]; d.ok && !d.waited && d.tuple == s.space[at] && Asks(d.req, h, READ)
  {
    AnswersIsFind(m, s, h.expr, at);
  }

  /** A GET then takes exactly that tuple out of the space; it is the backup of the
      process that asked, and the buffer of that process' last backup is freed. */
  lemma FullGet(m: Matcher, s: Server, h: GetHeader, nodeOk: bool, w: Writes, at: nat)
    requires Faithful(s) && Answers(m, s, h.expr, at)
    requires w.found && w.header && w.body
    ensures var r := Handle(m, s, GetConn(GET, Some(h), nodeOk, w));
            var old_ := BackupFor(s.backups, h.host, h.procId);
            && r.space == s.space[..at] + s.space[at + 1..] && r.queue == s.queue
            && r.issued == s.issued && r.fetched == s.fetched
            && |r.log| == |s.log| + 1 && r.log[..|s.log|] == s.log
            && var d := r.log[|s.log|];
            && d.ok && !d.waited && d.tuple == s.space[at] && Asks(d.req, h, GET)
            && BackupFor(r.backups, h.host, h.procId).Some?
            && BacksUp(BackupFor(r.backups, h.host, h.procId).value, s.space[at], d.req)
            && r.freed == s.freed + if old_.Some? then [old_.value.tuple.buf] else []
  {
    AnswersIsFind(m, s, h.expr, at);
    FaithfulFaults(s);
    var q := ToRequest(h, GET);
    var s1 := s.(space := Remove(s.space, at), log := s.log + [Delivery(q, s.space[at], true, false)]);
    CaptureLookup(s1, s.space[at], q, q.host, q.procId);
  }

  /** A READ or GET without a readable header or of a faulty process, and an unknown
      operation, change nothing and are not answered. */
  lemma RefusedGet(m: Matcher, s: Server, op: Op, get: Option<GetHeader>, nodeOk: bool, w: Writes)
    requires get.None? || Guard(s, get.value.host, get.value.procId)
    ensures forall c | c in {GetConn(op, get, nodeOk, w), Unknown} :: Handle(m, s, c) == s && ReplyTo(m, s, c) == Silent
  {
  }

  // ----- where deliveries go -----

  /** The request was made by one of these connections. */
  ghost predicate MadeBy(q: Request, cs: seq<Connection>) {
    exists j :: 0 <= j < |cs| && MadeAt(q, cs[j])
  }

  predicate MadeAt(q: Request, c: Connection) {
    c.GetConn? && c.get.Some? && Asks(q, c.get.value, c.op)
  }

  ghost predicate AllMade(s: Server, cs: seq<Connection>) {
    && (forall i | 0 <= i < |s.queue| :: MadeBy(s.queue[i], cs))
    && (forall i | 0 <= i < |s.log| :: MadeBy(s.log[i].req, cs))
  }

  lemma MadeByMore(q: Request, cs: seq<Connection>, c: Connection)
    ensures MadeBy(q, cs) ==> MadeBy(q, cs + [c])
    ensures MadeAt(q, c) ==> MadeBy(q, cs + [c])
  {
    if MadeBy(q, cs) {
      var j :| 0 <= j < |cs| && MadeAt(q, cs[j]);
      assert (cs + [c])[j] == cs[j];
    }
    if MadeAt(q, c) {
      assert (cs + [c])[|cs|] == c;
    }
  }

  lemma AllMadeMore(s: Server, cs: seq<Connection>, c: Connection)
    requires AllMade(s, cs)
    ensures AllMade(s, cs + [c])
  {
    forall i | 0 <= i < |s.queue|
      ensures MadeBy(s.queue[i], cs + [c])
    {
      MadeByMore(s.queue[i], cs, c);
    }
    forall i | 0 <= i < |s.log|
      ensures MadeBy(s.log[i].req, cs + [c])
    {
      MadeByMore(s.log[i].req, cs, c);
    }
  }

  /** The attempts of an offer go to requests of the queue. */
  lemma {:induction false} ConsumeAsksQueue(m: Matcher, queue: seq<Request>, t: Tuple, sends: seq<bool>)
    ensures forall d | d in Consume(m, queue, t, sends).log :: d.req in queue
  {
    if queue != [] {
      var rest := queue[1..];
      assert queue == [queue[0]] + rest;
      ConsumeAsksQueue(m, rest, t, sends);
      ConsumeAsksQueue(m, rest, t, Later(sends));
    }
  }

  lemma PutMade(m: Matcher, s: Server, name: string, data: string, priority: nat, sends: seq<bool>, cs: seq<Connection>)
    requires AllMade(s, cs)
    ensures AllMade(Put(m, s, name, data, priority, sends), cs)
  {
    var t := NewTuple(s, name, data, priority);
    var c, r := Consume(m, s.queue, t, sends), Put(m, s, name, data, priority, sends);
    ConsumeKeepsSubset(m, s.queue, t, sends);
    ConsumeAsksQueue(m, s.queue, t, sends);
    assert r.queue == c.kept && r.log == s.log + c.log;
    forall i | 0 <= i < |r.queue|
      ensures MadeBy(r.queue[i], cs)
    {
      assert c.kept[i] in s.queue;
    }
    forall i | 0 <= i < |r.log|
      ensures MadeBy(r.log[i].req, cs)
    {
      if i >= |s.log| { assert c.log[i - |s.log|] in c.log; }
    }
  }

  lemma GetMade(m: Matcher, s: Server, q: Request, len: int, nodeOk: bool, w: Writes, cs: seq<Connection>)
    requires AllMade(s, cs) && MadeBy(q, cs)
    ensures AllMade(Get(m, s, q, len, nodeOk, w), cs)
  {
  }

  lemma HandleMade(m: Matcher, s: Server, cs: seq<Connection>, c: Connection)
    requires AllMade(s, cs)
    ensures AllMade(Handle(m, s, c), cs + [c])
  {
    AllMadeMore(s, cs, c);
    match c
    case PutConn(Some(h), true, Some(data), true, sends) =>
      PutMade(m, s, h.name, data, h.priority, sends, cs + [c]);
    case GetConn(op, Some(h), nodeOk, w) =>
      MadeByMore(ToRequest(h, op), cs, c);
      GetMade(m, s, ToRequest(h, op), h.len, nodeOk, w, cs + [c]);
    case ShellConn(Some(h), true, Some(_), Some(output), true, true, sends) =>
      PutMade(m, s, h.name, ShellData(output), h.priority, sends, cs + [c]);
    case _ =>
  }

  lemma {:induction false} ServeMade(m: Matcher, cs: seq<Connection>)
    ensures AllMade(Serve(m, cs), cs)
  {
    if cs != [] {
      var before := cs[..|cs| - 1];
      ServeMade(m, before);
      HandleMade(m, Serve(m, before), before, cs[|cs| - 1]);
      assert before + [cs[|cs| - 1]] == cs;
    }
  }

  /** Over a whole run every delivery, direct or by call-back, goes to the address in
      the header of a connection that has arrived, for its expression and operation. */
  lemma DeliveredToAsker(m: Matcher, cs: seq<Connection>, i: nat) returns (j: nat)
    requires i < |Serve(m, cs).log|
    ensures j < |cs| && cs[j].GetConn? && cs[j].get.Some?
    ensures var q, h := Serve(m, cs).log[i].req, cs[j].get.value;
            && q.expr == h.expr && q.host == h.host && q.port == h.port && q.cidport == h.cidport
            && q.procId == h.procId && q.op == cs[j].op
  {
    ServeMade(m, cs);
    var q := Serve(m, cs).log[i].req;
    assert MadeBy(q, cs);
    j :| 0 <= j < |cs| && MadeAt(q, cs[j]);
  }

  lemma {:induction false} LastHandedIn(log: seq<Delivery>, host: int, procId: int)
    requires LastHanded(log, host, procId).Some?
    ensures var d := LastHanded(log, host, procId).value;
            d in log && d.ok && d.req.op.GET? && d.req.host == host && d.req.procId == procId
  {
    var n := |log| - 1;
    if !(Handed(log[n]) && log[n].req.host == host && log[n].req.procId == procId) {
      LastHandedIn(log[..n], host, procId);
    }
  }

  /** Over a whole run every backup entry records a successful GET: its tuple and
      the address it was asked from. */
  lemma BackupOfAsker(m: Matcher, cs: seq<Connection>, k: nat) returns (d: Delivery)
    requires k < |Serve(m, cs).backups|
    ensures d in Serve(m, cs).log && d.ok && d.req.op.GET? && BacksUp(Serve(m, cs).backups[k], d.tuple, d.req)
  {
    ServeInv(m, cs);
    var s := Serve(m, cs);
    var b := s.backups[k];
    assert FindBackup(s.backups, b.host, b.procId) == k;
    assert BackupFor(s.backups, b.host, b.procId) == Expected(LastHanded(s.log, b.host, b.procId));
    LastHandedIn(s.log, b.host, b.procId);
    d := LastHanded(s.log, b.host, b.procId).value;
  }

  // ----- PUT -----

  predicate IsStored(s: Server, name: string) {
    exists i :: 0 <= i < |s.space| && s.space[i].name == name
  }

  /** A waiting GET takes the tuple of an accepted PUT. */
  ghost predicate Taken(m: Matcher, s: Server, t: Tuple, sends: seq<bool>) {
    exists i :: 0 <= i < |s.queue| && Wins(m, s.queue, t.name, sends, i)
  }

  lemma TakenIsWinner(m: Matcher, s: Server, t: Tuple, sends: seq<bool>)
    ensures Taken(m, s, t, sends) <==> Winner(m, s, t, sends).Some?
  {
    var w := ConsumeMeaning(m, s.queue, t, sends);
    if w < |s.queue| { assert Wins(m, s.queue, t.name, sends, w); }
  }

  /** An accepted PUT: its tuple has the header's name and priority and the data that
      arrived; unless a waiting GET takes it, it overwrites the tuple of its name in
      place, which the client is told, or goes to the end. */
  lemma AcceptedPut(m: Matcher, s: Server, h: PutHeader, data: string, sends: seq<bool>)
    requires !Guard(s, h.host, h.procId) && UniqueNames(s.space)
    ensures var c, t := PutConn(Some(h), true, Some(data), true, sends), Tuple(h.name, s.issued, data, h.priority);
            var r, taken := Handle(m, s, c), Taken(m, s, t, sends);
            && r.issued == s.issued + 1
            && (taken || !IsStored(s, h.name) ==> ReplyTo(m, s, c) == PutReply(true, NOERROR))
            && (!taken && IsStored(s, h.name) ==> ReplyTo(m, s, c) == PutReply(true, OVERRT))
            && (taken ==> r.space == s.space)
            && (!taken && !IsStored(s, h.name) ==> r.space == s.space + [t] && r.freed == s.freed)
            && (forall i | 0 <= i < |s.space| && s.space[i].name == h.name ::
                  !taken ==> r.space == s.space[i := t] && r.freed == s.freed + [s.space[i].buf])
  {
    var t := NewTuple(s, h.name, data, h.priority);
    TakenIsWinner(m, s, t, sends);
    var i := IndexOf(s.space, h.name);
    OfferKeeps(m, s.(issued := s.issued + 1), t, sends);
    assert i >= 0 <==> IsStored(s, h.name);
    assert forall k | 0 <= k < |s.space| && s.space[k].name == h.name :: k == i;
  }

  /** The waiting GET that takes the tuple becomes its owner of record. */
  lemma TakenPut(m: Matcher, s: Server, h: PutHeader, data: string, sends: seq<bool>, i: nat)
    requires Faithful(s) && i < |s.queue| && Wins(m, s.queue, h.name, sends, i) && NoneWins(m, s.queue, h.name, sends, i)
    ensures var r, q := Handle(m, s, PutConn(Some(h), true, Some(data), true, sends)), s.queue[i];
            && r.queue == Others(m, s.queue[..i], h.name) + s.queue[i + 1..] && r.fetched == s.fetched + 1
            && BackupFor(r.backups, q.host, q.procId).Some?
            && BacksUp(BackupFor(r.backups, q.host, q.procId).value, Tuple(h.name, s.issued, data, h.priority), q)
  {
    FaithfulFaults(s);
    var t := NewTuple(s, h.name, data, h.priority);
    var c := Consume(m, s.queue, t, sends);
    var w := ConsumeMeaning(m, s.queue, t, sends);
    assert w == i;
    var s1 := s.(issued := s.issued + 1, queue := c.kept, log := s.log + c.log, fetched := s.fetched + 1);
    var q := s.queue[i];
    CaptureLookup(s1, t, q, q.host, q.procId);
  }

  /** In a reachable state that is told exactly by whether the name was stored. */
  lemma PutTold(m: Matcher, cs: seq<Connection>, h: PutHeader, data: string, sends: seq<bool>)
    ensures var s := Serve(m, cs);
            ReplyTo(m, s, PutConn(Some(h), true, Some(data), true, sends))
            == PutReply(true, if IsStored(s, h.name) then OVERRT else NOERROR)
  {
    ServeInv(m, cs);
    var s := Serve(m, cs);
    var t := NewTuple(s, h.name, data, h.priority);
    NeverGuarded(m, cs, h.host, h.procId);
    AcceptedPut(m, s, h, data, sends);
    TakenIsWinner(m, s, t, sends);
    if IsStored(s, h.name) {
      NothingWaits(m, s.queue, t, sends);
    }
  }

  /** A PUT that is not accepted changes nothing, and only a failed allocation is told. */
  lemma RefusedPut(m: Matcher, s: Server, put: Option<PutHeader>, bufferOk: bool, body: Option<string>, tupleOk: bool,
                   sends: seq<bool>)
    requires put.None? || Guard(s, put.value.host, put.value.procId) || !bufferOk || body.None? || !tupleOk
    ensures var c := PutConn(put, bufferOk, body, tupleOk, sends);
            && Handle(m, s, c) == s
            && ReplyTo(m, s, c) ==
                 if put.Some? && !Guard(s, put.value.host, put.value.procId) && (!bufferOk || (body.Some? && !tupleOk))
                 then PutReply(false, NOMEM) else Silent
  {
  }

  // ----- the shell operation -----

  /** A shell operation whose steps all succeed is the PUT of the command's output,
      with a final NUL, under the name and priority of its header. */
  lemma AcceptedShell(m: Matcher, s: Server, h: PutHeader, command: string, output: string, sends: seq<bool>)
    requires !Guard(s, h.host, h.procId)
    ensures var c := ShellConn(Some(h), true, Some(command), Some(output), true, true, sends);
            var p := PutConn(Some(h), true, Some(output + "\0"), true, sends);
            && Handle(m, s, c) == Handle(m, s, p)
            && ReplyTo(m, s, p).PutReply? && ReplyTo(m, s, p).success
            && ReplyTo(m, s, c) == ShellReply(true, ReplyTo(m, s, p).error, Some(output))
  {
  }

  /** Any other one changes nothing, and is never told as a success. */
  lemma RefusedShell(m: Matcher, s: Server, shell: Option<PutHeader>, bufferOk: bool, command: Option<string>,
                     output: Option<string>, dataOk: bool, tupleOk: bool, sends: seq<bool>)
    requires shell.None? || Guard(s, shell.value.host, shell.value.procId)
             || !bufferOk || command.None? || output.None? || !dataOk || !tupleOk
    ensures var c := ShellConn(shell, bufferOk, command, output, dataOk, tupleOk, sends);
            var r := ReplyTo(m, s, c);
            && Handle(m, s, c) == s
            && (r.Silent? || (r.ShellReply? && !r.success))
            && (shell.Some? && !Guard(s, shell.value.host, shell.value.procId) && bufferOk && command.Some? ==>
                  r == if output.None? then ShellReply(false, NOERROR, Some("shell execution failed"))
                       else ShellReply(false, NOMEM, if dataOk then output else None))
  {
  }
}
