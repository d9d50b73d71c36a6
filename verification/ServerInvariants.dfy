/** What holds of the server between any two connections, whatever the matcher
    is and whatever arrives. */
module ServerInvariants {
  import opened TupleSpace
  import opened Waiting

  // ----- the invariants -----

  ghost predicate UniqueNames(space: seq<Tuple>) {
    forall i, j | 0 <= i < j < |space| :: space[i].name != space[j].name
  }

  /** No queued request matches a stored tuple. */
  ghost predicate NoMissedWakeup(m: Matcher, s: Server) {
    forall q, i | q in s.queue && 0 <= i < |s.space| :: !m(q.expr, s.space[i].name)
  }

  function Bufs(space: seq<Tuple>): (r: seq<nat>)
    ensures |r| == |space|
  {
    seq(|space|, i requires 0 <= i < |space| => space[i].buf)
  }

  function BackupBufs(backups: seq<Backup>): (r: seq<nat>)
    ensures |r| == |backups|
  {
    seq(|backups|, i requires 0 <= i < |backups| => backups[i].tuple.buf)
  }

  function Upto(n: nat): (r: seq<nat>)
    ensures |r| == n
  {
    seq(n, i requires 0 <= i < n => i)
  }

  /** Every accepted buffer has exactly one owner: a stored tuple, a backup, or
      the list of freed buffers. */
  ghost predicate Conserved(s: Server) {
    Owned(s) == multiset(Upto(s.issued))
  }

  function Owned(s: Server): multiset<nat> {
    multiset(Bufs(s.space)) + multiset(BackupBufs(s.backups)) + multiset(s.freed)
  }

  /** Once a GET has obtained a PUT instance, that instance is neither stored nor
      sent to anyone again. */
  ghost predicate ExactlyOnce(s: Server) {
    && (forall i | 0 <= i < |s.log| :: s.log[i].tuple.buf < s.issued)
    && (forall i | 0 <= i < |s.space| :: s.space[i].buf < s.issued)
    && (forall i, j | 0 <= i < j < |s.log| && Handed(s.log[i]) :: s.log[j].tuple.buf != s.log[i].tuple.buf)
    && (forall i, j | 0 <= i < |s.log| && Handed(s.log[i]) && 0 <= j < |s.space| ::
          s.space[j].buf != s.log[i].tuple.buf)
  }

  /** The latest successful GET of a process. */
  function LastHanded(log: seq<Delivery>, host: int, procId: int): Option<Delivery> {
    if log == [] then None
    else
      var d := log[|log| - 1];
      if Handed(d) && d.req.host == host && d.req.procId == procId then Some(d)
      else LastHanded(log[..|log| - 1], host, procId)
  }

  function BackupFor(backups: seq<Backup>, host: int, procId: int): Option<Backup> {
    var k := FindBackup(backups, host, procId);
    if k >= 0 then Some(backups[k]) else None
  }

  function Expected(d: Option<Delivery>): Option<Backup> {
    if d.Some? then Some(BackupOf(d.value.tuple, d.value.req, 0)) else None
  }

  ghost predicate OnePerProcess(backups: seq<Backup>) {
    forall i, j | 0 <= i < j < |backups| ::
      !(backups[i].host == backups[j].host && backups[i].procId == backups[j].procId)
  }

  /** The backup list maps each process to what it last consumed. */
  ghost predicate Faithful(s: Server) {
    && OnePerProcess(s.backups)
    && (forall host: int, procId: int ::
          BackupFor(s.backups, host, procId) == Expected(LastHanded(s.log, host, procId)))
  }

  function CountFetched(log: seq<Delivery>): nat {
    if log == [] then 0
    else CountFetched(log[..|log| - 1]) + (if Handed(log[|log| - 1]) && log[|log| - 1].waited then 1 else 0)
  }

  ghost predicate Inv(m: Matcher, s: Server) {
    && UniqueNames(s.space)
    && NoMissedWakeup(m, s)
    && Conserved(s)
    && ExactlyOnce(s)
    && Faithful(s)
    && s.fetched == CountFetched(s.log)
  }

  // ----- a handed-over tuple becomes a backup -----

  lemma CaptureKeeps(s: Server, t: Tuple, q: Request)
    ensures var r := Capture(s, t, q);
            r.space == s.space && r.queue == s.queue && r.log == s.log && r.issued == s.issued && r.fetched == s.fetched
  {
  }

  lemma CaptureOwned(s: Server, t: Tuple, q: Request)
    ensures Owned(Capture(s, t, q)) == Owned(s) + multiset{t.buf}
  {
    var r := Capture(s, t, q);
    var k := FindBackup(s.backups, q.host, q.procId);
    if k >= 0 {
      assert BackupBufs(r.backups) == BackupBufs(s.backups)[k := t.buf];
    } else {
      assert BackupBufs(r.backups) == [t.buf] + BackupBufs(s.backups);
    }
  }

  lemma CaptureOnePerProcess(s: Server, t: Tuple, q: Request)
    requires OnePerProcess(s.backups)
    ensures OnePerProcess(Capture(s, t, q).backups)
  {
  }

  /** Capturing changes the entry of the consumer and of nobody else. */
  lemma CaptureLookup(s: Server, t: Tuple, q: Request, host: int, procId: int)
    requires OnePerProcess(s.backups)
    requires forall i | 0 <= i < |s.backups| :: s.backups[i].fault == 0
    ensures BackupFor(Capture(s, t, q).backups, host, procId)
            == if q.host == host && q.procId == procId then Some(BackupOf(t, q, 0))
               else BackupFor(s.backups, host, procId)
  {
    var r := Capture(s, t, q);
    var k := FindBackup(s.backups, q.host, q.procId);
    var old_, new_ := FindBackup(s.backups, host, procId), FindBackup(r.backups, host, procId);
    if k >= 0 {
      assert forall i | 0 <= i < |s.backups| ::
          r.backups[i].host == s.backups[i].host && r.backups[i].procId == s.backups[i].procId;
      assert old_ == new_;
    } else if q.host == host && q.procId == procId {
      assert new_ == 0;
    } else {
      assert r.backups[1..] == s.backups;
    }
  }

  lemma FaithfulFaults(s: Server)
    requires Faithful(s)
    ensures forall i | 0 <= i < |s.backups| :: s.backups[i].fault == 0
  {
    forall i | 0 <= i < |s.backups|
      ensures s.backups[i].fault == 0
    {
      var b := s.backups[i];
      var k := FindBackup(s.backups, b.host, b.procId);
      assert k == i;
      assert BackupFor(s.backups, b.host, b.procId) == Expected(LastHanded(s.log, b.host, b.procId));
    }
  }

  // ----- the history -----

  lemma {:induction false} LastHandedAppend(log: seq<Delivery>, more: seq<Delivery>, host: int, procId: int)
    requires forall k | 0 <= k < |more| :: Handed(more[k]) ==> k == |more| - 1
    ensures LastHanded(log + more, host, procId)
            == if more != [] && Handed(more[|more| - 1])
                  && more[|more| - 1].req.host == host && more[|more| - 1].req.procId == procId
               then Some(more[|more| - 1]) else LastHanded(log, host, procId)
  {
    if more == [] {
      assert log + more == log;
    } else {
      var n := |more| - 1;
      assert (log + more)[..|log + more| - 1] == log + more[..n];
      LastHandedAppend(log, more[..n], host, procId);
    }
  }

  lemma {:induction false} CountFetchedAppend(log: seq<Delivery>, more: seq<Delivery>)
    requires forall k | 0 <= k < |more| :: Handed(more[k]) ==> k == |more| - 1
    ensures CountFetched(log + more)
            == CountFetched(log) + if more != [] && Handed(more[|more| - 1]) && more[|more| - 1].waited then 1 else 0
  {
    if more == [] {
      assert log + more == log;
    } else {
      var n := |more| - 1;
      assert (log + more)[..|log + more| - 1] == log + more[..n];
      CountFetchedAppend(log, more[..n]);
    }
  }

  /** The history part of the invariant after attempts `more` to send `t`, of
      which only the last can have handed it over, with the bookkeeping done. */
  lemma FaithfulAfter(s: Server, more: seq<Delivery>, t: Tuple)
    requires Faithful(s)
    requires forall k | 0 <= k < |more| :: more[k].tuple == t && (Handed(more[k]) ==> k == |more| - 1)
    ensures var handed := more != [] && Handed(more[|more| - 1]);
            var s1 := s.(log := s.log + more);
            Faithful(if handed then Capture(s1, t, more[|more| - 1].req) else s1)
  {
    var handed := more != [] && Handed(more[|more| - 1]);
    var s1 := s.(log := s.log + more);
    var r := if handed then Capture(s1, t, more[|more| - 1].req) else s1;
    FaithfulFaults(s);
    if handed { CaptureOnePerProcess(s1, t, more[|more| - 1].req); }
    forall host: int, procId: int
      ensures BackupFor(r.backups, host, procId) == Expected(LastHanded(r.log, host, procId))
    {
      LastHandedAppend(s.log, more, host, procId);
      assert BackupFor(s.backups, host, procId) == Expected(LastHanded(s.log, host, procId));
      if handed { CaptureLookup(s1, t, more[|more| - 1].req, host, procId); }
    }
  }

  // ----- accepted PUT -----

  function Offered(s: Server, c: Consumed): Server {
    s.(issued := s.issued + 1, queue := c.kept, log := s.log + c.log)
  }

  lemma StoreOwned(s: Server, t: Tuple)
    ensures Owned(Store(s, t)) == Owned(s) + multiset{t.buf}
  {
    var r := Store(s, t);
    var i := IndexOf(s.space, t.name);
    if i >= 0 {
      assert Bufs(r.space) == Bufs(s.space)[i := t.buf];
    } else {
      assert Bufs(r.space) == Bufs(s.space) + [t.buf];
    }
  }

  lemma RemoveOwned(s: Server, i: nat)
    requires i < |s.space|
    ensures Owned(s) == Owned(s.(space := Remove(s.space, i))) + multiset{s.space[i].buf}
  {
    var b := Bufs(s.space);
    assert b == b[..i] + [b[i]] + b[i + 1..];
    assert Bufs(Remove(s.space, i)) == b[..i] + b[i + 1..];
  }

  lemma StoreContents(s: Server, t: Tuple)
    requires UniqueNames(s.space)
    ensures var r := Store(s, t);
            && UniqueNames(r.space)
            && t in r.space
            && (forall x | x in r.space :: x == t || (x in s.space && x.name != t.name))
  {
    var r := Store(s, t);
    var i := IndexOf(s.space, t.name);
    if i >= 0 {
      assert r.space[i] == t;
    } else {
      assert r.space[|s.space|] == t;
    }
  }

  lemma UptoNext(n: nat)
    ensures multiset(Upto(n + 1)) == multiset(Upto(n)) + multiset{n}
  {
    assert Upto(n + 1) == Upto(n) + [n];
  }

  lemma PutOwned(m: Matcher, s: Server, name: string, data: string, priority: nat, sends: seq<bool>)
    ensures Owned(Put(m, s, name, data, priority, sends)) == Owned(s) + multiset{s.issued}
  {
    var t := NewTuple(s, name, data, priority);
    var c := Consume(m, s.queue, t, sends);
    var s1 := s.(issued := s.issued + 1, queue := c.kept, log := s.log + c.log);
    SameOwned(s, s1);
    if c.winner.Some? {
      SameOwned(s1, s1.(fetched := s.fetched + 1));
      CaptureOwned(s1.(fetched := s.fetched + 1), t, c.winner.value);
    } else {
      StoreOwned(s1, t);
    }
  }

  lemma SameOwned(s: Server, r: Server)
    requires s.space == r.space && s.backups == r.backups && s.freed == r.freed
    ensures Owned(s) == Owned(r)
  {
  }

  lemma PutConserves(m: Matcher, s: Server, name: string, data: string, priority: nat, sends: seq<bool>)
    requires Conserved(s)
    ensures Conserved(Put(m, s, name, data, priority, sends))
  {
    PutOwned(m, s, name, data, priority, sends);
    UptoNext(s.issued);
    assert Put(m, s, name, data, priority, sends).issued == s.issued + 1;
  }

  lemma PutWakes(m: Matcher, s: Server, name: string, data: string, priority: nat, sends: seq<bool>)
    requires UniqueNames(s.space) && NoMissedWakeup(m, s)
    ensures var r := Put(m, s, name, data, priority, sends);
            UniqueNames(r.space) && NoMissedWakeup(m, r)
  {
    var t := NewTuple(s, name, data, priority);
    var c := Consume(m, s.queue, t, sends);
    var r := Put(m, s, name, data, priority, sends);
    ConsumeKeepsSubset(m, s.queue, t, sends);
    if c.winner.None? {
      StoreContents(Offered(s, c), t);
      forall q, i | q in r.queue && 0 <= i < |r.space|
        ensures !m(q.expr, r.space[i].name)
      {
        assert r.space[i] in r.space;
      }
    }
  }

  /** The history after attempts `more` to send a new tuple: it is stored only if
      none of them handed it over. */
  lemma OnceAfter(s: Server, more: seq<Delivery>, t: Tuple, r: Server)
    requires ExactlyOnce(s) && t.buf == s.issued
    requires r.log == s.log + more && r.issued == s.issued + 1
    requires forall k | 0 <= k < |more| :: more[k].tuple == t && (Handed(more[k]) ==> k == |more| - 1)
    requires forall j | 0 <= j < |r.space| ::
               r.space[j] in s.space || (r.space[j] == t && forall k | 0 <= k < |more| :: !Handed(more[k]))
    ensures ExactlyOnce(r)
  {
    var n := |s.log|;
    assert forall i | 0 <= i < n :: r.log[i] == s.log[i];
    assert forall i | n <= i < |r.log| :: r.log[i] == more[i - n] && r.log[i].tuple == t;
    forall i, j | 0 <= i < |r.log| && Handed(r.log[i]) && 0 <= j < |r.space|
      ensures r.space[j].buf != r.log[i].tuple.buf
    {
      if i >= n { assert Handed(more[i - n]); }
    }
  }

  /** Offering touches neither the space nor the number of buffers; without a
      winner it changes only the queue and the history. */
  lemma OfferKeeps(m: Matcher, s: Server, t: Tuple, sends: seq<bool>)
    ensures var r := Offer(m, s, t, sends);
            && r.space == s.space && r.issued == s.issued
            && (Winner(m, s, t, sends).None? ==> r.freed == s.freed && r.backups == s.backups)
  {
  }

  lemma PutOnce(m: Matcher, s: Server, name: string, data: string, priority: nat, sends: seq<bool>)
    requires UniqueNames(s.space) && ExactlyOnce(s)
    ensures ExactlyOnce(Put(m, s, name, data, priority, sends))
  {
    var t := NewTuple(s, name, data, priority);
    var c := Consume(m, s.queue, t, sends);
    var r := Put(m, s, name, data, priority, sends);
    ConsumeLog(m, s.queue, t, sends);
    if c.winner.None? {
      StoreContents(Offered(s, c), t);
      assert forall j | 0 <= j < |r.space| :: r.space[j] in r.space;
    } else {
      CaptureKeeps(Offered(s, c).(fetched := s.fetched + 1), t, c.winner.value);
    }
    OnceAfter(s, c.log, t, r);
  }

  lemma PutHistory(m: Matcher, s: Server, name: string, data: string, priority: nat, sends: seq<bool>)
    requires Faithful(s) && s.fetched == CountFetched(s.log)
    ensures var r := Put(m, s, name, data, priority, sends); Faithful(r) && r.fetched == CountFetched(r.log)
  {
    var t := NewTuple(s, name, data, priority);
    var c := Consume(m, s.queue, t, sends);
    var r := Put(m, s, name, data, priority, sends);
    ConsumeLog(m, s.queue, t, sends);
    CountFetchedAppend(s.log, c.log);
    FaithfulAfter(s, c.log, t);
    var s1 := s.(log := s.log + c.log);
    if c.winner.Some? {
      assert c.log[|c.log| - 1].req == c.winner.value;
      assert r.backups == Capture(s1, t, c.winner.value).backups;
    } else {
      assert r.backups == s1.backups;
    }
  }

  lemma PutInv(m: Matcher, s: Server, name: string, data: string, priority: nat, sends: seq<bool>)
    requires Inv(m, s)
    ensures Inv(m, Put(m, s, name, data, priority, sends))
  {
    PutConserves(m, s, name, data, priority, sends);
    PutWakes(m, s, name, data, priority, sends);
    PutOnce(m, s, name, data, priority, sends);
    PutHistory(m, s, name, data, priority, sends);
  }

  // ----- READ and GET -----

  lemma GetConserves(m: Matcher, s: Server, q: Request, len: int, nodeOk: bool, w: Writes)
    requires Conserved(s)
    ensures Conserved(Get(m, s, q, len, nodeOk, w))
  {
    var i := Find(m, s.space, q.expr);
    if i >= 0 && w.All() && q.op.GET? {
      var s1 := s.(log := s.log + [Delivery(q, s.space[i], true, false)]);
      RemoveOwned(s1, i);
      CaptureOwned(s1.(space := Remove(s.space, i)), s.space[i], q);
    }
  }

  lemma GetWakes(m: Matcher, s: Server, q: Request, len: int, nodeOk: bool, w: Writes)
    requires UniqueNames(s.space) && NoMissedWakeup(m, s)
    ensures var r := Get(m, s, q, len, nodeOk, w); UniqueNames(r.space) && NoMissedWakeup(m, r)
  {
  }

  lemma TwiceInMultiset(b: seq<nat>, i: nat, j: nat)
    requires i < j < |b| && b[i] == b[j]
    ensures multiset(b)[b[i]] >= 2
  {
    assert b == b[..i] + [b[i]] + b[i + 1..j] + [b[j]] + b[j + 1..];
  }

  lemma BufsDistinct(s: Server, i: nat, j: nat)
    requires Conserved(s) && i < j < |s.space|
    ensures s.space[i].buf != s.space[j].buf
  {
    var b := Bufs(s.space);
    UptoOnce(s.issued, b[i]);
    assert multiset(b)[b[i]] <= Owned(s)[b[i]];
    if b[i] == b[j] {
      TwiceInMultiset(b, i, j);
    }
  }

  lemma {:induction false} UptoOnce(n: nat, x: nat)
    ensures multiset(Upto(n))[x] == if x < n then 1 else 0
  {
    if n > 0 {
      UptoNext(n - 1);
      UptoOnce(n - 1, x);
    }
  }

  lemma RemovedApart(s: Server, i: nat)
    requires Conserved(s) && i < |s.space|
    ensures forall x | x in Remove(s.space, i) :: x in s.space && x.buf != s.space[i].buf
  {
    var left := Remove(s.space, i);
    forall j | 0 <= j < |left|
      ensures left[j] in s.space && left[j].buf != s.space[i].buf
    {
      if j < i { BufsDistinct(s, j, i); } else { BufsDistinct(s, i, j + 1); }
    }
  }

  lemma OnceSent(s: Server, d: Delivery, r: Server)
    requires ExactlyOnce(s) && d.tuple in s.space
    requires r.log == s.log + [d] && r.issued == s.issued
    requires forall x | x in r.space :: x in s.space && (Handed(d) ==> x.buf != d.tuple.buf)
    ensures ExactlyOnce(r)
  {
    assert forall i | 0 <= i < |s.log| :: r.log[i] == s.log[i];
    assert forall j | 0 <= j < |r.space| :: r.space[j] in r.space;
  }

  lemma GetOnce(m: Matcher, s: Server, q: Request, len: int, nodeOk: bool, w: Writes)
    requires Conserved(s) && ExactlyOnce(s)
    ensures ExactlyOnce(Get(m, s, q, len, nodeOk, w))
  {
    var i := Find(m, s.space, q.expr);
    if i >= 0 {
      RemovedApart(s, i);
      OnceSent(s, Delivery(q, s.space[i], w.All(), false), Get(m, s, q, len, nodeOk, w));
    }
  }

  lemma GetHistory(m: Matcher, s: Server, q: Request, len: int, nodeOk: bool, w: Writes)
    requires Faithful(s) && s.fetched == CountFetched(s.log)
    ensures var r := Get(m, s, q, len, nodeOk, w); Faithful(r) && r.fetched == CountFetched(r.log)
  {
    var i := Find(m, s.space, q.expr);
    if i >= 0 {
      var more := [Delivery(q, s.space[i], w.All(), false)];
      FaithfulAfter(s, more, s.space[i]);
      CountFetchedAppend(s.log, more);
    }
  }

  lemma GetInv(m: Matcher, s: Server, q: Request, len: int, nodeOk: bool, w: Writes)
    requires Inv(m, s)
    ensures Inv(m, Get(m, s, q, len, nodeOk, w))
  {
    GetConserves(m, s, q, len, nodeOk, w);
    GetWakes(m, s, q, len, nodeOk, w);
    GetOnce(m, s, q, len, nodeOk, w);
    GetHistory(m, s, q, len, nodeOk, w);
  }

  // ----- whole runs -----

  lemma HandleInv(m: Matcher, s: Server, c: Connection)
    requires Inv(m, s)
    ensures Inv(m, Handle(m, s, c))
  {
    match c
    case PutConn(Some(h), true, Some(data), true, sends) =>
      PutInv(m, s, h.name, data, h.priority, sends);
    case GetConn(op, Some(h), nodeOk, w) =>
      GetInv(m, s, ToRequest(h, op), h.len, nodeOk, w);
    case ShellConn(Some(h), true, Some(_), Some(output), true, true, sends) =>
      PutInv(m, s, h.name, ShellData(output), h.priority, sends);
    case _ =>
  }

  /** Every invariant holds after every sequence of connections. */
  lemma {:induction false} ServeInv(m: Matcher, cs: seq<Connection>)
    ensures Inv(m, Serve(m, cs))
  {
    if cs == [] {
      assert Upto(0) == [];
    } else {
      ServeInv(m, cs[..|cs| - 1]);
      HandleInv(m, Serve(m, cs[..|cs| - 1]), cs[|cs| - 1]);
    }
  }

  /** A PUT to a name already in the space is delivered to nobody: it overwrites
      the stored tuple where it stands, and releases the old buffer. */
  lemma PutToStoredName(m: Matcher, cs: seq<Connection>, name: string, data: string, priority: nat, sends: seq<bool>)
    requires var s := Serve(m, cs); exists i :: 0 <= i < |s.space| && s.space[i].name == name
    ensures var s := Serve(m, cs);
            var i := IndexOf(s.space, name);
            && i >= 0
            && Put(m, s, name, data, priority, sends)
               == s.(space := s.space[i := Tuple(name, s.issued, data, priority)],
                     freed := s.freed + [s.space[i].buf], issued := s.issued + 1)
  {
    ServeInv(m, cs);
    var s := Serve(m, cs);
    var t := NewTuple(s, name, data, priority);
    NothingWaits(m, s.queue, t, sends);
  }

  lemma NothingWaits(m: Matcher, queue: seq<Request>, t: Tuple, sends: seq<bool>)
    requires forall q | q in queue :: !m(q.expr, t.name)
    ensures Consume(m, queue, t, sends) == Consumed(queue, [], None)
  {
    ConsumeSkip(m, queue, t, sends, |queue|);
  }

  /** guardf refuses nobody, ever. */
  lemma {:induction false} NeverGuarded(m: Matcher, cs: seq<Connection>, host: int, procId: int)
    ensures !Guard(Serve(m, cs), host, procId)
  {
    ServeInv(m, cs);
    FaithfulFaults(Serve(m, cs));
  }

  /** Over a whole run, at most one delivery hands a PUT instance to a GET, and
      no delivery after it sends that instance to anyone. */
  lemma HandedAtMostOnce(m: Matcher, cs: seq<Connection>, i: nat, j: nat)
    requires var log := Serve(m, cs).log; i < |log| && j < |log| && i != j && Handed(log[i])
    ensures var log := Serve(m, cs).log;
            && (i < j ==> log[j].tuple.buf != log[i].tuple.buf)
            && (Handed(log[j]) ==> log[j].tuple.buf != log[i].tuple.buf)
  {
    ServeInv(m, cs);
  }

  /** A buffer is not freed twice, nor freed while a tuple or a backup uses it. */
  lemma FreedOnce(m: Matcher, cs: seq<Connection>, buf: nat)
    ensures var s := Serve(m, cs);
            multiset(Bufs(s.space))[buf] + multiset(BackupBufs(s.backups))[buf] + multiset(s.freed)[buf]
            == if buf < s.issued then 1 else 0
  {
    ServeInv(m, cs);
    OneOwner(Serve(m, cs), buf);
  }

  lemma OneOwner(s: Server, x: nat)
    requires Conserved(s)
    ensures multiset(Bufs(s.space))[x] + multiset(BackupBufs(s.backups))[x] + multiset(s.freed)[x]
            == if x < s.issued then 1 else 0
    ensures x in s.freed ==> multiset(s.freed)[x] > 0
  {
    UptoOnce(s.issued, x);
    assert Owned(s)[x] == multiset(Bufs(s.space))[x] + multiset(BackupBufs(s.backups))[x] + multiset(s.freed)[x];
  }

  lemma StoredApart(s: Server, t: Tuple)
    requires Conserved(s) && t in s.space
    ensures t.buf < s.issued && t.buf !in s.freed
    ensures forall b | b in s.backups :: b.tuple.buf != t.buf
  {
    OneOwner(s, t.buf);
    var i :| 0 <= i < |s.space| && s.space[i] == t;
    assert Bufs(s.space)[i] == t.buf;
    assert multiset(Bufs(s.space))[t.buf] > 0;
    forall b | b in s.backups
      ensures b.tuple.buf != t.buf
    {
      var j :| 0 <= j < |s.backups| && s.backups[j] == b;
      assert BackupBufs(s.backups)[j] == b.tuple.buf;
      assert multiset(BackupBufs(s.backups))[b.tuple.buf] > 0;
    }
  }

  lemma BackedApart(s: Server, b: Backup)
    requires Conserved(s) && b in s.backups
    ensures b.tuple.buf < s.issued && b.tuple.buf !in s.freed
  {
    OneOwner(s, b.tuple.buf);
    var j :| 0 <= j < |s.backups| && s.backups[j] == b;
    assert BackupBufs(s.backups)[j] == b.tuple.buf;
    assert multiset(BackupBufs(s.backups))[b.tuple.buf] > 0;
  }

  /** No two owners share a buffer, and no owner's buffer has been freed. */
  lemma OwnersApart(s: Server)
    requires Conserved(s)
    ensures forall t | t in s.space :: t.buf < s.issued && t.buf !in s.freed
    ensures forall b | b in s.backups :: b.tuple.buf < s.issued && b.tuple.buf !in s.freed
    ensures forall t, b | t in s.space && b in s.backups :: t.buf != b.tuple.buf
  {
    forall t | t in s.space
      ensures t.buf < s.issued && t.buf !in s.freed && forall b | b in s.backups :: t.buf != b.tuple.buf
    {
      StoredApart(s, t);
    }
    forall b | b in s.backups
      ensures b.tuple.buf < s.issued && b.tuple.buf !in s.freed
    {
      BackedApart(s, b);
    }
  }

  /** The tuple of a delivery is still stored, or the last delivery handed it over. */
  predicate NotLost(r: Server, k: nat)
    requires k < |r.log|
  {
    r.log[k].tuple in r.space || (Handed(r.log[|r.log| - 1]) && r.log[|r.log| - 1].tuple == r.log[k].tuple)
  }

  lemma PutLosesNothing(m: Matcher, s: Server, name: string, data: string, priority: nat, sends: seq<bool>)
    requires UniqueNames(s.space)
    ensures var r := Put(m, s, name, data, priority, sends);
            forall k | |s.log| <= k < |r.log| :: NotLost(r, k)
  {
    var t := NewTuple(s, name, data, priority);
    var c := Consume(m, s.queue, t, sends);
    ConsumeLog(m, s.queue, t, sends);
    if c.winner.None? { StoreContents(Offered(s, c), t); }
  }

  /** A GET whose direct reply could not be written leaves the tuple stored; a
      PUT whose deliveries to waiting GETs all failed stores it. */
  lemma FailedDeliveryLosesNothing(m: Matcher, s: Server, c: Connection)
    requires Inv(m, s)
    ensures var r := Handle(m, s, c); forall k | |s.log| <= k < |r.log| :: NotLost(r, k)
  {
    match c
    case PutConn(Some(h), true, Some(data), true, sends) =>
      PutLosesNothing(m, s, h.name, data, h.priority, sends);
    case ShellConn(Some(h), true, Some(_), Some(output), true, true, sends) =>
      PutLosesNothing(m, s, h.name, ShellData(output), h.priority, sends);
    case _ =>
  }
}
