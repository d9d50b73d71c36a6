/** The server of tsh/tsh.c on its linked nodes. Each method is proved against the
    step function of the same operation in TupleSpace. */
module TshServer {
  import opened TupleSpace
  import opened Waiting
  import opened ServerInvariants
  import opened TshNodes

  const E_CONNECT := -20

  /** The result of the functions below that would be predicates if they could be
      made opaque. A predicate in a contract is taken apart at every call; a function
      with a value of this type is carried as a whole, and its definition is used
      only where an operation touches that part of the state. */
  datatype Shape = Sound | Corrupt

  /** No backup, and no stored tuple, uses a freed buffer. */
  ghost function BackupsUnfreed(backups: seq<Backup>, freed: seq<nat>): Shape {
    if forall b | b in backups :: b.tuple.buf !in freed then Sound else Corrupt
  }

  ghost function SpaceUnfreed(space: seq<Tuple>, freed: seq<nat>): Shape {
    if forall x | x in space :: x.buf !in freed then Sound else Corrupt
  }

  lemma NothingFreed(v: Server)
    requires Conserved(v)
    ensures BackupsUnfreed(v.backups, v.freed).Sound? && SpaceUnfreed(v.space, v.freed).Sound?
    ensures v.issued !in v.freed
  {
    OwnersApart(v);
    OneOwner(v, v.issued);
  }

  /** The global `tsh` of tsh/tsh.h, with the counter total_fetched. */
  class Tsh {
    const matches: Matcher
    var space: SpaceNode?
    var retrieve: BackupNode?
    var queueHead: RequestNode?
    var queueTail: RequestNode?
    var totalFetched: nat

    /** The server value that the heap represents, and the nodes in list order. */
    ghost var view: Server
    ghost var spaceNodes: seq<SpaceNode>
    ghost var backupNodes: seq<BackupNode>
    ghost var queueNodes: seq<RequestNode>
    ghost var payloads: seq<Payload>

    /** All nodes and buffers ever allocated, listed or not. */
    ghost var spaceRepr: set<SpaceNode>
    ghost var backupRepr: set<BackupNode>
    ghost var queueRepr: set<RequestNode>
    ghost var payloadRepr: set<Payload>

    // The four parts of the heap.

    ghost function SpaceShape(ts: seq<Tuple>): Shape
      reads this`space, this`spaceNodes, this`spaceRepr, this`payloads, spaceRepr
    {
      if Inside(spaceNodes, spaceRepr) && SpaceLinked(space, spaceNodes) && SpaceHolds(spaceNodes, ts, payloads)
      then Sound else Corrupt
    }

    ghost function BackupShape(bs: seq<Backup>): Shape
      reads this`retrieve, this`backupNodes, this`backupRepr, this`payloads, backupRepr
    {
      if Inside(backupNodes, backupRepr) && BackupLinked(retrieve, backupNodes) && BackupsHold(backupNodes, bs, payloads)
      then Sound else Corrupt
    }

    ghost function QueueShape(qs: seq<Request>): Shape
      reads this`queueHead, this`queueTail, this`queueNodes, this`queueRepr, queueRepr
    {
      if Inside(queueNodes, queueRepr) && QueueLinked(queueHead, queueTail, queueNodes) && QueueHolds(queueNodes, qs)
      then Sound else Corrupt
    }

    ghost function PayloadShape(freed: seq<nat>, issued: nat): Shape
      reads this`payloads, this`payloadRepr, payloadRepr`live
    {
      if Inside(payloads, payloadRepr) && |payloads| == issued && Tracked(payloads, freed)
      then Sound else Corrupt
    }

    ghost predicate Valid()
      reads this, spaceRepr, backupRepr, queueRepr, payloadRepr
    {
      && SpaceShape(view.space).Sound?
      && BackupShape(view.backups).Sound?
      && QueueShape(view.queue).Sound?
      && PayloadShape(view.freed, view.issued).Sound?
      && totalFetched == view.fetched
    }

    /** initCommon: empty lists. */
    constructor (matches: Matcher)
      ensures Valid() && view == EMPTY && this.matches == matches
      ensures spaceRepr == {} && backupRepr == {} && queueRepr == {} && payloadRepr == {}
    {
      this.matches := matches;
      space, retrieve, queueHead, queueTail, totalFetched := null, null, null, null, 0;
      view, spaceNodes, backupNodes, queueNodes, payloads := EMPTY, [], [], [], [];
      spaceRepr, backupRepr, queueRepr, payloadRepr := {}, {}, {}, {};
    }

    // ----- the tuple list -----

    method FindTuple(expr: string) returns (high: SpaceNode?, ghost at: int)
      requires SpaceShape(view.space).Sound?
      ensures at == Find(matches, view.space, expr)
      ensures var i := Find(matches, view.space, expr); high == if i == -1 then null else spaceNodes[i]
    {
      high, at := null, -1;
      var s := space;
      ghost var i := 0;
      while s != null
        invariant 0 <= i <= |spaceNodes|
        invariant s == if i < |spaceNodes| then spaceNodes[i] else null
        invariant at == Find(matches, view.space[..i], expr)
        invariant high == if at == -1 then null else spaceNodes[at]
        decreases |spaceNodes| - i
      {
        assert view.space[..i + 1][..i] == view.space[..i];
        assert spaceNodes[i].Holds(view.space[i], payloads);
        assert at >= 0 ==> spaceNodes[at].Holds(view.space[at], payloads);
        if matches(expr, s.name) && (high == null || s.priority > high.priority) {
          high, at := s, i;
        }
        s := s.next;
        i := i + 1;
      }
      assert view.space[..i] == view.space;
    }

    /** The position at which a tuple of this name is stored or will be: the node
        and its index, or the last node (null for an empty list) and -1. */
    method FindSameName(name: string) returns (ptr: SpaceNode?, found: bool, ghost at: int)
      requires SpaceShape(view.space).Sound?
      ensures at == IndexOf(view.space, name) && found == (IndexOf(view.space, name) >= 0)
      ensures ptr == if found then spaceNodes[IndexOf(view.space, name)]
                     else if spaceNodes == [] then null else spaceNodes[|spaceNodes| - 1]
    {
      ptr, found, at := space, false, -1;
      ghost var i := 0;
      while ptr != null
        invariant 0 <= i <= |spaceNodes|
        invariant ptr == if i < |spaceNodes| then spaceNodes[i] else null
        invariant i > 0 ==> i < |spaceNodes|
        invariant forall k | 0 <= k < i :: view.space[k].name != name
        decreases |spaceNodes| - i
      {
        assert spaceNodes[i].Holds(view.space[i], payloads);
        if ptr.name == name {
          found, at := true, i;
          return;
        }
        if ptr.next == null {
          break;
        }
        ptr := ptr.next;
        i := i + 1;
      }
    }

    /** free() of a payload buffer: it must be live, and no other buffer is touched. */
    method Release(p: Payload, ghost buf: nat)
      requires PayloadShape(view.freed, view.issued).Sound?
      requires buf < |payloads| && p == payloads[buf] && buf !in view.freed
      modifies this`view, p`live
      ensures view == old(view).(freed := old(view).freed + [buf])
      ensures PayloadShape(view.freed, view.issued).Sound?
      ensures !p.live
    {
      p.Free();
      view := view.(freed := view.freed + [buf]);
    }

    /** The in-place half of storeTuple. */
    method Overwrite(ptr: SpaceNode, s: SpaceNode, ghost t: Tuple, ghost at: nat)
      requires SpaceShape(view.space).Sound? && PayloadShape(view.freed, view.issued).Sound?
      requires at < |spaceNodes| && ptr == spaceNodes[at]
      requires s.Holds(t, payloads) && view.space[at].name == t.name
      requires view.space[at].buf !in view.freed
      modifies this`view, payloadRepr`live, ptr`tuple, ptr`length, ptr`priority
      ensures view == old(view).(space := old(view).space[at := t], freed := old(view).freed + [old(view).space[at].buf])
      ensures SpaceShape(view.space).Sound? && PayloadShape(view.freed, view.issued).Sound?
    {
      assert ptr.Holds(view.space[at], payloads);
      Release(ptr.tuple, view.space[at].buf);
      CopyInto(ptr, s, t, at);
    }

    method CopyInto(ptr: SpaceNode, s: SpaceNode, ghost t: Tuple, ghost at: nat)
      requires SpaceShape(view.space).Sound?
      requires at < |spaceNodes| && ptr == spaceNodes[at]
      requires s.Holds(t, payloads) && view.space[at].name == t.name
      modifies this`view, ptr`tuple, ptr`length, ptr`priority
      ensures view == old(view).(space := old(view).space[at := t])
      ensures SpaceShape(view.space).Sound?
    {
      assert ptr.Holds(view.space[at], payloads);
      ptr.tuple := s.tuple;
      ptr.length := s.length;
      ptr.priority := s.priority;
      forall i | 0 <= i < |spaceNodes| && i != at
        ensures spaceNodes[i].Holds(view.space[i], payloads)
      {
        assert old(spaceNodes[i].Holds(view.space[i], payloads));
      }
      view := view.(space := view.space[at := t]);
    }

    method Append(last: SpaceNode?, s: SpaceNode, ghost t: Tuple)
      requires SpaceShape(view.space).Sound?
      requires last == if spaceNodes == [] then null else spaceNodes[|spaceNodes| - 1]
      requires s.Holds(t, payloads) && s !in spaceNodes && s in spaceRepr
      modifies this`space, this`spaceNodes, this`view, spaceRepr`next, spaceRepr`prev
      ensures view == old(view).(space := old(view).space + [t])
      ensures SpaceShape(view.space).Sound?
    {
      s.next := null;
      s.prev := last;
      if last == null {
        space := s;
      } else {
        last.next := s;
      }
      spaceNodes := spaceNodes + [s];
      view := view.(space := view.space + [t]);
    }

    /** storeTuple for a new node. */
    method StoreTuple(s: SpaceNode, ghost t: Tuple) returns (error: ErrorCode)
      requires SpaceShape(view.space).Sound? && PayloadShape(view.freed, view.issued).Sound?
      requires s.Holds(t, payloads) && s !in spaceNodes && s in spaceRepr
      requires SpaceUnfreed(view.space, view.freed).Sound?
      modifies this`space, this`spaceNodes, this`view, payloadRepr`live
      modifies spaceRepr`next, spaceRepr`prev, spaceRepr`tuple, spaceRepr`length, spaceRepr`priority
      ensures view == Store(old(view), t)
      ensures SpaceShape(view.space).Sound? && PayloadShape(view.freed, view.issued).Sound?
      ensures error == if IndexOf(old(view.space), t.name) >= 0 then OVERRT else NOERROR
    {
      var ptr, found, at := FindSameName(s.name);
      if found {
        Overwrite(ptr, s, t, at);
        error := OVERRT;
      } else {
        Append(ptr, s, t);
        error := NOERROR;
      }
    }

    /** The unlinking half of deleteTuple. */
    method Unlink(s: SpaceNode, ghost at: nat)
      requires Inside(spaceNodes, spaceRepr) && SpaceLinked(space, spaceNodes)
      requires at < |spaceNodes| && s == spaceNodes[at]
      modifies this`space, spaceRepr`next, spaceRepr`prev
      ensures SpaceLinkedAround(spaceNodes, at)
      ensures space == if at > 0 then spaceNodes[0] else if |spaceNodes| > 1 then spaceNodes[1] else null
    {
      if s == space {
        space := s.next;
      } else {
        s.prev.next := s.next;
      }
      if s.next != null {
        s.next.prev := s.prev;
      }
    }

    method TakeOut(s: SpaceNode, ghost at: nat)
      requires SpaceShape(view.space).Sound?
      requires at < |spaceNodes| && s == spaceNodes[at]
      modifies this`space, this`spaceNodes, this`view, spaceRepr`next, spaceRepr`prev
      ensures view == old(view).(space := Remove(old(view).space, at))
      ensures SpaceShape(view.space).Sound?
      ensures spaceNodes == Remove(old(spaceNodes), at)
    {
      Unlink(s, at);
      SpaceUnlinked(spaceNodes, at, space);
      SpaceHoldsRest(spaceNodes, view.space, payloads, at);
      spaceNodes := Remove(spaceNodes, at);
      view := view.(space := Remove(view.space, at));
    }

    // ----- the backup list -----

    method FindBackupNode(host: int, procId: int) returns (p: BackupNode?, ghost at: int)
      requires BackupShape(view.backups).Sound?
      ensures at == FindBackup(view.backups, host, procId)
      ensures var i := FindBackup(view.backups, host, procId); p == if i == -1 then null else backupNodes[i]
    {
      p, at := retrieve, 0;
      while p != null
        invariant 0 <= at <= |backupNodes|
        invariant p == if at < |backupNodes| then backupNodes[at] else null
        invariant forall k | 0 <= k < at :: !(view.backups[k].host == host && view.backups[k].procId == procId)
        decreases |backupNodes| - at
      {
        assert backupNodes[at].Holds(view.backups[at], payloads);
        if p.host == host && p.procId == procId {
          return;
        }
        p := p.next;
        at := at + 1;
      }
      at := -1;
    }

    method ReplaceBackup(p: BackupNode, ghost at: nat, name: string, tuple: Payload, length: nat, priority: nat, q: Request, ghost t: Tuple)
      requires BackupShape(view.backups).Sound? && PayloadShape(view.freed, view.issued).Sound?
      requires at < |backupNodes| && p == backupNodes[at]
      requires view.backups[at].host == q.host && view.backups[at].procId == q.procId
      requires view.backups[at].tuple.buf !in view.freed
      requires t.buf < |payloads| && tuple == payloads[t.buf] && tuple.data == t.data
      requires name == t.name && length == |t.data| && priority == t.priority
      modifies this`view, payloadRepr`live, p`name, p`tuple, p`length, p`priority, p`port, p`cidport
      ensures view == old(view).(backups := old(view).backups[at := BackupOf(t, q, old(view).backups[at].fault)],
                                 freed := old(view).freed + [old(view).backups[at].tuple.buf])
      ensures BackupShape(view.backups).Sound? && PayloadShape(view.freed, view.issued).Sound?
    {
      assert p.Holds(view.backups[at], payloads);
      Release(p.tuple, view.backups[at].tuple.buf);
      RefillBackup(p, at, name, tuple, length, priority, q, t);
    }

    method RefillBackup(p: BackupNode, ghost at: nat, name: string, tuple: Payload, length: nat, priority: nat, q: Request, ghost t: Tuple)
      requires BackupShape(view.backups).Sound?
      requires at < |backupNodes| && p == backupNodes[at]
      requires view.backups[at].host == q.host && view.backups[at].procId == q.procId
      requires t.buf < |payloads| && tuple == payloads[t.buf] && tuple.data == t.data
      requires name == t.name && length == |t.data| && priority == t.priority
      modifies this`view, p`name, p`tuple, p`length, p`priority, p`port, p`cidport
      ensures view == old(view).(backups := old(view).backups[at := BackupOf(t, q, old(view).backups[at].fault)])
      ensures BackupShape(view.backups).Sound?
    {
      assert p.Holds(view.backups[at], payloads);
      p.Refill(name, tuple, length, priority, q);
      ghost var bs := view.backups[at := BackupOf(t, q, view.backups[at].fault)];
      forall i | 0 <= i < |backupNodes|
        ensures backupNodes[i].Holds(bs[i], payloads)
      {
        assert old(backupNodes[i].Holds(view.backups[i], payloads));
      }
      assert BackupLinked(retrieve, backupNodes);
      assert BackupsHold(backupNodes, bs, payloads);
      view := view.(backups := bs);
    }

    method AddBackup(name: string, tuple: Payload, length: nat, priority: nat, q: Request, ghost t: Tuple)
      requires BackupShape(view.backups).Sound?
      requires t.buf < |payloads| && tuple == payloads[t.buf] && tuple.data == t.data
      requires name == t.name && length == |t.data| && priority == t.priority
      modifies this`view, this`retrieve, this`backupNodes, this`backupRepr
      ensures view == old(view).(backups := [BackupOf(t, q, 0)] + old(view).backups)
      ensures BackupShape(view.backups).Sound?
      ensures (forall x | x in backupRepr :: x in old(backupRepr) || fresh(x))
    {
      var p := new BackupNode(name, tuple, length, priority, q, retrieve);
      retrieve := p;
      backupNodes := [p] + backupNodes;
      backupRepr := backupRepr + {p};
      view := view.(backups := [BackupOf(t, q, 0)] + view.backups);
    }

    /** The tuple moves to the backup list: the second half of deleteTuple, and
        of a successful round of consumeTuple. */
    method CaptureTuple(name: string, tuple: Payload, length: nat, priority: nat, q: Request, ghost t: Tuple)
      requires BackupShape(view.backups).Sound? && PayloadShape(view.freed, view.issued).Sound?
      requires BackupsUnfreed(view.backups, view.freed).Sound?
      requires t.buf < |payloads| && tuple == payloads[t.buf] && tuple.data == t.data
      requires name == t.name && length == |t.data| && priority == t.priority
      modifies this`view, this`retrieve, this`backupNodes, this`backupRepr, payloadRepr`live
      modifies backupRepr`name, backupRepr`tuple, backupRepr`length, backupRepr`priority, backupRepr`port, backupRepr`cidport
      ensures view == Capture(old(view), t, q)
      ensures view.space == old(view).space && view.queue == old(view).queue && view.fetched == old(view).fetched
      ensures BackupShape(view.backups).Sound? && PayloadShape(view.freed, view.issued).Sound?
      ensures (forall x | x in backupRepr :: x in old(backupRepr) || fresh(x))
    {
      var p, at := FindBackupNode(q.host, q.procId);
      if p != null {
        ReplaceBackup(p, at, name, tuple, length, priority, q, t);
      } else {
        AddBackup(name, tuple, length, priority, q, t);
      }
    }

    /** guardf: changes nothing, and never refuses in a reachable state. */
    method Guardf(host: int, procId: int) returns (refused: bool)
      requires BackupShape(view.backups).Sound?
      ensures refused == Guard(view, host, procId)
    {
      var p := retrieve;
      ghost var i := 0;
      while p != null
        invariant 0 <= i <= |backupNodes|
        invariant p == if i < |backupNodes| then backupNodes[i] else null
        invariant forall k | 0 <= k < i ::
                    !(view.backups[k].fault == 1 && view.backups[k].host == host && view.backups[k].procId == procId)
        decreases |backupNodes| - i
      {
        assert backupNodes[i].Holds(view.backups[i], payloads);
        if p.fault == 1 && p.host == host && p.procId == procId {
          return true;
        }
        p := p.next;
        i := i + 1;
      }
      return false;
    }

    // ----- the request queue -----

    method FindRequest(name: string) returns (q: RequestNode?, ghost at: int)
      requires QueueShape(view.queue).Sound?
      ensures at == FirstMatch(matches, view.queue, name)
      ensures var i := FirstMatch(matches, view.queue, name); q == if i == -1 then null else queueNodes[i]
    {
      q, at := queueHead, 0;
      while q != null
        invariant 0 <= at <= |queueNodes|
        invariant q == if at < |queueNodes| then queueNodes[at] else null
        invariant forall k | 0 <= k < at :: !matches(view.queue[k].expr, name)
        decreases |queueNodes| - at
      {
        assert queueNodes[at].Holds(view.queue[at]);
        if matches(q.expr, name) {
          return;
        }
        q := q.next;
        at := at + 1;
      }
      at := -1;
    }

    method UnlinkRequest(q: RequestNode, ghost at: nat)
      requires Inside(queueNodes, queueRepr) && QueueLinked(queueHead, queueTail, queueNodes)
      requires at < |queueNodes| && q == queueNodes[at]
      modifies this`queueHead, this`queueTail, queueRepr`next, queueRepr`prev
      ensures QueueLinkedAround(queueNodes, at)
      ensures queueHead == if at > 0 then queueNodes[0] else if |queueNodes| > 1 then queueNodes[1] else null
      ensures queueTail == if at < |queueNodes| - 1 then queueNodes[|queueNodes| - 1]
                           else if |queueNodes| > 1 then queueNodes[|queueNodes| - 2] else null
    {
      if q == queueHead {
        queueHead := q.next;
      } else {
        q.prev.next := q.next;
      }
      if q == queueTail {
        queueTail := q.prev;
      } else {
        q.next.prev := q.prev;
      }
    }

    method DeleteRequest(q: RequestNode, ghost at: nat)
      requires QueueShape(view.queue).Sound?
      requires at < |queueNodes| && q == queueNodes[at]
      modifies this`queueHead, this`queueTail, this`queueNodes, this`view, queueRepr`next, queueRepr`prev
      ensures view == old(view).(queue := Remove(old(view).queue, at))
      ensures QueueShape(view.queue).Sound?
      ensures queueNodes == Remove(old(queueNodes), at)
    {
      UnlinkRequest(q, at);
      QueueUnlinked(queueNodes, at, queueHead, queueTail);
      QueueHoldsRest(queueNodes, view.queue, at);
      queueNodes := Remove(queueNodes, at);
      view := view.(queue := Remove(view.queue, at));
    }

    method StoreRequest(q: Request, nodeOk: bool) returns (stored: bool)
      requires QueueShape(view.queue).Sound?
      modifies this`queueHead, this`queueTail, this`queueNodes, this`queueRepr, this`view, queueRepr`next
      ensures stored == nodeOk
      ensures view == if nodeOk then old(view).(queue := old(view).queue + [q]) else old(view)
      ensures QueueShape(view.queue).Sound?
      ensures (forall x | x in queueRepr :: x in old(queueRepr) || fresh(x))
    {
      if !nodeOk {
        return false;
      }
      var node := new RequestNode(q, queueTail);
      if queueTail == null {
        queueHead := node;
      } else {
        queueTail.next := node;
      }
      queueTail := node;
      queueNodes := queueNodes + [node];
      queueRepr := queueRepr + {node};
      view := view.(queue := view.queue + [q]);
      return true;
    }

    // ----- offering a tuple to the waiting requests -----

    /** sendTuple: `ok` is the outcome of connecting and writing. */
    method SendTuple(s: SpaceNode, ok: bool) returns (r: int)
      requires s.tuple.live
      ensures r == if ok then 1 else E_CONNECT
    {
      r := if ok then 1 else E_CONNECT;
    }

    /** One unsuccessful round: the request is dropped whatever its outcome. */
    method DropRequest(q: RequestNode, ghost at: nat, ghost t: Tuple, ok: bool)
      requires QueueShape(view.queue).Sound?
      requires at < |queueNodes| && q == queueNodes[at]
      modifies this`queueHead, this`queueTail, this`queueNodes, this`view, queueRepr`next, queueRepr`prev
      ensures view == old(view).(queue := Remove(old(view).queue, at),
                                 log := old(view).log + [Delivery(old(view).queue[at], t, ok, true)])
      ensures QueueShape(view.queue).Sound?
    {
      ghost var req := view.queue[at];
      DeleteRequest(q, at);
      view := view.(log := view.log + [Delivery(req, t, ok, true)]);
    }

    /** The fields of a waiting request, read before it is released. */
    method ReadRequest(q: RequestNode, ghost at: nat) returns (req: Request)
      requires QueueShape(view.queue).Sound? && at < |queueNodes| && q == queueNodes[at]
      ensures req == view.queue[at]
    {
      assert q.Holds(view.queue[at]);
      req := q.View();
    }

    /** The bookkeeping of a successful round. */
    method Reward(s: SpaceNode, req: Request, ghost t: Tuple)
      requires BackupShape(view.backups).Sound? && PayloadShape(view.freed, view.issued).Sound?
      requires BackupsUnfreed(view.backups, view.freed).Sound?
      requires s.Holds(t, payloads) && totalFetched == view.fetched
      modifies this`view, this`totalFetched, this`retrieve, this`backupNodes, this`backupRepr, payloadRepr`live
      modifies backupRepr`name, backupRepr`tuple, backupRepr`length, backupRepr`priority, backupRepr`port, backupRepr`cidport
      ensures view == Capture(old(view).(fetched := old(view).fetched + 1), t, req)
      ensures view.queue == old(view).queue
      ensures BackupShape(view.backups).Sound? && PayloadShape(view.freed, view.issued).Sound?
      ensures totalFetched == view.fetched
      ensures (forall x | x in backupRepr :: x in old(backupRepr) || fresh(x))
    {
      totalFetched := totalFetched + 1;
      view := view.(fetched := view.fetched + 1);
      CaptureTuple(s.name, s.tuple, s.length, s.priority, req, t);
    }

    /** The successful round: the tuple goes to the requester and its backup. */
    method HandOver(q: RequestNode, ghost at: nat, s: SpaceNode, ghost t: Tuple) returns (ghost mid: Server)
      requires QueueShape(view.queue).Sound? && BackupShape(view.backups).Sound? && PayloadShape(view.freed, view.issued).Sound?
      requires BackupsUnfreed(view.backups, view.freed).Sound?
      requires at < |queueNodes| && q == queueNodes[at]
      requires s.Holds(t, payloads) && totalFetched == view.fetched
      modifies this`queueHead, this`queueTail, this`queueNodes, this`view, this`totalFetched, queueRepr`next, queueRepr`prev
      modifies this`retrieve, this`backupNodes, this`backupRepr, payloadRepr`live
      modifies backupRepr`name, backupRepr`tuple, backupRepr`length, backupRepr`priority, backupRepr`port, backupRepr`cidport
      ensures mid == old(view).(queue := Remove(old(view).queue, at), fetched := old(view).fetched + 1,
                                log := old(view).log + [Delivery(old(view).queue[at], t, true, true)])
      ensures view == Capture(mid, t, old(view).queue[at])
      ensures QueueShape(view.queue).Sound? && BackupShape(view.backups).Sound? && PayloadShape(view.freed, view.issued).Sound?
      ensures totalFetched == view.fetched
      ensures (forall x | x in backupRepr :: x in old(backupRepr) || fresh(x))
    {
      var req := ReadRequest(q, at);
      DropRequest(q, at, t, true);
      mid := view.(fetched := view.fetched + 1);
      Reward(s, req, t);
    }

    /** One round of consumeTuple's loop. A success of a GET ends the loop before
        the queue changes; otherwise the request is dropped. */
    method Round(q: RequestNode, ghost at: nat, s: SpaceNode, ghost t: Tuple, ok: bool) returns (won: bool)
      requires QueueShape(view.queue).Sound? && s.tuple.live
      requires at < |queueNodes| && q == queueNodes[at]
      modifies this`queueHead, this`queueTail, this`queueNodes, this`view, queueRepr`next, queueRepr`prev
      ensures QueueShape(view.queue).Sound?
      ensures won == (ok && old(view).queue[at].op.GET?)
      ensures won ==> view == old(view) && queueNodes == old(queueNodes)
      ensures !won ==> view == old(view).(queue := Remove(old(view).queue, at),
                                          log := old(view).log + [Delivery(old(view).queue[at], t, ok, true)])
    {
      assert q.Holds(view.queue[at]);
      var r := SendTuple(s, ok);
      won := r > 0 && q.request.GET?;
      if !won {
        DropRequest(q, at, t, ok);
      }
    }

    /** What holds between two rounds of an offer that began in state v0. */
    ghost predicate Offering(v0: Server, t: Tuple, sends: seq<bool>, left: seq<bool>, tried: seq<Delivery>,
                             q: RequestNode?, at: int)
      reads this
    {
      && view == v0.(queue := view.queue, log := v0.log + tried)
      && Continues(matches, v0.queue, t, sends, view.queue, left, tried)
      && at == FirstMatch(matches, view.queue, t.name) < |queueNodes|
      && q == if at == -1 then null else queueNodes[at]
    }

    method DropAndFind(q: RequestNode, ghost at: int, s: SpaceNode, ghost t: Tuple, left: seq<bool>,
                       ghost v0: Server, ghost sends: seq<bool>, ghost tried: seq<Delivery>)
      returns (won: bool, q': RequestNode?, ghost at': int, left': seq<bool>, ghost tried': seq<Delivery>)
      requires QueueShape(view.queue).Sound? && s.tuple.live && s.name == t.name
      requires Offering(v0, t, sends, left, tried, q, at)
      modifies this`queueHead, this`queueTail, this`queueNodes, this`view, queueRepr`next, queueRepr`prev
      ensures QueueShape(view.queue).Sound? && Offering(v0, t, sends, left', tried', q', at')
      ensures won ==> q' == q && Outcome(left', 0) && view.queue[at'].op.GET?
      ensures if won then view == old(view) else |view.queue| < |old(view).queue|
    {
      won := Round(q, at, s, t, left != [] && left[0]);
      if won {
        q', at', left', tried' := q, at, left, tried;
      } else {
        ghost var queue := old(view).queue;
        ConsumeRound(matches, v0.queue, sends, tried, queue, t, left, at);
        tried', left' := tried + [Delivery(queue[at], t, Outcome(left, 0), true)], Later(left);
        q', at' := FindRequest(s.name);
      }
    }

    /** The rounds of consumeTuple that do not hand the tuple over: `q` is the
        request whose round would, or null when no request matches any more. */
    method TryWaiting(s: SpaceNode, ghost t: Tuple, sends: seq<bool>)
      returns (q: RequestNode?, ghost at: int, ghost tried: seq<Delivery>, ghost rest: seq<bool>)
      requires QueueShape(view.queue).Sound?
      requires s.tuple.live && s.name == t.name
      modifies this`queueHead, this`queueTail, this`queueNodes, this`view, queueRepr`next, queueRepr`prev
      ensures QueueShape(view.queue).Sound?
      ensures Offering(old(view), t, sends, rest, tried, q, at)
      ensures q != null ==> Outcome(rest, 0) && view.queue[at].op.GET?
    {
      var left, won := sends, false;
      tried := [];
      q, at := FindRequest(s.name);
      while q != null && !won
        invariant QueueShape(view.queue).Sound? && Offering(old(view), t, sends, left, tried, q, at)
        invariant won ==> q != null && Outcome(left, 0) && view.queue[at].op.GET?
        invariant s.tuple.live && s.name == t.name
        decreases |view.queue|, !won
      {
        won, q, at, left, tried := DropAndFind(q, at, s, t, left, old(view), sends, tried);
      }
      rest := left;
    }

    /** The end of consumeTuple: the round that hands the tuple over, or none. */
    method Conclude(q: RequestNode?, s: SpaceNode, ghost t: Tuple, ghost at: int, ghost v0: Server,
                    ghost sends: seq<bool>, ghost rest: seq<bool>, ghost tried: seq<Delivery>)
      returns (consumed: bool)
      requires QueueShape(view.queue).Sound? && BackupShape(view.backups).Sound?
      requires PayloadShape(view.freed, view.issued).Sound?
      requires BackupsUnfreed(view.backups, view.freed).Sound?
      requires s.Holds(t, payloads) && totalFetched == view.fetched
      requires Offering(v0, t, sends, rest, tried, q, at)
      requires q != null ==> Outcome(rest, 0) && view.queue[at].op.GET?
      modifies this`queueHead, this`queueTail, this`queueNodes, this`view, this`totalFetched
      modifies queueRepr`next, queueRepr`prev, this`retrieve, this`backupNodes, this`backupRepr, payloadRepr`live
      modifies backupRepr`name, backupRepr`tuple, backupRepr`length, backupRepr`priority
      modifies backupRepr`port, backupRepr`cidport
      ensures consumed == Winner(matches, v0, t, sends).Some?
      ensures view == Offer(matches, v0, t, sends)
      ensures QueueShape(view.queue).Sound? && BackupShape(view.backups).Sound?
      ensures PayloadShape(view.freed, view.issued).Sound?
      ensures totalFetched == view.fetched
      ensures (forall x | x in backupRepr :: x in old(backupRepr) || fresh(x))
    {
      consumed := q != null;
      if q != null {
        OfferWon(matches, v0, view, t, sends, rest, tried, at);
        ghost var mid := HandOver(q, at, s, t);
      } else {
        OfferLost(matches, v0, view, t, sends, rest, tried);
      }
    }

    /** consumeTuple. `sends` are the outcomes of the attempts to send, in order. */
    method ConsumeTuple(s: SpaceNode, ghost t: Tuple, sends: seq<bool>) returns (consumed: bool)
      requires QueueShape(view.queue).Sound? && BackupShape(view.backups).Sound? && PayloadShape(view.freed, view.issued).Sound?
      requires BackupsUnfreed(view.backups, view.freed).Sound?
      requires s.Holds(t, payloads) && t.buf !in view.freed && totalFetched == view.fetched
      modifies this`queueHead, this`queueTail, this`queueNodes, this`view, this`totalFetched, queueRepr`next, queueRepr`prev
      modifies this`retrieve, this`backupNodes, this`backupRepr, payloadRepr`live
      modifies backupRepr`name, backupRepr`tuple, backupRepr`length, backupRepr`priority, backupRepr`port, backupRepr`cidport
      ensures consumed == Winner(matches, old(view), t, sends).Some?
      ensures view == Offer(matches, old(view), t, sends)
      ensures QueueShape(view.queue).Sound? && BackupShape(view.backups).Sound? && PayloadShape(view.freed, view.issued).Sound?
      ensures totalFetched == view.fetched
      ensures (forall x | x in backupRepr :: x in old(backupRepr) || fresh(x))
    {
      var q;
      ghost var at, tried, rest;
      q, at, tried, rest := TryWaiting(s, t, sends);
      consumed := Conclude(q, s, t, at, old(view), sends, rest, tried);
    }

    // ----- operations -----

    /** The payload of an accepted PUT becomes the newest buffer. */
    method Accept(data: string, ghost t: Tuple) returns (p: Payload)
      requires SpaceShape(view.space).Sound? && BackupShape(view.backups).Sound? && PayloadShape(view.freed, view.issued).Sound?
      requires t.buf == view.issued && t.data == data && t.buf !in view.freed
      modifies this`payloads, this`payloadRepr, this`view
      ensures view == old(view).(issued := old(view).issued + 1)
      ensures SpaceShape(view.space).Sound? && BackupShape(view.backups).Sound? && PayloadShape(view.freed, view.issued).Sound?
      ensures t.buf < |payloads| && p == payloads[t.buf] && p.data == data && p.live
      ensures fresh(p) && payloadRepr == old(payloadRepr) + {p}
    {
      p := new Payload(data);
      HoldsWithMore(spaceNodes, view.space, backupNodes, view.backups, payloads, p);
      payloads := payloads + [p];
      payloadRepr := payloadRepr + {p};
      view := view.(issued := view.issued + 1);
    }

    /** createTuple with the buffer that has arrived. */
    method CreateTuple(name: string, data: string, priority: nat, ghost t: Tuple) returns (s: SpaceNode)
      requires Valid() && t == NewTuple(view, name, data, priority) && t.buf !in view.freed
      modifies this`payloads, this`payloadRepr, this`spaceRepr, this`view
      ensures Valid() && view == old(view).(issued := old(view).issued + 1)
      ensures s.Holds(t, payloads) && s !in spaceNodes && s in spaceRepr
      ensures old(spaceRepr) <= spaceRepr && (forall x | x in spaceRepr :: x in old(spaceRepr) || fresh(x))
      ensures (forall x | x in payloadRepr :: x in old(payloadRepr) || fresh(x))
    {
      var p := Accept(data, t);
      s := new SpaceNode(name, p, |data|, priority);
      spaceRepr := spaceRepr + {s};
      assert payloadRepr - old(payloadRepr) <= {p};
    }

    /** The new node is stored, since no request took it. */
    method StoreNew(s: SpaceNode, ghost t: Tuple) returns (error: ErrorCode)
      requires Valid() && s.Holds(t, payloads) && s !in spaceNodes && s in spaceRepr
      requires SpaceUnfreed(view.space, view.freed).Sound?
      modifies this`space, this`spaceNodes, this`view, payloadRepr`live
      modifies spaceRepr`next, spaceRepr`prev, spaceRepr`tuple, spaceRepr`length, spaceRepr`priority
      ensures Valid() && view == Store(old(view), t)
      ensures error == if IndexOf(old(view.space), t.name) >= 0 then OVERRT else NOERROR
    {
      error := StoreTuple(s, t);
    }

    /** OpPut's last part: offer the new node to the waiting requests, store it
        unless a GET took it. */
    method Settle(s: SpaceNode, ghost t: Tuple, sends: seq<bool>) returns (error: ErrorCode)
      requires Valid()
      requires s.Holds(t, payloads) && s !in spaceNodes && s in spaceRepr && t.buf !in view.freed
      requires BackupsUnfreed(view.backups, view.freed).Sound?
      requires SpaceUnfreed(view.space, view.freed).Sound?
      modifies this`queueHead, this`queueTail, this`queueNodes, this`view, this`totalFetched
      modifies queueRepr`next, queueRepr`prev, this`retrieve, this`backupNodes, this`backupRepr, payloadRepr`live
      modifies backupRepr`name, backupRepr`tuple, backupRepr`length, backupRepr`priority
      modifies backupRepr`port, backupRepr`cidport, this`space, this`spaceNodes
      modifies spaceRepr`next, spaceRepr`prev, spaceRepr`tuple, spaceRepr`length, spaceRepr`priority
      ensures Valid()
      ensures var r := Offer(matches, old(view), t, sends);
              view == if Winner(matches, old(view), t, sends).Some? then r else Store(r, t)
      ensures error == if Winner(matches, old(view), t, sends).None? && IndexOf(old(view).space, t.name) >= 0
                       then OVERRT else NOERROR
      ensures (forall x | x in backupRepr :: x in old(backupRepr) || fresh(x))
    {
      OfferKeeps(matches, view, t, sends);
      var consumed := ConsumeTuple(s, t, sends);
      if !consumed {
        error := StoreNew(s, t);
      } else {
        error := NOERROR;
      }
    }

    /** The part of OpPut after everything has arrived and been allocated. */
    method PutAccepted(name: string, data: string, priority: nat, sends: seq<bool>) returns (error: ErrorCode)
      requires Valid() && Conserved(view)
      modifies this`queueHead, this`queueTail, this`queueNodes, this`view, this`totalFetched
      modifies queueRepr`next, queueRepr`prev, this`retrieve, this`backupNodes, this`backupRepr
      modifies backupRepr`name, backupRepr`tuple, backupRepr`length, backupRepr`priority
      modifies backupRepr`port, backupRepr`cidport, this`space, this`spaceNodes, this`spaceRepr
      modifies spaceRepr`next, spaceRepr`prev, spaceRepr`tuple, spaceRepr`length, spaceRepr`priority
      modifies this`payloads, this`payloadRepr, payloadRepr`live
      ensures Valid()
      ensures view == Put(matches, old(view), name, data, priority, sends)
      ensures error == PutError(matches, old(view), name, data, priority, sends)
      ensures (forall x | x in spaceRepr :: x in old(spaceRepr) || fresh(x)) && (forall x | x in backupRepr :: x in old(backupRepr) || fresh(x))
      ensures (forall x | x in payloadRepr :: x in old(payloadRepr) || fresh(x))
    {
      ghost var t := NewTuple(view, name, data, priority);
      NothingFreed(view);
      var s := CreateTuple(name, data, priority, t);
      error := Settle(s, t, sends);
    }

    /** OpPut. */
    method OpPut(c: Connection) returns (reply: Reply)
      requires Valid() && Conserved(view) && c.PutConn?
      modifies this, spaceRepr, backupRepr, queueRepr, payloadRepr
      ensures Valid()
      ensures view == Handle(matches, old(view), c)
      ensures reply == ReplyTo(matches, old(view), c)
      ensures (forall x | x in spaceRepr :: x in old(spaceRepr) || fresh(x)) && (forall x | x in backupRepr :: x in old(backupRepr) || fresh(x))
      ensures (forall x | x in queueRepr :: x in old(queueRepr) || fresh(x)) && (forall x | x in payloadRepr :: x in old(payloadRepr) || fresh(x))
    {
      if c.put.None? {
        return Silent;
      }
      var h := c.put.value;
      var refused := Guardf(h.host, h.procId);
      if refused {
        return Silent;
      }
      if !c.bufferOk {
        return PutReply(false, NOMEM);
      }
      if c.body.None? {
        return Silent;
      }
      if !c.tupleOk {
        return PutReply(false, NOMEM);
      }
      var error := PutAccepted(h.name, c.body.value, h.priority, c.sends);
      return PutReply(true, error);
    }

    /** The part of Opshell after the guard. */
    method ShellAccepted(h: PutHeader, bufferOk: bool, command: Option<string>, output: Option<string>,
                         dataOk: bool, tupleOk: bool, sends: seq<bool>) returns (reply: Reply)
      requires Valid() && Conserved(view)
      modifies this`queueHead, this`queueTail, this`queueNodes, this`view, this`totalFetched
      modifies queueRepr`next, queueRepr`prev, this`retrieve, this`backupNodes, this`backupRepr
      modifies backupRepr`name, backupRepr`tuple, backupRepr`length, backupRepr`priority
      modifies backupRepr`port, backupRepr`cidport, this`space, this`spaceNodes, this`spaceRepr
      modifies spaceRepr`next, spaceRepr`prev, spaceRepr`tuple, spaceRepr`length, spaceRepr`priority
      modifies this`payloads, this`payloadRepr, payloadRepr`live
      ensures Valid()
      ensures view == ShellState(matches, old(view), h, bufferOk, command, output, dataOk, tupleOk, sends)
      ensures reply == ShellReplyTo(matches, old(view), h, bufferOk, command, output, dataOk, tupleOk, sends)
      ensures (forall x | x in spaceRepr :: x in old(spaceRepr) || fresh(x)) && (forall x | x in backupRepr :: x in old(backupRepr) || fresh(x))
      ensures (forall x | x in payloadRepr :: x in old(payloadRepr) || fresh(x))
    {
      if !bufferOk {
        return ShellReply(false, NOMEM, None);
      }
      if command.None? {
        return Silent;
      }
      if output.None? {
        return ShellReply(false, NOERROR, Some("shell execution failed"));
      }
      if !dataOk {
        return ShellReply(false, NOMEM, None);
      }
      if !tupleOk {
        return ShellReply(false, NOMEM, output);
      }
      var error := PutAccepted(h.name, ShellData(output.value), h.priority, sends);
      return ShellReply(true, error, output);
    }

    /** Opshell, given what the command prints. */
    method OpShell(c: Connection) returns (reply: Reply)
      requires Valid() && Conserved(view) && c.ShellConn?
      modifies this, spaceRepr, backupRepr, queueRepr, payloadRepr
      ensures Valid()
      ensures view == Handle(matches, old(view), c)
      ensures reply == ReplyTo(matches, old(view), c)
      ensures (forall x | x in spaceRepr :: x in old(spaceRepr) || fresh(x)) && (forall x | x in backupRepr :: x in old(backupRepr) || fresh(x))
      ensures (forall x | x in queueRepr :: x in old(queueRepr) || fresh(x)) && (forall x | x in payloadRepr :: x in old(payloadRepr) || fresh(x))
    {
      if c.shell.None? {
        return Silent;
      }
      var h := c.shell.value;
      var refused := Guardf(h.host, h.procId);
      if refused {
        return Silent;
      }
      reply := ShellAccepted(h, c.bufferOk, c.command, c.output, c.dataOk, c.tupleOk, c.sends);
    }

    /** deleteTuple. */
    method DeleteTuple(s: SpaceNode, q: Request, ghost at: nat)
      requires SpaceShape(view.space).Sound? && BackupShape(view.backups).Sound? && PayloadShape(view.freed, view.issued).Sound?
      requires BackupsUnfreed(view.backups, view.freed).Sound?
      requires at < |spaceNodes| && s == spaceNodes[at]
      modifies this`space, this`spaceNodes, this`view, spaceRepr`next, spaceRepr`prev
      modifies this`retrieve, this`backupNodes, this`backupRepr, payloadRepr`live
      modifies backupRepr`name, backupRepr`tuple, backupRepr`length, backupRepr`priority, backupRepr`port, backupRepr`cidport
      ensures var v := old(view);
              view == Capture(v.(space := Remove(v.space, at)), v.space[at], q)
      ensures SpaceShape(view.space).Sound? && BackupShape(view.backups).Sound? && PayloadShape(view.freed, view.issued).Sound?
      ensures (forall x | x in backupRepr :: x in old(backupRepr) || fresh(x))
    {
      ghost var t := view.space[at];
      assert s.Holds(t, payloads);
      TakeOut(s, at);
      CaptureTuple(s.name, s.tuple, s.length, s.priority, q, t);
    }

    /** A GET takes the tuple it was sent, a READ does not. */
    method TakeFound(s: SpaceNode, q: Request, takes: bool, ghost at: nat)
      requires Valid() && at < |spaceNodes| && s == spaceNodes[at] && BackupsUnfreed(view.backups, view.freed).Sound?
      modifies this`space, this`spaceNodes, this`view, spaceRepr`next, spaceRepr`prev
      modifies this`retrieve, this`backupNodes, this`backupRepr, payloadRepr`live
      modifies backupRepr`name, backupRepr`tuple, backupRepr`length, backupRepr`priority
      modifies backupRepr`port, backupRepr`cidport
      ensures Valid()
      ensures var v := old(view);
              view == if takes then Capture(v.(space := Remove(v.space, at)), v.space[at], q) else v
      ensures (forall x | x in backupRepr :: x in old(backupRepr) || fresh(x))
    {
      if takes {
        DeleteTuple(s, q, at);
      }
    }

    /** The direct answer to a request that finds the tuple `s`. */
    method SendFound(s: SpaceNode, ghost at: nat, q: Request, len: int, w: Writes) returns (reply: Reply)
      requires SpaceShape(view.space).Sound? && PayloadShape(view.freed, view.issued).Sound?
      requires at < |spaceNodes| && s == spaceNodes[at] && SpaceUnfreed(view.space, view.freed).Sound?
      modifies this`view
      ensures view == old(view).(log := old(view).log + [Delivery(q, old(view).space[at], w.All(), false)])
      ensures reply == if w.All() then Present(view.space[at].name, view.space[at].priority, ReplyData(view.space[at].data, len))
                       else Broken
    {
      ghost var t := view.space[at];
      assert s.Holds(t, payloads) && t in view.space;
      view := view.(log := view.log + [Delivery(q, t, w.All(), false)]);
      if !w.found || !w.header {
        return Broken;
      }
      var count := if len > 0 && s.length > len then len else s.length;
      assert s.tuple.live;
      var data := s.tuple.data[..count];
      assert t.data[..|t.data|] == t.data;
      if !w.body {
        return Broken;
      }
      return Present(s.name, s.priority, data);
    }

    method AnswerFound(s: SpaceNode, ghost at: nat, q: Request, len: int, ghost nodeOk: bool, w: Writes)
      returns (reply: Reply)
      requires Valid() && BackupsUnfreed(view.backups, view.freed).Sound? && SpaceUnfreed(view.space, view.freed).Sound?
      requires at == Find(matches, view.space, q.expr) && s == spaceNodes[at]
      modifies this`space, this`spaceNodes, this`view, spaceRepr`next, spaceRepr`prev
      modifies this`retrieve, this`backupNodes, this`backupRepr, payloadRepr`live
      modifies backupRepr`name, backupRepr`tuple, backupRepr`length, backupRepr`priority, backupRepr`port, backupRepr`cidport
      ensures Valid()
      ensures view == Get(matches, old(view), q, len, nodeOk, w)
      ensures reply == GetReply(matches, old(view), q.expr, len, nodeOk, w)
      ensures (forall x | x in backupRepr :: x in old(backupRepr) || fresh(x))
    {
      reply := SendFound(s, at, q, len, w);
      TakeFound(s, q, w.All() && q.op.GET?, at);
    }

    method AnswerMissing(q: Request, len: int, nodeOk: bool, ghost w: Writes) returns (reply: Reply)
      requires Valid() && Find(matches, view.space, q.expr) == -1
      modifies this`queueHead, this`queueTail, this`queueNodes, this`queueRepr, this`view, queueRepr`next
      ensures Valid()
      ensures view == Get(matches, old(view), q, len, nodeOk, w)
      ensures reply == GetReply(matches, old(view), q.expr, len, nodeOk, w)
      ensures (forall x | x in queueRepr :: x in old(queueRepr) || fresh(x))
    {
      if len != -1 {
        var stored := StoreRequest(q, nodeOk);
        reply := Absent(Some(if stored then NOTUPLE else NOMEM));
      } else {
        reply := Absent(None);
      }
    }

    /** The part of OpGet after the guard, for READ and GET. */
    method Answer(q: Request, len: int, nodeOk: bool, w: Writes) returns (reply: Reply)
      requires Valid() && Conserved(view)
      modifies this`space, this`spaceNodes, this`view, spaceRepr`next, spaceRepr`prev
      modifies this`retrieve, this`backupNodes, this`backupRepr, payloadRepr`live
      modifies backupRepr`name, backupRepr`tuple, backupRepr`length, backupRepr`priority, backupRepr`port, backupRepr`cidport
      modifies this`queueHead, this`queueTail, this`queueNodes, this`queueRepr, queueRepr`next
      ensures Valid()
      ensures view == Get(matches, old(view), q, len, nodeOk, w)
      ensures reply == GetReply(matches, old(view), q.expr, len, nodeOk, w)
      ensures (forall x | x in backupRepr :: x in old(backupRepr) || fresh(x)) && (forall x | x in queueRepr :: x in old(queueRepr) || fresh(x))
    {
      NothingFreed(view);
      var s, at := FindTuple(q.expr);
      if s != null {
        reply := AnswerFound(s, at, q, len, nodeOk, w);
      } else {
        reply := AnswerMissing(q, len, nodeOk, w);
      }
    }

    /** OpGet. */
    method OpGet(c: Connection) returns (reply: Reply)
      requires Valid() && Conserved(view) && c.GetConn?
      modifies this, spaceRepr, backupRepr, queueRepr, payloadRepr
      ensures Valid()
      ensures view == Handle(matches, old(view), c)
      ensures reply == ReplyTo(matches, old(view), c)
      ensures (forall x | x in spaceRepr :: x in old(spaceRepr) || fresh(x)) && (forall x | x in backupRepr :: x in old(backupRepr) || fresh(x))
      ensures (forall x | x in queueRepr :: x in old(queueRepr) || fresh(x)) && (forall x | x in payloadRepr :: x in old(payloadRepr) || fresh(x))
    {
      if c.get.None? {
        return Silent;
      }
      var h := c.get.value;
      var refused := Guardf(h.host, h.procId);
      if refused {
        return Silent;
      }
      reply := Answer(ToRequest(h, c.op), h.len, c.nodeOk, c.writes);
    }

    /** The dispatch on the operation code in start(). */
    method Dispatch(c: Connection) returns (reply: Reply)
      requires Valid() && Conserved(view)
      modifies this, spaceRepr, backupRepr, queueRepr, payloadRepr
      ensures Valid()
      ensures view == Handle(matches, old(view), c)
      ensures reply == ReplyTo(matches, old(view), c)
      ensures (forall x | x in spaceRepr :: x in old(spaceRepr) || fresh(x)) && (forall x | x in backupRepr :: x in old(backupRepr) || fresh(x))
      ensures (forall x | x in queueRepr :: x in old(queueRepr) || fresh(x)) && (forall x | x in payloadRepr :: x in old(payloadRepr) || fresh(x))
    {
      match c {
        case PutConn(_, _, _, _, _) => reply := OpPut(c);
        case GetConn(_, _, _, _) => reply := OpGet(c);
        case ShellConn(_, _, _, _, _, _, _) => reply := OpShell(c);
        case Unknown => reply := Silent;
      }
    }

    // ----- the end -----

    method ReleaseTuple(s: SpaceNode, ghost i: nat, ghost v0: Server)
      requires PayloadShape(view.freed, view.issued).Sound? && Conserved(v0) && i < |v0.space|
      requires view == v0.(freed := v0.freed + Bufs(v0.space)[..i]) && s.Holds(v0.space[i], payloads)
      modifies this`view, payloadRepr`live
      ensures view == v0.(freed := v0.freed + Bufs(v0.space)[..i + 1])
      ensures PayloadShape(view.freed, view.issued).Sound?
    {
      NotYetFreed(v0, i);
      Release(s.tuple, v0.space[i].buf);
      assert Bufs(v0.space)[..i + 1] == Bufs(v0.space)[..i] + [v0.space[i].buf];
    }

    method ReleaseBackup(p: BackupNode, ghost i: nat, ghost v0: Server)
      requires PayloadShape(view.freed, view.issued).Sound? && Conserved(v0) && i < |v0.backups|
      requires view == v0.(freed := v0.freed + Bufs(v0.space) + BackupBufs(v0.backups)[..i])
      requires p.Holds(v0.backups[i], payloads)
      modifies this`view, payloadRepr`live
      ensures view == v0.(freed := v0.freed + Bufs(v0.space) + BackupBufs(v0.backups)[..i + 1])
      ensures PayloadShape(view.freed, view.issued).Sound?
    {
      BackupNotYetFreed(v0, i);
      Release(p.tuple, v0.backups[i].tuple.buf);
      assert BackupBufs(v0.backups)[..i + 1] == BackupBufs(v0.backups)[..i] + [v0.backups[i].tuple.buf];
    }

    /** The first loop of deleteSpace. */
    method DeleteTuples()
      requires SpaceShape(view.space).Sound? && PayloadShape(view.freed, view.issued).Sound? && Conserved(view)
      modifies this`space, this`view, payloadRepr`live
      ensures space == null
      ensures view == old(view).(freed := old(view).freed + Bufs(old(view).space))
      ensures PayloadShape(view.freed, view.issued).Sound?
    {
      ghost var i := 0;
      ghost var bufs := Bufs(view.space);
      while space != null
        invariant 0 <= i <= |spaceNodes| == |bufs|
        invariant space == if i < |spaceNodes| then spaceNodes[i] else null
        invariant SpaceLinked(old(space), spaceNodes) && SpaceHolds(spaceNodes, view.space, payloads)
        invariant view == old(view).(freed := old(view).freed + bufs[..i])
        invariant PayloadShape(view.freed, view.issued).Sound?
        decreases |spaceNodes| - i
      {
        var s := space;
        space := space.next;
        assert s.Holds(view.space[i], payloads);
        ReleaseTuple(s, i, old(view));
        i := i + 1;
      }
      assert bufs[..i] == bufs;
    }

    /** The second loop of deleteSpace. */
    method DeleteBackups(ghost v0: Server)
      requires BackupShape(view.backups).Sound? && PayloadShape(view.freed, view.issued).Sound?
      requires Conserved(v0) && view == v0.(freed := v0.freed + Bufs(v0.space))
      modifies this`retrieve, this`view, payloadRepr`live
      ensures retrieve == null
      ensures view == v0.(freed := v0.freed + Bufs(v0.space) + BackupBufs(v0.backups))
      ensures PayloadShape(view.freed, view.issued).Sound?
    {
      ghost var i := 0;
      ghost var bufs := BackupBufs(view.backups);
      while retrieve != null
        invariant 0 <= i <= |backupNodes| == |bufs|
        invariant retrieve == if i < |backupNodes| then backupNodes[i] else null
        invariant BackupLinked(old(retrieve), backupNodes) && BackupsHold(backupNodes, view.backups, payloads)
        invariant view == v0.(freed := v0.freed + Bufs(v0.space) + bufs[..i])
        invariant PayloadShape(view.freed, view.issued).Sound?
        decreases |backupNodes| - i
      {
        var p := retrieve;
        retrieve := retrieve.next;
        assert p.Holds(view.backups[i], payloads);
        ReleaseBackup(p, i, v0);
        i := i + 1;
      }
      assert bufs[..i] == bufs;
    }

    /** deleteSpace: every buffer ever accepted has been released, each once. */
    method DeleteSpace()
      requires Valid() && Conserved(view)
      modifies this`space, this`retrieve, this`view, payloadRepr`live
      ensures space == null && retrieve == null && view == old(view).(freed := view.freed)
      ensures multiset(view.freed) == multiset(Upto(view.issued))
      ensures forall i | 0 <= i < |payloads| :: !payloads[i].live
    {
      DeleteTuples();
      DeleteBackups(old(view));
      AllFreed(old(view), view.freed);
    }

    /** deleteQueue: exactly the waiting requests are released, in order; the tail
        pointer is left as it was. */
    method DeleteQueue() returns (ghost released: seq<RequestNode>)
      requires QueueShape(view.queue).Sound?
      modifies this`queueHead
      ensures queueHead == null && queueTail == old(queueTail)
      ensures released == queueNodes && Injective(released)
    {
      released := [];
      while queueHead != null
        invariant |released| <= |queueNodes| && released == queueNodes[..|released|]
        invariant queueHead == if |released| < |queueNodes| then queueNodes[|released|] else null
        decreases |queueNodes| - |released|
      {
        var q := queueHead;
        queueHead := queueHead.next;
        released := released + [q];
      }
    }

    /** OpExit and sigtermHandler. */
    method OpExit()
      requires Valid() && Conserved(view)
      modifies this`space, this`retrieve, this`queueHead, this`view, payloadRepr`live
      ensures space == null && retrieve == null && queueHead == null
      ensures multiset(view.freed) == multiset(Upto(view.issued))
      ensures forall i | 0 <= i < |payloads| :: !payloads[i].live
    {
      DeleteSpace();
      ghost var released := DeleteQueue();
    }
  }

  lemma NotYetFreed(v: Server, i: nat)
    requires Conserved(v) && i < |v.space|
    ensures v.space[i].buf !in v.freed + Bufs(v.space)[..i]
    ensures v.space[i].buf < v.issued
  {
    StoredApart(v, v.space[i]);
    forall j | 0 <= j < i
      ensures Bufs(v.space)[j] != v.space[i].buf
    {
      BufsDistinct(v, j, i);
    }
  }

  lemma BackupNotYetFreed(v: Server, i: nat)
    requires Conserved(v) && i < |v.backups|
    ensures v.backups[i].tuple.buf !in v.freed + Bufs(v.space) + BackupBufs(v.backups)[..i]
    ensures v.backups[i].tuple.buf < v.issued
  {
    var b := BackupBufs(v.backups);
    BackedApart(v, v.backups[i]);
    OneOwner(v, b[i]);
    assert b[i] in multiset(b);
    forall j | 0 <= j < i
      ensures b[j] != b[i]
    {
      if b[j] == b[i] { TwiceInMultiset(b, j, i); }
    }
    forall j | 0 <= j < |v.space|
      ensures Bufs(v.space)[j] != b[i]
    {
      StoredApart(v, v.space[j]);
    }
  }

  lemma AllFreed(v: Server, freed: seq<nat>)
    requires Conserved(v) && freed == v.freed + Bufs(v.space) + BackupBufs(v.backups)
    ensures multiset(freed) == multiset(Upto(v.issued))
    ensures forall i: nat | i < v.issued :: i in freed
  {
    assert multiset(freed) == Owned(v);
    forall i: nat | i < v.issued
      ensures i in freed
    {
      UptoOnce(v.issued, i);
      assert i in multiset(freed);
    }
  }

  /** The replies to a sequence of connections, each given by the state that the
      connections before it leave. */
  function Replies(m: Matcher, cs: seq<Connection>): (r: seq<Reply>)
    ensures |r| == |cs|
  {
    seq(|cs|, i requires 0 <= i < |cs| => ReplyTo(m, Serve(m, cs[..i]), cs[i]))
  }

  lemma NextReply(m: Matcher, cs: seq<Connection>, c: Connection)
    ensures Serve(m, cs + [c]) == Handle(m, Serve(m, cs), c)
    ensures Replies(m, cs + [c]) == Replies(m, cs) + [ReplyTo(m, Serve(m, cs), c)]
  {
    assert (cs + [c])[..|cs|] == cs;
    assert forall i | 0 <= i < |cs| :: (cs + [c])[..i] == cs[..i];
  }

  lemma TakeOneMore(cs: seq<Connection>, n: nat)
    requires n < |cs|
    ensures cs[..n + 1] == cs[..n] + [cs[n]]
  {
  }

  /** One round of start()'s loop, after the connections `cs`. */
  method HandleNext(tsh: Tsh, ghost cs: seq<Connection>, c: Connection) returns (reply: Reply)
    requires tsh.Valid() && tsh.view == Serve(tsh.matches, cs)
    modifies tsh, tsh.spaceRepr, tsh.backupRepr, tsh.queueRepr, tsh.payloadRepr
    ensures tsh.Valid() && tsh.view == Serve(tsh.matches, cs + [c])
    ensures Replies(tsh.matches, cs + [c]) == Replies(tsh.matches, cs) + [reply]
    ensures (forall x | x in tsh.spaceRepr :: x in old(tsh.spaceRepr) || fresh(x)) && (forall x | x in tsh.backupRepr :: x in old(tsh.backupRepr) || fresh(x))
    ensures (forall x | x in tsh.queueRepr :: x in old(tsh.queueRepr) || fresh(x)) && (forall x | x in tsh.payloadRepr :: x in old(tsh.payloadRepr) || fresh(x))
  {
    ServeInv(tsh.matches, cs);
    NextReply(tsh.matches, cs, c);
    reply := tsh.Dispatch(c);
  }

  /** start(), for a given sequence of connections: the heap server goes through
      exactly the states of TupleSpace.Serve and gives exactly its replies. */
  method Start(matches: Matcher, cs: seq<Connection>) returns (tsh: Tsh, replies: seq<Reply>)
    ensures tsh.Valid() && tsh.matches == matches && fresh(tsh) && fresh(tsh.payloadRepr)
    ensures tsh.view == Serve(matches, cs)
    ensures replies == Replies(matches, cs)
  {
    tsh := new Tsh(matches);
    replies := [];
    for n := 0 to |cs|
      invariant tsh.Valid() && tsh.matches == matches && tsh.view == Serve(matches, cs[..n])
      invariant fresh(tsh) && fresh(tsh.spaceRepr) && fresh(tsh.backupRepr) && fresh(tsh.queueRepr) && fresh(tsh.payloadRepr)
      invariant replies == Replies(matches, cs[..n])
    {
      TakeOneMore(cs, n);
      var reply := HandleNext(tsh, cs[..n], cs[n]);
      replies := replies + [reply];
    }
    assert cs[..|cs|] == cs;
  }

  /** start(), when the exit operation follows: nothing that was ever accepted is left. */
  method StartAndExit(matches: Matcher, cs: seq<Connection>) returns (tsh: Tsh, replies: seq<Reply>)
    ensures replies == Replies(matches, cs)
    ensures tsh.space == null && tsh.retrieve == null && tsh.queueHead == null
    ensures |tsh.payloads| == Serve(matches, cs).issued
    ensures forall i | 0 <= i < |tsh.payloads| :: !tsh.payloads[i].live
  {
    tsh, replies := Start(matches, cs);
    ServeInv(matches, cs);
    tsh.OpExit();
  }

  lemma OfferWon(m: Matcher, v0: Server, v: Server, t: Tuple, sends: seq<bool>, rest: seq<bool>, tried: seq<Delivery>, at: int)
    requires v == v0.(queue := v.queue, log := v0.log + tried)
    requires Continues(m, v0.queue, t, sends, v.queue, rest, tried)
    requires at == FirstMatch(m, v.queue, t.name) && at >= 0
    requires Outcome(rest, 0) && v.queue[at].op.GET?
    ensures Winner(m, v0, t, sends).Some?
    ensures var q := v.queue[at];
            Offer(m, v0, t, sends)
               == Capture(v.(queue := Remove(v.queue, at), log := v.log + [Delivery(q, t, true, true)],
                             fetched := v.fetched + 1), t, q)
  {
    ConsumeStep(m, v.queue, t, rest, at);
    var d := [Delivery(v.queue[at], t, true, true)];
    assert v0.log + (tried + d) == v.log + d;
  }

  lemma OfferLost(m: Matcher, v0: Server, v: Server, t: Tuple, sends: seq<bool>, rest: seq<bool>, tried: seq<Delivery>)
    requires v == v0.(queue := v.queue, log := v0.log + tried)
    requires Continues(m, v0.queue, t, sends, v.queue, rest, tried)
    requires FirstMatch(m, v.queue, t.name) == -1
    ensures Winner(m, v0, t, sends).None? && Offer(m, v0, t, sends) == v
  {
    NothingWaits(m, v.queue, t, rest);
    assert tried + [] == tried;
  }
}
