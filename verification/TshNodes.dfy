/** The heap structures of tsh/tsh.h and what it means for them to hold a list. */
module TshNodes {
  import opened TupleSpace

  /** A malloc'ed payload buffer. `live` ends with its release: releasing or
      reading a buffer requires it to be live. */
  class Payload {
    const data: string
    ghost var live: bool

    constructor (data: string)
      ensures this.data == data && live
    {
      this.data := data;
      live := true;
    }

    method Free()
      requires live
      modifies `live
      ensures !live
    {
      live := false;
    }
  }

  class SpaceNode {
    var name: string
    var tuple: Payload
    var priority: nat
    var length: nat
    var next: SpaceNode?
    var prev: SpaceNode?

    /** createTuple: the links are set when the node is stored. */
    constructor (name: string, tuple: Payload, length: nat, priority: nat)
      ensures this.name == name && this.tuple == tuple && this.length == length && this.priority == priority
    {
      this.name, this.tuple, this.length, this.priority := name, tuple, length, priority;
    }

    ghost predicate Holds(t: Tuple, ps: seq<Payload>)
      reads `name, `tuple, `length, `priority
    {
      && t.buf < |ps| && tuple == ps[t.buf] && tuple.data == t.data
      && name == t.name && length == |t.data| && priority == t.priority
    }
  }

  class BackupNode {
    var name: string
    var tuple: Payload
    var priority: nat
    var length: nat
    var host: int
    var port: int
    var cidport: int
    var procId: int
    var fault: int
    var next: BackupNode?

    constructor (name: string, tuple: Payload, length: nat, priority: nat, q: Request, next: BackupNode?)
      ensures this.name == name && this.tuple == tuple && this.length == length && this.priority == priority
      ensures host == q.host && port == q.port && cidport == q.cidport && procId == q.procId && fault == 0
      ensures this.next == next
    {
      this.name, this.tuple, this.length, this.priority := name, tuple, length, priority;
      host, port, cidport, procId, fault := q.host, q.port, q.cidport, q.procId, 0;
      this.next := next;
    }

    /** The entry of a process that consumes another tuple. */
    method Refill(name: string, tuple: Payload, length: nat, priority: nat, q: Request)
      modifies `name, `tuple, `length, `priority, `port, `cidport
      ensures this.name == name && this.tuple == tuple && this.length == length && this.priority == priority
      ensures port == q.port && cidport == q.cidport
    {
      this.name := name;
      port := q.port;
      cidport := q.cidport;
      this.length := length;
      this.priority := priority;
      this.tuple := tuple;
    }

    ghost predicate Holds(b: Backup, ps: seq<Payload>)
      reads `name, `tuple, `length, `priority, `host, `port, `cidport, `procId, `fault
    {
      && b.tuple.buf < |ps| && tuple == ps[b.tuple.buf] && tuple.data == b.tuple.data
      && name == b.tuple.name && length == |b.tuple.data| && priority == b.tuple.priority
      && host == b.host && port == b.port && cidport == b.cidport && procId == b.procId && fault == b.fault
    }
  }

  class RequestNode {
    var expr: string
    var host: int
    var port: int
    var cidport: int
    var procId: int
    var request: Op
    var next: RequestNode?
    var prev: RequestNode?

    constructor (q: Request, prev: RequestNode?)
      ensures Holds(q) && next == null && this.prev == prev
    {
      expr, host, port, cidport, procId, request := q.expr, q.host, q.port, q.cidport, q.procId, q.op;
      next, this.prev := null, prev;
    }

    function View(): Request
      reads `expr, `host, `port, `cidport, `procId, `request
    {
      Request(expr, host, port, cidport, procId, request)
    }

    ghost predicate Holds(q: Request)
      reads `expr, `host, `port, `cidport, `procId, `request
    {
      View() == q
    }
  }

  ghost predicate Injective<T>(s: seq<T>) {
    forall i, j | 0 <= i < j < |s| :: s[i] != s[j]
  }

  ghost predicate Inside<T>(nodes: seq<T>, all: set<T>) {
    forall i | 0 <= i < |nodes| :: nodes[i] in all
  }

  /** A well formed doubly linked tuple list: acyclic, `next` and `prev` inverse,
      null at both ends. */
  ghost predicate SpaceLinked(head: SpaceNode?, nodes: seq<SpaceNode>)
    reads nodes`next, nodes`prev
  {
    && Injective(nodes)
    && head == (if nodes == [] then null else nodes[0])
    && (forall i {:trigger nodes[i].next} | 0 <= i < |nodes| :: nodes[i].next == if i + 1 < |nodes| then nodes[i + 1] else null)
    && (forall i {:trigger nodes[i].prev} | 0 <= i < |nodes| :: nodes[i].prev == if i > 0 then nodes[i - 1] else null)
  }

  ghost predicate BackupLinked(head: BackupNode?, nodes: seq<BackupNode>)
    reads nodes`next
  {
    && Injective(nodes)
    && head == (if nodes == [] then null else nodes[0])
    && (forall i {:trigger nodes[i].next} | 0 <= i < |nodes| :: nodes[i].next == if i + 1 < |nodes| then nodes[i + 1] else null)
  }

  /** A well formed doubly linked queue with head and tail. */
  ghost predicate QueueLinked(head: RequestNode?, tail: RequestNode?, nodes: seq<RequestNode>)
    reads nodes`next, nodes`prev
  {
    && Injective(nodes)
    && head == (if nodes == [] then null else nodes[0])
    && tail == (if nodes == [] then null else nodes[|nodes| - 1])
    && (forall i {:trigger nodes[i].next} | 0 <= i < |nodes| :: nodes[i].next == if i + 1 < |nodes| then nodes[i + 1] else null)
    && (forall i {:trigger nodes[i].prev} | 0 <= i < |nodes| :: nodes[i].prev == if i > 0 then nodes[i - 1] else null)
  }

  ghost predicate SpaceHolds(nodes: seq<SpaceNode>, ts: seq<Tuple>, ps: seq<Payload>)
    reads nodes`name, nodes`tuple, nodes`length, nodes`priority
  {
    |nodes| == |ts| && forall i {:trigger nodes[i].Holds(ts[i], ps)} | 0 <= i < |nodes| :: nodes[i].Holds(ts[i], ps)
  }

  ghost predicate BackupsHold(nodes: seq<BackupNode>, bs: seq<Backup>, ps: seq<Payload>)
    reads nodes`name, nodes`tuple, nodes`length, nodes`priority
    reads nodes`host, nodes`port, nodes`cidport, nodes`procId, nodes`fault
  {
    |nodes| == |bs| && forall i {:trigger nodes[i].Holds(bs[i], ps)} | 0 <= i < |nodes| :: nodes[i].Holds(bs[i], ps)
  }

  ghost predicate QueueHolds(nodes: seq<RequestNode>, qs: seq<Request>)
    reads nodes`expr, nodes`host, nodes`port, nodes`cidport, nodes`procId, nodes`request
  {
    |nodes| == |qs| && forall i {:trigger nodes[i].Holds(qs[i])} | 0 <= i < |nodes| :: nodes[i].Holds(qs[i])
  }

  /** The buffers accepted so far; exactly the ones not freed are live. */
  ghost predicate Tracked(ps: seq<Payload>, freed: seq<nat>)
    reads ps`live
  {
    && Injective(ps)
    && (forall i | 0 <= i < |ps| :: ps[i].live <==> i !in freed)
  }

  // ----- unlinking a node keeps the lists well formed -----

  /** Every node but `nodes[at]` is linked as if `nodes[at]` were not there. */
  ghost predicate SpaceLinkedAround(nodes: seq<SpaceNode>, at: nat)
    requires at < |nodes|
    reads nodes`next, nodes`prev
  {
    && Injective(nodes)
    && (forall i {:trigger nodes[i].next} | 0 <= i < |nodes| && i != at ::
          nodes[i].next == if i + 1 == at && at + 1 < |nodes| then nodes[at + 1]
                           else if i + 1 != at && i + 1 < |nodes| then nodes[i + 1] else null)
    && (forall i {:trigger nodes[i].prev} | 0 <= i < |nodes| && i != at ::
          nodes[i].prev == if i == at + 1 && at > 0 then nodes[at - 1]
                           else if i != at + 1 && i > 0 then nodes[i - 1] else null)
  }

  lemma SpaceUnlinked(nodes: seq<SpaceNode>, at: nat, head: SpaceNode?)
    requires at < |nodes| && SpaceLinkedAround(nodes, at)
    requires head == if at > 0 then nodes[0] else if |nodes| > 1 then nodes[1] else null
    ensures SpaceLinked(head, Remove(nodes, at))
  {
    var left := Remove(nodes, at);
    assert forall i | 0 <= i < |left| :: left[i] == nodes[if i < at then i else i + 1];
  }

  ghost predicate QueueLinkedAround(nodes: seq<RequestNode>, at: nat)
    requires at < |nodes|
    reads nodes`next, nodes`prev
  {
    && Injective(nodes)
    && (forall i {:trigger nodes[i].next} | 0 <= i < |nodes| && i != at ::
          nodes[i].next == if i + 1 == at && at + 1 < |nodes| then nodes[at + 1]
                           else if i + 1 != at && i + 1 < |nodes| then nodes[i + 1] else null)
    && (forall i {:trigger nodes[i].prev} | 0 <= i < |nodes| && i != at ::
          nodes[i].prev == if i == at + 1 && at > 0 then nodes[at - 1]
                           else if i != at + 1 && i > 0 then nodes[i - 1] else null)
  }

  lemma QueueUnlinked(nodes: seq<RequestNode>, at: nat, head: RequestNode?, tail: RequestNode?)
    requires at < |nodes| && QueueLinkedAround(nodes, at)
    requires head == if at > 0 then nodes[0] else if |nodes| > 1 then nodes[1] else null
    requires tail == if at < |nodes| - 1 then nodes[|nodes| - 1] else if |nodes| > 1 then nodes[|nodes| - 2] else null
    ensures QueueLinked(head, tail, Remove(nodes, at))
  {
    var left := Remove(nodes, at);
    assert forall i | 0 <= i < |left| :: left[i] == nodes[if i < at then i else i + 1];
  }

  lemma SpaceHoldsRest(nodes: seq<SpaceNode>, ts: seq<Tuple>, ps: seq<Payload>, at: nat)
    requires at < |nodes| && SpaceHolds(nodes, ts, ps)
    ensures SpaceHolds(Remove(nodes, at), Remove(ts, at), ps)
  {
    var left, leftTs := Remove(nodes, at), Remove(ts, at);
    forall i | 0 <= i < |left|
      ensures left[i].Holds(leftTs[i], ps)
    {
      var k := if i < at then i else i + 1;
      assert left[i] == nodes[k] && leftTs[i] == ts[k];
    }
  }

  lemma QueueHoldsRest(nodes: seq<RequestNode>, qs: seq<Request>, at: nat)
    requires at < |nodes| && QueueHolds(nodes, qs)
    ensures QueueHolds(Remove(nodes, at), Remove(qs, at))
  {
    var left, leftQs := Remove(nodes, at), Remove(qs, at);
    forall i | 0 <= i < |left|
      ensures left[i].Holds(leftQs[i])
    {
      var k := if i < at then i else i + 1;
      assert left[i] == nodes[k] && leftQs[i] == qs[k];
    }
  }

  /** A new buffer at the end of the list of buffers changes no holding. */
  lemma HoldsWithMore(nodes: seq<SpaceNode>, ts: seq<Tuple>, backups: seq<BackupNode>, bs: seq<Backup>, ps: seq<Payload>, p: Payload)
    requires SpaceHolds(nodes, ts, ps) && BackupsHold(backups, bs, ps)
    ensures SpaceHolds(nodes, ts, ps + [p]) && BackupsHold(backups, bs, ps + [p])
  {
    forall i | 0 <= i < |nodes|
      ensures nodes[i].Holds(ts[i], ps + [p])
    {
      assert nodes[i].Holds(ts[i], ps);
    }
    forall i | 0 <= i < |backups|
      ensures backups[i].Holds(bs[i], ps + [p])
    {
      assert backups[i].Holds(bs[i], ps);
    }
  }
}
