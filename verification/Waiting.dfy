/** What offering a tuple to the waiting requests means, independently of the
    way the queue is walked. */
module Waiting {
  import opened TupleSpace

  /** The requests that match the name, in queue order. */
  function Matching(m: Matcher, queue: seq<Request>, name: string): seq<Request> {
    if queue == [] then []
    else (if m(queue[0].expr, name) then [queue[0]] else []) + Matching(m, queue[1..], name)
  }

  /** The requests that do not match the name, in queue order. */
  function Others(m: Matcher, queue: seq<Request>, name: string): seq<Request> {
    if queue == [] then []
    else (if m(queue[0].expr, name) then [] else [queue[0]]) + Others(m, queue[1..], name)
  }

  /** findRequest: the first request that matches the name, or -1. */
  function FirstMatch(m: Matcher, queue: seq<Request>, name: string): (r: int)
    ensures -1 <= r < |queue|
    ensures r == -1 ==> forall i | 0 <= i < |queue| :: !m(queue[i].expr, name)
    ensures r >= 0 ==> m(queue[r].expr, name) && forall i | 0 <= i < r :: !m(queue[i].expr, name)
  {
    if queue == [] then -1
    else if m(queue[0].expr, name) then 0
    else
      var r := FirstMatch(m, queue[1..], name);
      if r == -1 then -1 else r + 1
  }

  predicate Outcome(sends: seq<bool>, k: nat) {
    k < |sends| && sends[k]
  }

  /** Request i is a matching GET whose own send succeeds, when all matching
      requests before it have been tried. */
  predicate Wins(m: Matcher, queue: seq<Request>, name: string, sends: seq<bool>, i: nat)
    requires i < |queue|
  {
    && m(queue[i].expr, name)
    && queue[i].op.GET?
    && Outcome(sends, |Matching(m, queue[..i], name)|)
  }

  predicate NoneWins(m: Matcher, queue: seq<Request>, name: string, sends: seq<bool>, n: nat)
    requires n <= |queue|
  {
    forall i | 0 <= i < n :: !Wins(m, queue, name, sends, i)
  }

  function Attempts(qs: seq<Request>, t: Tuple, sends: seq<bool>): (r: seq<Delivery>)
    ensures |r| == |qs|
    ensures forall k | 0 <= k < |qs| :: r[k] == Delivery(qs[k], t, Outcome(sends, k), true)
  {
    seq(|qs|, k requires 0 <= k < |qs| => Delivery(qs[k], t, Outcome(sends, k), true))
  }

  /** The meaning of an offer: `w` is the position of the first request that
      wins, or the length of the queue. The matching requests up to `w` are served
      in order, exactly those are dropped, every other request is kept in order. */
  ghost predicate Served(m: Matcher, queue: seq<Request>, t: Tuple, sends: seq<bool>, w: nat, c: Consumed) {
    && w <= |queue|
    && NoneWins(m, queue, t.name, sends, w)
    && (if w < |queue| then HandedAt(m, queue, t, sends, w, c) else HandedToNone(m, queue, t, sends, c))
  }

  ghost predicate HandedAt(m: Matcher, queue: seq<Request>, t: Tuple, sends: seq<bool>, w: nat, c: Consumed)
    requires w < |queue|
  {
    && Wins(m, queue, t.name, sends, w)
    && c.winner == Some(queue[w])
    && c.kept == Others(m, queue[..w], t.name) + queue[w + 1..]
    && c.log == Attempts(Matching(m, queue[..w + 1], t.name), t, sends)
  }

  ghost predicate HandedToNone(m: Matcher, queue: seq<Request>, t: Tuple, sends: seq<bool>, c: Consumed) {
    && c.winner == None
    && c.kept == Others(m, queue, t.name)
    && c.log == Attempts(Matching(m, queue, t.name), t, sends)
  }

  lemma ConsSplit(m: Matcher, q: Request, rest: seq<Request>, name: string, i: nat)
    requires i <= |rest|
    ensures Matching(m, ([q] + rest)[..i + 1], name) == (if m(q.expr, name) then [q] else []) + Matching(m, rest[..i], name)
    ensures Others(m, ([q] + rest)[..i + 1], name) == (if m(q.expr, name) then [] else [q]) + Others(m, rest[..i], name)
  {
    assert ([q] + rest)[..i + 1] == [q] + rest[..i];
  }

  lemma ConsWins(m: Matcher, q: Request, rest: seq<Request>, name: string, sends: seq<bool>, i: nat)
    requires i < |rest|
    ensures Wins(m, [q] + rest, name, sends, i + 1)
            == Wins(m, rest, name, if m(q.expr, name) then Later(sends) else sends, i)
  {
    ConsSplit(m, q, rest, name, i);
  }

  lemma ConsNoneWins(m: Matcher, q: Request, rest: seq<Request>, name: string, sends: seq<bool>, v: nat)
    requires v <= |rest| && NoneWins(m, rest, name, if m(q.expr, name) then Later(sends) else sends, v)
    requires !(m(q.expr, name) && q.op.GET? && Outcome(sends, 0))
    ensures NoneWins(m, [q] + rest, name, sends, v + 1)
  {
    forall i | 0 <= i < v + 1
      ensures !Wins(m, [q] + rest, name, sends, i)
    {
      if i > 0 { ConsWins(m, q, rest, name, sends, i - 1); }
      else { assert ([q] + rest)[..0] == []; }
    }
  }

  lemma ConsAttempts(q: Request, qs: seq<Request>, t: Tuple, sends: seq<bool>)
    ensures Attempts([q] + qs, t, sends) == [Delivery(q, t, Outcome(sends, 0), true)] + Attempts(qs, t, Later(sends))
  {
  }

  lemma SkipThenHanded(m: Matcher, q: Request, rest: seq<Request>, t: Tuple, sends: seq<bool>, v: nat, c: Consumed)
    requires v < |rest| && !m(q.expr, t.name) && HandedAt(m, rest, t, sends, v, c)
    ensures HandedAt(m, [q] + rest, t, sends, v + 1, c.(kept := [q] + c.kept))
  {
    var whole, tail, front := [q] + rest, rest[v + 1..], Others(m, rest[..v], t.name);
    ConsWins(m, q, rest, t.name, sends, v);
    ConsSplit(m, q, rest, t.name, v);
    ConsSplit(m, q, rest, t.name, v + 1);
    assert whole[v + 2..] == tail && whole[v + 1] == rest[v];
    assert [q] + (front + tail) == ([q] + front) + tail;
  }

  lemma SkipThenNone(m: Matcher, q: Request, rest: seq<Request>, t: Tuple, sends: seq<bool>, c: Consumed)
    requires !m(q.expr, t.name) && HandedToNone(m, rest, t, sends, c)
    ensures HandedToNone(m, [q] + rest, t, sends, c.(kept := [q] + c.kept))
  {
    assert ([q] + rest)[1..] == rest;
  }

  lemma TryThenHanded(m: Matcher, q: Request, rest: seq<Request>, t: Tuple, sends: seq<bool>, v: nat, c: Consumed)
    requires v < |rest| && m(q.expr, t.name) && HandedAt(m, rest, t, Later(sends), v, c)
    ensures HandedAt(m, [q] + rest, t, sends, v + 1, c.(log := [Delivery(q, t, Outcome(sends, 0), true)] + c.log))
  {
    ConsWins(m, q, rest, t.name, sends, v);
    ConsSplit(m, q, rest, t.name, v);
    ConsSplit(m, q, rest, t.name, v + 1);
    ConsAttempts(q, Matching(m, rest[..v + 1], t.name), t, sends);
    assert ([q] + rest)[v + 2..] == rest[v + 1..];
  }

  lemma TryThenNone(m: Matcher, q: Request, rest: seq<Request>, t: Tuple, sends: seq<bool>, c: Consumed)
    requires m(q.expr, t.name) && HandedToNone(m, rest, t, Later(sends), c)
    ensures HandedToNone(m, [q] + rest, t, sends, c.(log := [Delivery(q, t, Outcome(sends, 0), true)] + c.log))
  {
    assert ([q] + rest)[1..] == rest;
    ConsAttempts(q, Matching(m, rest, t.name), t, sends);
  }

  /** Consume has exactly this meaning, for every pattern of send outcomes. */
  lemma {:induction false} ConsumeMeaning(m: Matcher, queue: seq<Request>, t: Tuple, sends: seq<bool>) returns (w: nat)
    ensures Served(m, queue, t, sends, w, Consume(m, queue, t, sends))
  {
    if queue == [] {
      w := 0;
    } else {
      var q, rest := queue[0], queue[1..];
      assert queue == [q] + rest;
      if !m(q.expr, t.name) {
        var v := ConsumeMeaning(m, rest, t, sends);
        w := v + 1;
        ConsNoneWins(m, q, rest, t.name, sends, v);
        var c := Consume(m, rest, t, sends);
        if v < |rest| { SkipThenHanded(m, q, rest, t, sends, v, c); } else { SkipThenNone(m, q, rest, t, sends, c); }
      } else if Outcome(sends, 0) && q.op.GET? {
        assert queue[..0] == [] && queue[..1] == [q];
        w := 0;
      } else {
        var v := ConsumeMeaning(m, rest, t, Later(sends));
        w := v + 1;
        ConsNoneWins(m, q, rest, t.name, sends, v);
        var c := Consume(m, rest, t, Later(sends));
        if v < |rest| { TryThenHanded(m, q, rest, t, sends, v, c); } else { TryThenNone(m, q, rest, t, sends, c); }
      }
    }
  }

  /** Offering never adds a request, so a request left waiting was waiting before. */
  lemma {:induction false} ConsumeKeepsSubset(m: Matcher, queue: seq<Request>, t: Tuple, sends: seq<bool>)
    ensures var c := Consume(m, queue, t, sends);
            && (forall q | q in c.kept :: q in queue)
            && (c.winner.None? ==> forall q | q in c.kept :: !m(q.expr, t.name))
  {
    if queue != [] {
      var rest := queue[1..];
      ConsumeKeepsSubset(m, rest, t, sends);
      ConsumeKeepsSubset(m, rest, t, Later(sends));
      assert queue == [queue[0]] + rest;
    }
  }

  predicate Handed(d: Delivery) {
    d.ok && d.req.op.GET?
  }

  /** Among the attempts of one offer only the last can hand the tuple over, and
      it does so exactly when the offer has a winner. */
  lemma {:induction false} ConsumeLog(m: Matcher, queue: seq<Request>, t: Tuple, sends: seq<bool>)
    ensures var c := Consume(m, queue, t, sends);
            && (forall k | 0 <= k < |c.log| :: c.log[k].tuple == t && c.log[k].waited)
            && (forall k | 0 <= k < |c.log| :: Handed(c.log[k]) ==> k == |c.log| - 1 && c.winner.Some?)
            && (c.winner.Some? ==> c.log != [] && c.log[|c.log| - 1] == Delivery(c.winner.value, t, true, true)
                                   && c.winner.value.op.GET? && c.winner.value in queue
                                   && m(c.winner.value.expr, t.name))
  {
    if queue != [] {
      var rest := queue[1..];
      assert queue == [queue[0]] + rest;
      ConsumeLog(m, rest, t, sends);
      ConsumeLog(m, rest, t, Later(sends));
    }
  }

  /** Skipping the requests in front of the first match changes nothing but the
      kept prefix. */
  lemma {:induction false} ConsumeSkip(m: Matcher, queue: seq<Request>, t: Tuple, sends: seq<bool>, n: nat)
    requires n <= |queue|
    requires forall i | 0 <= i < n :: !m(queue[i].expr, t.name)
    ensures var r := Consume(m, queue[n..], t, sends);
            Consume(m, queue, t, sends) == r.(kept := queue[..n] + r.kept)
  {
    if n == 0 {
      assert queue[0..] == queue;
      assert queue[..0] + Consume(m, queue, t, sends).kept == Consume(m, queue, t, sends).kept;
    } else {
      ConsumeSkip(m, queue[1..], t, sends, n - 1);
      assert queue[1..][n - 1..] == queue[n..];
      assert queue[..n] == [queue[0]] + queue[1..][..n - 1];
    }
  }

  /** One round of consumeTuple's loop: the first match at position `at` is tried
      and removed. */
  lemma ConsumeStep(m: Matcher, queue: seq<Request>, t: Tuple, sends: seq<bool>, at: nat)
    requires at == FirstMatch(m, queue, t.name)
    ensures var q, ok := queue[at], Outcome(sends, 0);
            var r := Consume(m, Remove(queue, at), t, Later(sends));
            Consume(m, queue, t, sends)
            == if ok && q.op.GET? then Consumed(Remove(queue, at), [Delivery(q, t, true, true)], Some(q))
               else r.(log := [Delivery(q, t, ok, true)] + r.log)
  {
    var left := Remove(queue, at);
    ConsumeSkip(m, queue, t, sends, at);
    ConsumeSkip(m, left, t, Later(sends), at);
    assert left[at..] == queue[at..][1..] && left[..at] == queue[..at];
  }

  /** After the attempts `tried`, offering to `queue` with the outcomes `sends`
      completes the offer that began with `queue0` and `sends0`. */
  ghost predicate Continues(m: Matcher, queue0: seq<Request>, t: Tuple, sends0: seq<bool>,
                            queue: seq<Request>, sends: seq<bool>, tried: seq<Delivery>) {
    var c := Consume(m, queue, t, sends);
    Consume(m, queue0, t, sends0) == c.(log := tried + c.log)
  }

  lemma ConsumeRound(m: Matcher, queue0: seq<Request>, sends0: seq<bool>, tried: seq<Delivery>,
                     queue: seq<Request>, t: Tuple, sends: seq<bool>, at: int)
    requires at == FirstMatch(m, queue, t.name) && at >= 0
    requires !(Outcome(sends, 0) && queue[at].op.GET?)
    requires Continues(m, queue0, t, sends0, queue, sends, tried)
    ensures Continues(m, queue0, t, sends0, Remove(queue, at), Later(sends),
                      tried + [Delivery(queue[at], t, Outcome(sends, 0), true)])
  {
    ConsumeStep(m, queue, t, sends, at);
    var c := Consume(m, Remove(queue, at), t, Later(sends));
    var d := [Delivery(queue[at], t, Outcome(sends, 0), true)];
    assert tried + (d + c.log) == tried + d + c.log;
  }
}
