/** The retrying wrappers and the bounded collection of tsh/matrixold.c, for any
    results of the underlying calls: the m-th tshlib call of a run, when it names
    `key`, gives `attempt(m, key)`. */
module RobustCollection {
  import opened Keys
  import opened Naturals

  const MAX_RETRIES: nat := 3

  /** The integer that tshlib returns, whether the alarm went off, and the buffer. */
  datatype Attempt = Attempt(result: int, timedOut: bool, value: string)

  type Oracle = (nat, string) -> Attempt

  datatype Call = Call(key: string, answer: Attempt)

  predicate Good(a: Attempt) { a.result >= 0 }

  predicate Late(a: Attempt) { a.result < 0 && a.timedOut }

  /** Tries m, ..., m' - 1 for one key that the retry rule allows: all but the last
      timed out, and a timeout ends them only at the limit. */
  ghost predicate Tries(attempt: Oracle, key: string, m: nat, m': nat) {
    && m < m' <= m + MAX_RETRIES + 1
    && (forall x | m <= x < m' - 1 :: Late(attempt(x, key)))
    && (Late(attempt(m' - 1, key)) ==> m' == m + MAX_RETRIES + 1)
  }

  /** robust_TshGET. */
  method RobustGet(attempt: Oracle, key: string, m: nat) returns (status: int, value: string, m': nat)
    ensures Tries(attempt, key, m, m') && value == attempt(m' - 1, key).value
    ensures var last := attempt(m' - 1, key); status == if Good(last) then 0 else if last.timedOut then -1 else -2
  {
    var retries := 0;
    m', value := m, "";
    while retries <= MAX_RETRIES
      invariant retries <= MAX_RETRIES + 1 && m' == m + retries
      invariant forall x | m <= x < m' :: Late(attempt(x, key))
      invariant retries > 0 ==> value == attempt(m' - 1, key).value
    {
      var a := attempt(m', key);
      m', value := m' + 1, a.value;
      if a.result > 0 || a.result >= 0 {
        status := 0;
        return;
      }
      if !a.timedOut {
        status := -2;
        return;
      }
      retries := retries + 1;
    }
    status := -1;
  }

  /** robust_TshREAD and robust_TshPUT: both kinds of failure end the worker. */
  method RobustReadOrPut(attempt: Oracle, key: string, m: nat) returns (status: int, m': nat)
    ensures Tries(attempt, key, m, m')
    ensures status == if Good(attempt(m' - 1, key)) then 0 else -1
  {
    var retries := 0;
    m' := m;
    while retries <= MAX_RETRIES
      invariant retries <= MAX_RETRIES + 1 && m' == m + retries
      invariant forall x | m <= x < m' :: Late(attempt(x, key))
    {
      var a := attempt(m', key);
      m' := m' + 1;
      if a.result > 0 || a.result >= 0 {
        status := 0;
        return;
      }
      if !a.timedOut {
        status := -1;
        return;
      }
      retries := retries + 1;
    }
    status := -1;
  }

  /** The log of calls, extended by the tries up to m'. */
  function WithTries(attempt: Oracle, key: string, log: seq<Call>, m': nat): (r: seq<Call>)
    requires |log| <= m'
    ensures |r| == m' && log <= r
  {
    log + seq(m' - |log|, x requires 0 <= x => Call(key, attempt(|log| + x, key)))
  }

  /** The log before and after the tries of one GET. */
  ghost predicate Tried(attempt: Oracle, key: string, log: seq<Call>, log': seq<Call>) {
    && |log| < |log'| <= |log| + MAX_RETRIES + 1 && log <= log'
    && (forall x | |log| <= x < |log'| :: log'[x] == Call(key, attempt(x, key)))
    && (forall x | |log| <= x < |log'| - 1 :: Late(log'[x].answer))
    && (Late(log'[|log'| - 1].answer) ==> |log'| == |log| + MAX_RETRIES + 1)
  }

  lemma TriesLogged(attempt: Oracle, key: string, log: seq<Call>, m': nat)
    requires Tries(attempt, key, |log|, m')
    ensures Tried(attempt, key, log, WithTries(attempt, key, log, m'))
  {
  }

  /** RobustGet, with the log of calls. */
  method LoggedGet(attempt: Oracle, key: string, ghost log: seq<Call>, m: nat)
    returns (status: int, value: string, m': nat, ghost log': seq<Call>)
    requires m == |log|
    ensures Tries(attempt, key, m, m') && value == attempt(m' - 1, key).value
    ensures m' == |log'| && Tried(attempt, key, log, log') && value == log'[m' - 1].answer.value
    ensures status == if Good(log'[m' - 1].answer) then 0 else if log'[m' - 1].answer.timedOut then -1 else -2
  {
    status, value, m' := RobustGet(attempt, key, m);
    log' := WithTries(attempt, key, log, m');
    TriesLogged(attempt, key, log, m');
  }

  // ----- failures, read off the log of calls -----

  /** Call x failed for good: an error that is no timeout, or the last of
      MAX_RETRIES + 1 timeouts in a row. */
  ghost predicate Fatal(log: seq<Call>, x: nat)
    requires x < |log|
  {
    && !Good(log[x].answer)
    && (log[x].answer.timedOut ==>
          x >= MAX_RETRIES && forall y | x - MAX_RETRIES <= y < x :: Late(log[y].answer))
  }

  ghost predicate Failure(log: seq<Call>) {
    exists x: nat | x < |log| :: Fatal(log, x)
  }

  /** `failed` tells exactly whether some call of the log failed for good. */
  ghost predicate Tracked(log: seq<Call>, failed: bool) {
    && (failed <==> Failure(log))
    && (!failed && log != [] ==> Good(log[|log| - 1].answer))
  }

  lemma FatalStays(log: seq<Call>, log': seq<Call>, x: nat)
    requires log <= log' && x < |log|
    ensures Fatal(log', x) <==> Fatal(log, x)
  {
    assert forall y | 0 <= y <= x :: log'[y] == log[y];
  }

  lemma TrackTries(attempt: Oracle, key: string, log: seq<Call>, log': seq<Call>, failed: bool)
    requires Tracked(log, failed) && Tried(attempt, key, log, log')
    ensures Tracked(log', failed || !Good(log'[|log'| - 1].answer))
  {
    var last := |log'| - 1;
    if failed {
      var x: nat :| x < |log| && Fatal(log, x);
      FatalStays(log, log', x);
    } else if !Good(log'[last].answer) {
      assert Fatal(log', last);
    } else {
      forall x: nat | x < |log'|
        ensures !Fatal(log', x)
      {
        if x < |log| {
          FatalStays(log, log', x);
        } else if x < last && log != [] {
          assert log'[|log| - 1] == log[|log| - 1];
        }
      }
    }
  }

  // ----- what was asked, with what success -----

  /** The number of successful calls. */
  function GoodCalls(log: seq<Call>): nat {
    if log == [] then 0 else GoodCalls(log[..|log| - 1]) + if Good(log[|log| - 1].answer) then 1 else 0
  }

  ghost predicate NoneGood(log: seq<Call>, from: nat) {
    forall x | from <= x < |log| :: !Good(log[x].answer)
  }

  lemma {:induction false} GoodCallsGrow(log: seq<Call>, log': seq<Call>)
    requires log <= log'
    ensures GoodCalls(log) <= GoodCalls(log')
    ensures GoodCalls(log') == GoodCalls(log) <==> NoneGood(log', |log|)
    ensures GoodCalls(log') - GoodCalls(log) <= |log'| - |log|
    decreases |log'|
  {
    if |log'| > |log| {
      GoodCallsGrow(log, log'[..|log'| - 1]);
    } else {
      assert log' == log;
    }
  }

  lemma {:induction false} AllGood(log: seq<Call>)
    requires forall x | 0 <= x < |log| :: Good(log[x].answer)
    ensures GoodCalls(log) == |log|
  {
    if log != [] { AllGood(log[..|log| - 1]); }
  }

  /** One GET has at most one successful call, its last. */
  lemma GoodTries(attempt: Oracle, key: string, log: seq<Call>, log': seq<Call>)
    requires Tried(attempt, key, log, log')
    ensures GoodCalls(log') == GoodCalls(log) + if Good(log'[|log'| - 1].answer) then 1 else 0
  {
    GoodCallsGrow(log, log'[..|log'| - 1]);
  }

  /** An error that is no timeout, which ends the collection. */
  predicate Error(a: Attempt) {
    !Good(a) && !a.timedOut
  }

  /** There is no such error in the log, or it is the last call. */
  ghost predicate Errors(log: seq<Call>, aborted: bool) {
    && (forall x | 0 <= x < |log| - 1 :: !Error(log[x].answer))
    && (log != [] ==> (Error(log[|log| - 1].answer) <==> aborted))
    && (log == [] ==> !aborted)
  }

  lemma ErrorTries(attempt: Oracle, key: string, log: seq<Call>, log': seq<Call>)
    requires Tried(attempt, key, log, log') && Errors(log, false)
    ensures Errors(log', Error(log'[|log'| - 1].answer))
  {
    forall x | 0 <= x < |log'| - 1
      ensures !Error(log'[x].answer)
    {
      if x < |log| { assert log'[x] == log[x]; }
    }
  }

  function CellName(x: (nat, nat)): string {
    Name(Key('C', x.0, x.1))
  }

  /** The cell was asked for by a call from position a on, before b. */
  ghost predicate Asked(log: seq<Call>, a: nat, b: nat, x: (nat, nat))
    requires b <= |log|
  {
    exists y: nat | a <= y < b :: log[y].key == CellName(x)
  }

  /** The first j cells of row i are in hand or were asked for. */
  ghost predicate RowVisited(log: seq<Call>, a: nat, b: nat, done: set<(nat, nat)>, i: nat, j: nat)
    requires b <= |log|
  {
    forall y: nat | y < j :: (i, y) in done || Asked(log, a, b, (i, y))
  }

  ghost predicate Visited(n: nat, log: seq<Call>, a: nat, b: nat, done: set<(nat, nat)>, i: nat)
    requires b <= |log|
  {
    forall x: nat | x < i :: RowVisited(log, a, b, done, x, n)
  }

  lemma AskedStill(log: seq<Call>, a: nat, b: nat, log': seq<Call>, a': nat, b': nat, x: (nat, nat))
    requires log <= log' && b <= |log| && b <= b' <= |log'| && a' <= a && Asked(log, a, b, x)
    ensures Asked(log', a', b', x)
  {
    var y: nat :| a <= y < b && log[y].key == CellName(x);
    assert log'[y] == log[y];
  }

  lemma RowStillVisited(log: seq<Call>, a: nat, b: nat, done: set<(nat, nat)>, log': seq<Call>, a': nat, b': nat,
                        done': set<(nat, nat)>, i: nat, j: nat)
    requires log <= log' && b <= |log| && b <= b' <= |log'| && a' <= a && done <= done'
    requires RowVisited(log, a, b, done, i, j)
    ensures RowVisited(log', a', b', done', i, j)
  {
    forall y: nat | y < j
      ensures (i, y) in done' || Asked(log', a', b', (i, y))
    {
      if (i, y) !in done { AskedStill(log, a, b, log', a', b', (i, y)); }
    }
  }

  lemma StillVisited(n: nat, log: seq<Call>, a: nat, b: nat, done: set<(nat, nat)>, log': seq<Call>, a': nat, b': nat,
                     done': set<(nat, nat)>, i: nat)
    requires log <= log' && b <= |log| && b <= b' <= |log'| && a' <= a && done <= done'
    requires Visited(n, log, a, b, done, i)
    ensures Visited(n, log', a', b', done', i)
  {
    forall x: nat | x < i
      ensures RowVisited(log', a', b', done', x, n)
    {
      RowStillVisited(log, a, b, done, log', a', b', done', x, n);
    }
  }

  // ----- how many cells -----

  function CountRow(done: set<(nat, nat)>, i: nat, j: nat): nat {
    if j == 0 then 0 else CountRow(done, i, j - 1) + if (i, j - 1) in done then 1 else 0
  }

  /** The number of cells of `done` in the first i rows of n columns. */
  function Count(done: set<(nat, nat)>, i: nat, n: nat): nat {
    if i == 0 then 0 else Count(done, i - 1, n) + CountRow(done, i - 1, n)
  }

  lemma {:induction false} AddToRow(done: set<(nat, nat)>, x: (nat, nat), i: nat, j: nat)
    requires x !in done
    ensures CountRow(done + {x}, i, j) == CountRow(done, i, j) + if x.0 == i && x.1 < j then 1 else 0
  {
    if j > 0 {
      AddToRow(done, x, i, j - 1);
    }
  }

  lemma {:induction false} AddToCount(done: set<(nat, nat)>, x: (nat, nat), i: nat, n: nat)
    requires x !in done && x.1 < n
    ensures Count(done + {x}, i, n) == Count(done, i, n) + if x.0 < i then 1 else 0
  {
    if i > 0 {
      AddToCount(done, x, i - 1, n);
      AddToRow(done, x, i - 1, n);
    }
  }

  ghost predicate HasRow(done: set<(nat, nat)>, i: nat, j: nat) {
    forall y: nat | y < j :: (i, y) in done
  }

  ghost predicate HasRows(done: set<(nat, nat)>, i: nat, n: nat) {
    forall x: nat | x < i :: HasRow(done, x, n)
  }

  lemma OneMore(done: set<(nat, nat)>, done': set<(nat, nat)>, i: nat, j: nat)
    requires HasRow(done, i, j) && done <= done' && (i, j) in done'
    ensures HasRow(done', i, j + 1)
  {
  }

  lemma OneRowMore(done: set<(nat, nat)>, done': set<(nat, nat)>, i: nat, n: nat)
    requires HasRows(done, i, n) && done <= done' && HasRow(done', i, n)
    ensures HasRows(done', i + 1, n)
  {
    forall x: nat | x < i + 1
      ensures HasRow(done', x, n)
    {
      assert x < i ==> HasRow(done, x, n);
    }
  }

  lemma {:induction false} FullRow(done: set<(nat, nat)>, i: nat, j: nat)
    ensures CountRow(done, i, j) <= j && (CountRow(done, i, j) == j <==> HasRow(done, i, j))
  {
    if j > 0 {
      FullRow(done, i, j - 1);
      assert HasRow(done, i, j) <==> HasRow(done, i, j - 1) && (i, j - 1) in done;
    }
  }

  lemma {:induction false} FullCount(done: set<(nat, nat)>, i: nat, n: nat)
    ensures Count(done, i, n) <= Times(i, n) && (Count(done, i, n) == Times(i, n) <==> HasRows(done, i, n))
  {
    if i > 0 {
      FullCount(done, i - 1, n);
      FullRow(done, i - 1, n);
      assert HasRows(done, i, n) <==> HasRows(done, i - 1, n) && HasRow(done, i - 1, n);
    }
  }

  lemma {:induction false} EmptyCount(i: nat, n: nat)
    ensures Count({}, i, n) == 0 && CountRow({}, i, n) == 0
  {
    if i > 0 {
      EmptyCount(i - 1, n);
      EmptyRow(i - 1, n);
    }
    EmptyRow(i, n);
  }

  lemma {:induction false} EmptyRow(i: nat, j: nat)
    ensures CountRow({}, i, j) == 0
  {
    if j > 0 {
      EmptyRow(i, j - 1);
    }
  }

  // ----- the collection -----

  /** Exactly the cells of `source` are marked as processed. */
  ghost predicate Marked(n: nat, processed: array2<bool>, source: map<(nat, nat), Call>)
    reads processed
  {
    && processed.Length0 == n && processed.Length1 == n
    && forall i: nat, j: nat | i < n && j < n :: processed[i, j] <==> (i, j) in source
  }

  /** A processed cell holds the value of its call, any other cell is 0. */
  ghost predicate Valued(n: nat, c: array2<int>, source: map<(nat, nat), Call>)
    reads c
  {
    && c.Length0 == n && c.Length1 == n
    && forall i: nat, j: nat | i < n && j < n ::
         c[i, j] == if (i, j) in source then Atoi(source[(i, j)].answer.value) else 0
  }

  /** `source` gives for each processed cell a successful call of the run for its key. */
  ghost predicate Sourced(n: nat, log: seq<Call>, source: map<(nat, nat), Call>) {
    forall x | x in source ::
      x.0 < n && x.1 < n && source[x] in log && source[x].key == Name(Key('C', x.0, x.1)) && Good(source[x].answer)
  }

  /** The log holds what the calls really gave. */
  ghost predicate Honest(attempt: Oracle, log: seq<Call>) {
    forall x | 0 <= x < |log| :: log[x].answer == attempt(x, log[x].key)
  }

  /** received_count is the number of processed cells, and `failed` tells of failures. */
  ghost predicate Recorded(n: nat, attempt: Oracle, log: seq<Call>, received: nat, failed: bool,
                           source: map<(nat, nat), Call>) {
    && Sourced(n, log, source) && Honest(attempt, log) && Tracked(log, failed)
    && received == Count(source.Keys, n, n)
  }

  /** Everything that holds between two GETs. */
  ghost predicate Consistent(n: nat, attempt: Oracle, log: seq<Call>, c: array2<int>, processed: array2<bool>,
                             received: nat, failed: bool, source: map<(nat, nat), Call>)
    reads c, processed
  {
    Marked(n, processed, source) && Valued(n, c, source) && Recorded(n, attempt, log, received, failed, source)
  }

  lemma AllReceived(n: nat, processed: array2<bool>, source: map<(nat, nat), Call>)
    requires Marked(n, processed, source)
    ensures Count(source.Keys, n, n) <= Times(n, n)
    ensures Count(source.Keys, n, n) == Times(n, n) <==> HasRows(source.Keys, n, n)
    ensures HasRows(source.Keys, n, n) <==> forall i, j | 0 <= i < n && 0 <= j < n :: processed[i, j]
  {
    FullCount(source.Keys, n, n);
    if forall i, j | 0 <= i < n && 0 <= j < n :: processed[i, j] {
      forall x: nat | x < n
        ensures HasRow(source.Keys, x, n)
      {
        assert forall y: nat | y < n :: processed[x, y];
      }
    }
    if HasRows(source.Keys, n, n) {
      forall i, j | 0 <= i < n && 0 <= j < n
        ensures processed[i, j]
      {
        assert HasRow(source.Keys, i, n);
      }
    }
  }

  method SetCell(n: nat, i: nat, j: nat, c: array2<int>, value: string,
                 ghost source: map<(nat, nat), Call>, ghost call: Call)
    requires i < n && j < n && Valued(n, c, source) && value == call.answer.value
    modifies c
    ensures Valued(n, c, source[(i, j) := call])
  {
    c[i, j] := Atoi(value);
  }

  method Mark(n: nat, i: nat, j: nat, processed: array2<bool>, ghost source: map<(nat, nat), Call>, ghost call: Call)
    requires i < n && j < n && Marked(n, processed, source)
    modifies processed
    ensures Marked(n, processed, source[(i, j) := call])
  {
    processed[i, j] := true;
  }

  lemma RecordTries(n: nat, attempt: Oracle, key: string, log: seq<Call>, log': seq<Call>, received: nat,
                    failed: bool, source: map<(nat, nat), Call>)
    requires Recorded(n, attempt, log, received, failed, source) && Tried(attempt, key, log, log')
    ensures Recorded(n, attempt, log', received, failed || !Good(log'[|log'| - 1].answer), source)
  {
    TrackTries(attempt, key, log, log', failed);
    forall x | x in source
      ensures source[x] in log'
    {
      assert log <= log';
    }
  }

  lemma RecordCell(n: nat, attempt: Oracle, log: seq<Call>, received: nat, failed: bool,
                   source: map<(nat, nat), Call>, x: (nat, nat))
    requires Recorded(n, attempt, log, received, failed, source) && x.0 < n && x.1 < n && x !in source
    requires log != [] && log[|log| - 1].key == Name(Key('C', x.0, x.1)) && Good(log[|log| - 1].answer)
    ensures Recorded(n, attempt, log, received + 1, failed, source[x := log[|log| - 1]])
  {
    AddToCount(source.Keys, x, n, n);
    assert source[x := log[|log| - 1]].Keys == source.Keys + {x};
  }

  /** How the log goes on, up to here or up to an error. */
  ghost predicate Goes(log: seq<Call>, received: nat, aborted: bool) {
    received == GoodCalls(log) && Errors(log, aborted)
  }

  /** The collection at one point of a run, with the cells in hand. */
  datatype Progress = Progress(log: seq<Call>, received: nat, failed: bool, aborted: bool, held: set<(nat, nat)>)

  /** From p to q in at most `limit` calls. */
  ghost predicate Onward(p: Progress, q: Progress, limit: nat) {
    && !p.aborted && p.log <= q.log && |q.log| <= |p.log| + limit
    && p.received <= q.received && p.held <= q.held && (p.failed || q.aborted ==> q.failed)
    && Goes(q.log, q.received, q.aborted)
  }

  /** Between p and q the cell was in hand or asked for, and without a failure it is in hand. */
  ghost predicate CellDone(p: Progress, q: Progress, i: nat, j: nat) {
    && ((i, j) in q.held || Asked(q.log, |p.log|, |q.log|, (i, j)))
    && (!q.failed ==> (i, j) in q.held)
  }

  ghost predicate RowDone(p: Progress, q: Progress, i: nat, j: nat) {
    RowVisited(q.log, |p.log|, |q.log|, q.held, i, j) && (!q.failed ==> HasRow(q.held, i, j))
  }

  ghost predicate RowsDone(n: nat, p: Progress, q: Progress, i: nat) {
    && (!q.aborted ==> Visited(n, q.log, |p.log|, |q.log|, q.held, i))
    && (!q.failed ==> HasRows(q.held, i, n))
  }

  lemma OnwardOn(p: Progress, q: Progress, r: Progress, a: nat, b: nat)
    requires Onward(p, q, a) && Onward(q, r, b)
    ensures Onward(p, r, a + b)
  {
  }

  lemma NextCell(p: Progress, q: Progress, r: Progress, i: nat, j: nat, limit: nat)
    requires Onward(p, q, Times(j, limit)) && RowDone(p, q, i, j)
    requires Onward(q, r, limit) && CellDone(q, r, i, j)
    ensures Onward(p, r, Times(j + 1, limit)) && RowDone(p, r, i, j + 1)
  {
    OnwardOn(p, q, r, Times(j, limit), limit);
    RowStillVisited(q.log, |p.log|, |q.log|, q.held, r.log, |p.log|, |r.log|, r.held, i, j);
    if (i, j) !in r.held { AskedStill(r.log, |q.log|, |r.log|, r.log, |p.log|, |r.log|, (i, j)); }
    if !r.failed { OneMore(q.held, r.held, i, j); }
  }

  lemma NextRow(n: nat, p: Progress, q: Progress, r: Progress, i: nat, limit: nat)
    requires Onward(p, q, Times(i, limit)) && RowsDone(n, p, q, i)
    requires Onward(q, r, limit) && (r.aborted || RowDone(q, r, i, n))
    ensures Onward(p, r, Times(i + 1, limit)) && RowsDone(n, p, r, i + 1)
  {
    OnwardOn(p, q, r, Times(i, limit), limit);
    if !r.failed { OneRowMore(q.held, r.held, i, n); }
    if !r.aborted {
      StillVisited(n, q.log, |p.log|, |q.log|, q.held, r.log, |p.log|, |r.log|, r.held, i);
      RowStillVisited(r.log, |q.log|, |r.log|, r.held, r.log, |p.log|, |r.log|, r.held, i, n);
    }
  }

  /** The body of the two loops for one cell. */
  method CollectCell(n: nat, i: nat, j: nat, attempt: Oracle, ghost log: seq<Call>, m: nat, c: array2<int>,
                     processed: array2<bool>, received: nat, failed: bool, ghost source: map<(nat, nat), Call>)
    returns (m': nat, received': nat, failed': bool, aborted: bool,
             ghost log': seq<Call>, ghost source': map<(nat, nat), Call>, ghost q: Progress)
    requires i < n && j < n && Consistent(n, attempt, log, c, processed, received, failed, source) && m == |log|
    requires Goes(log, received, false)
    modifies c, processed
    ensures Consistent(n, attempt, log', c, processed, received', failed', source') && m' == |log'|
    ensures q == Progress(log', received', failed', aborted, source'.Keys)
    ensures Onward(Progress(log, received, failed, false, source.Keys), q, MAX_RETRIES + 1)
    ensures CellDone(Progress(log, received, failed, false, source.Keys), q, i, j)
  {
    m', received', failed', aborted, log', source' := m, received, failed, false, log, source;
    if !processed[i, j] {
      var key := Name(Key('C', i, j));
      var status, value;
      status, value, m', log' := LoggedGet(attempt, key, log, m);
      RecordTries(n, attempt, key, log, log', received, failed, source);
      GoodTries(attempt, key, log, log');
      ErrorTries(attempt, key, log, log');
      assert log'[|log'| - 1].key == CellName((i, j));
      if status == 0 {
        SetCell(n, i, j, c, value, source, log'[m' - 1]);
        Mark(n, i, j, processed, source, log'[m' - 1]);
        RecordCell(n, attempt, log', received, failed, source, (i, j));
        source' := source[(i, j) := log'[m' - 1]];
        received' := received + 1;
      } else if status == -1 {
        failed' := true;
      } else {
        failed', aborted := true, true;
      }
    }
    q := Progress(log', received', failed', aborted, source'.Keys);
  }

  /** The loop over j. */
  method PassRow(n: nat, i: nat, attempt: Oracle, ghost log: seq<Call>, m: nat, c: array2<int>,
                 processed: array2<bool>, received: nat, failed: bool, ghost source: map<(nat, nat), Call>)
    returns (m': nat, received': nat, failed': bool, aborted: bool,
             ghost log': seq<Call>, ghost source': map<(nat, nat), Call>, ghost q: Progress)
    requires i < n && Consistent(n, attempt, log, c, processed, received, failed, source) && m == |log|
    requires Goes(log, received, false)
    modifies c, processed
    ensures Consistent(n, attempt, log', c, processed, received', failed', source') && m' == |log'|
    ensures q == Progress(log', received', failed', aborted, source'.Keys)
    ensures Onward(Progress(log, received, failed, false, source.Keys), q, Times(n, MAX_RETRIES + 1))
    ensures aborted || RowDone(Progress(log, received, failed, false, source.Keys), q, i, n)
  {
    m', received', failed', aborted, log', source' := m, received, failed, false, log, source;
    ghost var p := Progress(log, received, failed, false, source.Keys);
    q := p;
    var j := 0;
    while j < n && !aborted
      invariant 0 <= j <= n && m' == |log'|
      invariant Consistent(n, attempt, log', c, processed, received', failed', source')
      invariant q == Progress(log', received', failed', aborted, source'.Keys)
      invariant Onward(p, q, Times(j, MAX_RETRIES + 1)) && RowDone(p, q, i, j)
    {
      ghost var before := q;
      m', received', failed', aborted, log', source', q :=
        CollectCell(n, i, j, attempt, log', m', c, processed, received', failed', source');
      NextCell(p, before, q, i, j, MAX_RETRIES + 1);
      j := j + 1;
    }
    TimesMono(j, n, MAX_RETRIES + 1);
  }

  /** One pass over all cells; `aborted` tells that the collection was given up in
      the middle of it. */
  method Pass(n: nat, attempt: Oracle, ghost log: seq<Call>, m: nat, c: array2<int>,
              processed: array2<bool>, received: nat, failed: bool, ghost source: map<(nat, nat), Call>)
    returns (m': nat, received': nat, failed': bool, aborted: bool,
             ghost log': seq<Call>, ghost source': map<(nat, nat), Call>, ghost q: Progress)
    requires Consistent(n, attempt, log, c, processed, received, failed, source) && m == |log|
    requires Goes(log, received, false)
    modifies c, processed
    ensures Consistent(n, attempt, log', c, processed, received', failed', source') && m' == |log'|
    ensures q == Progress(log', received', failed', aborted, source'.Keys)
    ensures Onward(Progress(log, received, failed, false, source.Keys), q, Times(n, Times(n, MAX_RETRIES + 1)))
    ensures !aborted ==> RowsDone(n, Progress(log, received, failed, false, source.Keys), q, n)
  {
    m', received', failed', aborted, log', source' := m, received, failed, false, log, source;
    ghost var p := Progress(log, received, failed, false, source.Keys);
    q := p;
    var i := 0;
    while i < n && !aborted
      invariant 0 <= i <= n && m' == |log'|
      invariant Consistent(n, attempt, log', c, processed, received', failed', source')
      invariant q == Progress(log', received', failed', aborted, source'.Keys)
      invariant Onward(p, q, Times(i, Times(n, MAX_RETRIES + 1)))
      invariant !aborted ==> RowsDone(n, p, q, i)
    {
      ghost var before := q;
      m', received', failed', aborted, log', source', q :=
        PassRow(n, i, attempt, log', m', c, processed, received', failed', source');
      NextRow(n, p, before, q, i, Times(n, MAX_RETRIES + 1));
      i := i + 1;
    }
    TimesMono(i, n, Times(n, MAX_RETRIES + 1));
  }

  function Cells(n: nat): set<(nat, nat)> {
    set i: nat, j: nat | i < n && j < n :: (i, j)
  }

  /** The processed cells. */
  function Processed(n: nat, processed: array2<bool>): set<(nat, nat)>
    requires processed.Length0 == n && processed.Length1 == n
    reads processed
  {
    set x | x in Cells(n) && processed[x.0, x.1]
  }

  /** A cell was obtained by call x of the run, and holds its value. */
  ghost predicate Obtained(attempt: Oracle, x: nat, i: nat, j: nat, value: int) {
    var a := attempt(x, Name(Key('C', i, j)));
    Good(a) && value == Atoi(a.value)
  }

  /** What the caller sees of a collection of m calls: the count is that of the
      processed cells, each of which was obtained by a call for its key; the others are 0. */
  ghost predicate Collected(n: nat, attempt: Oracle, m: nat, c: array2<int>, processed: array2<bool>, received: nat)
    reads c, processed
  {
    && c.Length0 == n && c.Length1 == n && processed.Length0 == n && processed.Length1 == n
    && received == Count(Processed(n, processed), n, n)
    && forall i: nat, j: nat | i < n && j < n ::
         if processed[i, j] then exists x: nat | x < m :: Obtained(attempt, x, i, j, c[i, j]) else c[i, j] == 0
  }

  lemma ConsistentCollected(n: nat, attempt: Oracle, log: seq<Call>, c: array2<int>, processed: array2<bool>,
                            received: nat, failed: bool, source: map<(nat, nat), Call>)
    requires Consistent(n, attempt, log, c, processed, received, failed, source)
    ensures Collected(n, attempt, |log|, c, processed, received)
  {
    assert Processed(n, processed) == source.Keys;
    forall i: nat, j: nat | i < n && j < n && processed[i, j]
      ensures exists x: nat | x < |log| :: Obtained(attempt, x, i, j, c[i, j])
    {
      var x: nat :| x < |log| && log[x] == source[(i, j)];
      assert Obtained(attempt, x, i, j, c[i, j]);
    }
  }

  lemma NothingYet(n: nat, attempt: Oracle)
    ensures Recorded(n, attempt, [], 0, false, map[])
  {
    EmptyCount(n, n);
    var source: map<(nat, nat), Call> := map[];
    assert source.Keys == {};
  }

  /** What the state at the end of the collection says to the caller. */
  lemma Conclude(n: nat, attempt: Oracle, log: seq<Call>, c: array2<int>, processed: array2<bool>,
                 received: nat, failed: bool, source: map<(nat, nat), Call>)
    requires Consistent(n, attempt, log, c, processed, received, failed, source)
    ensures failed == Failure(log) && Collected(n, attempt, |log|, c, processed, received)
    ensures received == n * n <==> forall i, j | 0 <= i < n && 0 <= j < n :: processed[i, j]
    ensures received <= n * n
  {
    ConsistentCollected(n, attempt, log, c, processed, received, failed, source);
    AllReceived(n, processed, source);
    TimesIsMul(n, n);
  }

  /** A pass that left something out has seen a failure. */
  lemma Hopeless(n: nat, received: nat, failed: bool, held: set<(nat, nat)>)
    requires received == Count(held, n, n) && (!failed ==> HasRows(held, n, n))
    ensures received < n * n ==> failed
  {
    FullCount(held, n, n);
    TimesIsMul(n, n);
  }

  // ----- the passes -----

  /** `marks` are the positions in the log at which the complete passes begin, and
      the end of the last of them: each pass asks for every cell that is still
      missing at the end. */
  ghost predicate Passes(n: nat, log: seq<Call>, marks: seq<nat>, done: set<(nat, nat)>) {
    && marks != [] && marks[0] == 0
    && (forall p | 0 <= p < |marks| :: marks[p] <= |log|)
    && forall p | 0 <= p < |marks| - 1 :: PassAt(n, log, marks[p], marks[p + 1], done)
  }

  ghost predicate PassAt(n: nat, log: seq<Call>, a: nat, b: nat, done: set<(nat, nat)>)
    requires b <= |log|
  {
    a <= b && Visited(n, log, a, b, done, n)
  }

  /** While the workers are known to have failed, every pass but the last brings something. */
  ghost predicate Fruitful(log: seq<Call>, marks: seq<nat>) {
    forall p | 0 <= p < |marks| - 1 && marks[p + 1] < |log| :: SomeGood(log, marks[p], marks[p + 1])
  }

  ghost predicate SomeGood(log: seq<Call>, a: nat, b: nat) {
    exists x: nat | a <= x < b && x < |log| :: Good(log[x].answer)
  }

  lemma PassesOn(n: nat, log: seq<Call>, marks: seq<nat>, done: set<(nat, nat)>, log': seq<Call>,
                 done': set<(nat, nat)>)
    requires Passes(n, log, marks, done) && log <= log' && done <= done'
    ensures Passes(n, log', marks, done')
  {
    forall p | 0 <= p < |marks| - 1
      ensures PassAt(n, log', marks[p], marks[p + 1], done')
    {
      assert PassAt(n, log, marks[p], marks[p + 1], done);
      StillVisited(n, log, marks[p], marks[p + 1], done, log', marks[p], marks[p + 1], done', n);
    }
  }

  lemma OnePassMore(n: nat, log: seq<Call>, marks: seq<nat>, done: set<(nat, nat)>, log': seq<Call>,
                    done': set<(nat, nat)>)
    requires Passes(n, log, marks, done) && log <= log' && done <= done' && marks[|marks| - 1] == |log|
    requires Visited(n, log', |log|, |log'|, done', n)
    ensures Passes(n, log', marks + [|log'|], done')
  {
    PassesOn(n, log, marks, done, log', done');
    var marks' := marks + [|log'|];
    forall p | 0 <= p < |marks'| - 1
      ensures PassAt(n, log', marks'[p], marks'[p + 1], done')
    {
      if p < |marks| - 1 { assert PassAt(n, log', marks[p], marks[p + 1], done'); }
    }
  }

  ghost predicate Errored(log: seq<Call>) {
    log != [] && Error(log[|log| - 1].answer)
  }

  ghost predicate Unfruitful(log: seq<Call>, marks: seq<nat>) {
    |marks| >= 2 && NoneGood(log, marks[|marks| - 2])
  }

  /** What the loop over the attempts keeps; an aborted pass is not a complete one. */
  ghost predicate Going(n: nat, workersOk: bool, q: Progress, marks: seq<nat>, attempts: nat, stop: bool) {
    && Goes(q.log, q.received, Errored(q.log)) && Passes(n, q.log, marks, q.held)
    && (!Errored(q.log) ==> marks[|marks| - 1] == |q.log| && |marks| == attempts + 1)
    && (stop ==> Errored(q.log) || (!workersOk && Unfruitful(q.log, marks)))
    && (Errored(q.log) ==> stop)
    && (!workersOk ==> Fruitful(q.log, marks))
    && (!workersOk && !stop ==> AllFruitful(q.log, marks))
    && (attempts > 0 && q.received < n * n ==> q.failed)
    && (stop ==> attempts > 0)
    && |q.log| <= Times(attempts, Times(n, Times(n, MAX_RETRIES + 1)))
  }

  ghost predicate AllFruitful(log: seq<Call>, marks: seq<nat>) {
    forall p | 0 <= p < |marks| - 1 :: SomeGood(log, marks[p], marks[p + 1])
  }

  lemma StillFruitful(log: seq<Call>, marks: seq<nat>, log': seq<Call>)
    requires AllFruitful(log, marks) && log <= log'
    ensures AllFruitful(log', marks)
  {
    forall p | 0 <= p < |marks| - 1
      ensures SomeGood(log', marks[p], marks[p + 1])
    {
      assert SomeGood(log, marks[p], marks[p + 1]);
      var x :| marks[p] <= x < marks[p + 1] && x < |log| && Good(log[x].answer);
      assert Good(log'[x].answer);
    }
  }

  lemma OneMoreFruitful(log: seq<Call>, marks: seq<nat>)
    requires AllFruitful(log, marks) && marks != []
    ensures Fruitful(log, marks + [|log|])
    ensures SomeGood(log, marks[|marks| - 1], |log|) ==> AllFruitful(log, marks + [|log|])
  {
    var marks' := marks + [|log|];
    forall p | 0 <= p < |marks'| - 1 && (p < |marks| - 1 || SomeGood(log, marks[|marks| - 1], |log|))
      ensures SomeGood(log, marks'[p], marks'[p + 1])
    {
      if p < |marks| - 1 { assert SomeGood(log, marks[p], marks[p + 1]); }
    }
  }

  /** A pass that brought nothing has only unsuccessful calls. */
  lemma BroughtNothing(log: seq<Call>, log': seq<Call>)
    requires log <= log'
    ensures GoodCalls(log') == GoodCalls(log) ==> NoneGood(log', |log|)
    ensures GoodCalls(log') != GoodCalls(log) ==> SomeGood(log', |log|, |log'|)
  {
    GoodCallsGrow(log, log');
  }

  lemma AfterPass(n: nat, workersOk: bool, p: Progress, marks: seq<nat>, attempts: nat, q: Progress,
                  failed: bool, stop: bool)
    returns (marks': seq<nat>)
    requires Going(n, workersOk, p, marks, attempts, false) && q.received == Count(q.held, n, n)
    requires Onward(p, q, Times(n, Times(n, MAX_RETRIES + 1))) && (!q.aborted ==> RowsDone(n, p, q, n))
    requires stop <==> q.aborted || (q.received == p.received && !workersOk && q.received < n * n)
    requires p.received < n * n && failed == (q.failed || stop)
    ensures failed == q.failed && Going(n, workersOk, q, marks', attempts + 1, stop)
  {
    if !workersOk { StillFruitful(p.log, marks, q.log); }
    if q.aborted {
      PassesOn(n, p.log, marks, p.held, q.log, q.held);
      marks' := marks;
    } else {
      OnePassMore(n, p.log, marks, p.held, q.log, q.held);
      BroughtNothing(p.log, q.log);
      Hopeless(n, q.received, q.failed, q.held);
      if !workersOk { OneMoreFruitful(q.log, marks); }
      marks' := marks + [|q.log|];
    }
  }

  /** If no call fails, every call brings a cell. */
  lemma EnoughCalls(attempt: Oracle, log: seq<Call>)
    requires Honest(attempt, log)
    ensures (forall x: nat, key: string :: Good(attempt(x, key))) ==> GoodCalls(log) == |log| && !Failure(log)
  {
    if forall x: nat, key: string :: Good(attempt(x, key)) {
      AllGood(log);
    }
  }

  /** Why the collection stops with cells missing: an error that is no timeout ended
      it, or all attempts were made, or the workers had failed and the last pass
      brought nothing. */
  ghost predicate StoppedShort(n: nat, workers: nat, workersOk: bool, log: seq<Call>, marks: seq<nat>) {
    || Errored(log)
    || |marks| == MaxAttempts(n, workers) + 1
    || (!workersOk && marks != [] && marks[|marks| - 1] == |log| && Unfruitful(log, marks))
  }

  /** max_attempts. */
  function MaxAttempts(n: nat, workers: nat): nat {
    n * n * (MAX_RETRIES + 2) + workers
  }

  /** master_collect: for every pattern of results and timeouts, received_count is
      the number of processed cells; the result is true exactly when every cell was
      received, no call failed for good and the workers were fine; each processed
      cell holds the value of a successful call for its key; cells are missing only
      for one of the three reasons of StoppedShort; and the number of calls is
      bounded, and n * n if they are all successful. */
  method MasterCollect(n: nat, workers: nat, workersOk: bool, attempt: Oracle)
    returns (ok: bool, c: array2<int>, processed: array2<bool>, received: nat, m: nat,
             ghost log: seq<Call>, ghost source: map<(nat, nat), Call>, ghost marks: seq<nat>)
    ensures Collected(n, attempt, m, c, processed, received)
    ensures ok ==> workersOk && received == n * n
    ensures (forall x: nat, key: string :: Good(attempt(x, key))) ==> m == received == n * n && ok == workersOk
    ensures Consistent(n, attempt, log, c, processed, received, Failure(log), source)
    ensures ok <==> (forall i, j | 0 <= i < n && 0 <= j < n :: processed[i, j]) && !Failure(log) && workersOk
    ensures !Failure(log) ==> received == n * n
    ensures received == GoodCalls(log) <= n * n
    ensures forall x | 0 <= x < |log| - 1 :: !Error(log[x].answer)
    ensures Passes(n, log, marks, source.Keys)
    ensures received < n * n ==> StoppedShort(n, workers, workersOk, log, marks)
    ensures !workersOk ==> Fruitful(log, marks)
    ensures m == |log| <= Times(MaxAttempts(n, workers), Times(n, Times(n, MAX_RETRIES + 1)))
  {
    c := new int[n, n]((i, j) => 0);
    processed := new bool[n, n]((i, j) => false);
    received, m, log, source, marks := 0, 0, [], map[], [0];
    var failed := false;
    var expected := n * n;
    NothingYet(n, attempt);
    var maxAttempts := MaxAttempts(n, workers);
    var attempts, stop := 0, false;
    ghost var q := Progress([], 0, false, false, {});
    while received < expected && attempts < maxAttempts && !stop
      invariant attempts <= maxAttempts && m == |log|
      invariant Consistent(n, attempt, log, c, processed, received, failed, source)
      invariant q == Progress(log, received, failed, q.aborted, source.Keys)
      invariant Going(n, workersOk, q, marks, attempts, stop)
      decreases maxAttempts - attempts
    {
      var before, aborted := received, false;
      ghost var p := Progress(log, received, failed, false, source.Keys);
      m, received, failed, aborted, log, source, q :=
        Pass(n, attempt, log, m, c, processed, received, failed, source);
      attempts := attempts + 1;
      stop := aborted;
      if !aborted && received == before && !workersOk && received < expected {
        failed, stop := true, true;
      }
      marks := AfterPass(n, workersOk, p, marks, attempts - 1, q, failed, stop);
    }
    TimesMono(attempts, maxAttempts, Times(n, Times(n, MAX_RETRIES + 1)));
    Conclude(n, attempt, log, c, processed, received, failed, source);
    EnoughCalls(attempt, log);
    ok := received == expected && !failed && workersOk;
  }

  /** The bound of MasterCollect, multiplied out. */
  lemma CallLimit(n: nat, workers: nat)
    ensures Times(MaxAttempts(n, workers), Times(n, Times(n, MAX_RETRIES + 1))) ==
            (n * n * (MAX_RETRIES + 2) + workers) * (n * n * (MAX_RETRIES + 1))
  {
    var perPass := Times(n, Times(n, MAX_RETRIES + 1));
    TimesIsMul(n, MAX_RETRIES + 1);
    TimesIsMul(n, Times(n, MAX_RETRIES + 1));
    assert perPass == n * n * (MAX_RETRIES + 1);
    TimesIsMul(MaxAttempts(n, workers), perPass);
  }
}
