/** The loops of initializeMatrix and worker_compute, with the retry after a timeout.
    What they exchange with the server is a sequence of PUTs; a READ returns the
    contents of the client's buffer. The transition system's processes go through
    exactly these PUTs. */
module WorkerLoops {
  import opened TupleSpace
  import opened Keys
  import opened Naturals
  import opened Tiling
  import opened Products
  import opened MatrixProtocol
  import opened ProtocolBase
  import opened ProtocolTheorems
  import opened EndToEnd

  /** TshPUT(key, strlen(val) + 1, val): the name and the characters sent. */
  datatype PutMsg = PutMsg(name: string, data: string)

  function Message(n: nat, key: Key): PutMsg {
    PutMsg(Name(key), Format(ValueOf(n, key)) + "\0")
  }

  // ----- initializeMatrix -----

  /** The p-th PUT for a matrix. */
  function CellPut(n: nat, name: char, initValue: nat, p: nat): PutMsg
    requires n > 0
  {
    var c := RowMajor(n, p);
    PutMsg(Name(Key(name, c.i, c.j)), Format(Entry(initValue, c.i, c.j)) + "\0")
  }

  /** The first PUTs for a matrix, in row-major order. */
  ghost predicate Publishes(n: nat, name: char, initValue: nat, puts: seq<PutMsg>)
    requires n > 0
  {
    forall p | 0 <= p < |puts| :: puts[p] == CellPut(n, name, initValue, p)
  }

  ghost predicate RowsFilled(n: nat, matrix: array2<int>, initValue: nat, rows: nat)
    reads matrix
  {
    && matrix.Length0 == n && matrix.Length1 == n
    && forall x: nat, y: nat | x < rows && x < n && y < n :: matrix[x, y] == Entry(initValue, x, y)
  }

  lemma NextPut(n: nat, name: char, initValue: nat, puts: seq<PutMsg>, i: nat, j: nat)
    requires j < n && |puts| == Times(i, n) + j && Publishes(n, name, initValue, puts)
    ensures Publishes(n, name, initValue, puts + [PutMsg(Name(Key(name, i, j)), Format(Entry(initValue, i, j)) + "\0")])
  {
    Pair(i, j, n);
  }

  /** The loop over j. */
  method InitializeRow(n: nat, name: char, initValue: nat, i: nat, matrix: array2<int>, puts: seq<PutMsg>)
    returns (puts': seq<PutMsg>)
    requires i < n && RowsFilled(n, matrix, initValue, i)
    requires |puts| == Times(i, n) && Publishes(n, name, initValue, puts)
    modifies matrix
    ensures RowsFilled(n, matrix, initValue, i + 1)
    ensures |puts'| == Times(i + 1, n) && Publishes(n, name, initValue, puts')
  {
    puts' := puts;
    var j := 0;
    while j < n
      invariant 0 <= j <= n && |puts'| == Times(i, n) + j
      invariant RowsFilled(n, matrix, initValue, i)
      invariant forall y: nat | y < j :: matrix[i, y] == Entry(initValue, i, y)
      invariant Publishes(n, name, initValue, puts')
    {
      matrix[i, j] := initValue + i + j;
      NextPut(n, name, initValue, puts', i, j);
      puts' := puts' + [PutMsg(Name(Key(name, i, j)), Format(matrix[i, j]) + "\0")];
      j := j + 1;
    }
  }

  /** Fills the matrix and publishes all of it. */
  method InitializeMatrix(cfg: Config, name: char, initValue: nat) returns (matrix: array2<int>, puts: seq<PutMsg>)
    requires cfg.Valid()
    ensures matrix.Length0 == cfg.n && matrix.Length1 == cfg.n
    ensures forall i: nat, j: nat | i < cfg.n && j < cfg.n :: matrix[i, j] == Entry(initValue, i, j)
    ensures |puts| == cfg.n * cfg.n && Publishes(cfg.n, name, initValue, puts)
  {
    var n := cfg.n;
    matrix := new int[n, n];
    puts := [];
    var i := 0;
    while i < n
      invariant 0 <= i <= n && |puts| == Times(i, n)
      invariant RowsFilled(n, matrix, initValue, i) && Publishes(n, name, initValue, puts)
    {
      puts := InitializeRow(n, name, initValue, i, matrix, puts);
      i := i + 1;
    }
    TimesIsMul(n, n);
  }

  /** These PUTs as the server sees them, when nobody waits. */
  function PutConnections(puts: seq<PutMsg>): (r: seq<Connection>)
    ensures |r| == |puts|
  {
    seq(|puts|, p requires 0 <= p < |puts| =>
      PutConn(Some(PutHeader(puts[p].name, PRIORITY, 0, 0)), true, Some(puts[p].data), true, []))
  }

  lemma InitialMessage(cfg: Config, a: seq<PutMsg>, b: seq<PutMsg>, p: nat)
    requires cfg.Valid() && |a| == |b| == cfg.Square() && p < |a + b|
    requires Publishes(cfg.n, 'A', INIT_A, a) && Publishes(cfg.n, 'B', INIT_B, b)
    ensures (a + b)[p] == Message(cfg.n, InitialKey(cfg, p))
  {
  }

  lemma PublishStep(cfg: Config, s: Sys, q: nat, m: nat) returns (next: Sys)
    requires cfg.Valid() && s.phase == Publishing(q) && q < 2 * cfg.Square() && m > 0
    ensures next.phase == Publishing(q + 1)
    ensures Connections(cfg, s, Parents(m))
            == [PutOf(InitialKey(cfg, q), ValueOf(cfg.n, InitialKey(cfg, q)), [])] + Connections(cfg, next, Parents(m - 1))
  {
    next := ParentStep(cfg, s);
    assert Parents(m)[1..] == Parents(m - 1);
    assert Step(cfg, s, Parent) == next;
  }

  lemma FirstPut(cfg: Config, q: nat, puts: seq<PutMsg>)
    requires cfg.Valid() && q < 2 * cfg.Square() && puts != [] && puts[0] == Message(cfg.n, InitialKey(cfg, q))
    ensures PutConnections(puts)
            == [PutOf(InitialKey(cfg, q), ValueOf(cfg.n, InitialKey(cfg, q)), [])] + PutConnections(puts[1..])
  {
  }

  /** These are the initial PUTs from the q-th on. */
  ghost predicate AreMessages(cfg: Config, q: nat, puts: seq<PutMsg>)
    requires cfg.Valid()
  {
    forall p | q <= p < q + |puts| :: puts[p - q] == Message(cfg.n, InitialKey(cfg, p))
  }

  lemma RestMessages(cfg: Config, q: nat, puts: seq<PutMsg>)
    requires cfg.Valid() && puts != [] && AreMessages(cfg, q, puts)
    ensures AreMessages(cfg, q + 1, puts[1..])
  {
    var rest := puts[1..];
    forall p | q + 1 <= p < q + 1 + |rest|
      ensures rest[p - (q + 1)] == Message(cfg.n, InitialKey(cfg, p))
    {
      assert rest[p - (q + 1)] == puts[p - q];
    }
  }

  lemma {:induction false} PublishSteps(cfg: Config, s: Sys, q: nat, puts: seq<PutMsg>)
    requires cfg.Valid() && s.phase == Publishing(q) && q + |puts| <= 2 * cfg.Square()
    requires AreMessages(cfg, q, puts)
    ensures Connections(cfg, s, Parents(|puts|)) == PutConnections(puts)
    decreases |puts|
  {
    if puts == [] {
      assert Parents(0) == [];
    } else {
      var next := PublishStep(cfg, s, q, |puts|);
      RestMessages(cfg, q, puts);
      PublishSteps(cfg, next, q + 1, puts[1..]);
      FirstPut(cfg, q, puts);
    }
  }

  /** The two calls in main are the first steps of the transition system's parent:
      it makes exactly their PUTs, and the server is as they leave it. */
  lemma InitializationIsInitial(cfg: Config, a: seq<PutMsg>, b: seq<PutMsg>)
    requires cfg.Valid() && |a| == |b| == cfg.Square()
    requires Publishes(cfg.n, 'A', INIT_A, a) && Publishes(cfg.n, 'B', INIT_B, b)
    ensures Connections(cfg, INIT, Parents(|a + b|)) == PutConnections(a + b)
    ensures Run(cfg, INIT, Parents(|a + b|)).server == Serve(SEARCH, PutConnections(a + b))
  {
    forall p | 0 <= p < |a + b|
      ensures (a + b)[p - 0] == Message(cfg.n, InitialKey(cfg, p))
    {
      InitialMessage(cfg, a, b, p);
    }
    assert AreMessages(cfg, 0, a + b);
    PublishSteps(cfg, INIT, 0, a + b);
    RunServed(cfg, Parents(|a + b|));
  }

  // ----- worker_compute -----

  /** After each READ of a cell of A or B the client's buffer starts with that cell's
      numeral and a NUL. `read` is given the number of the READ, since buffers differ
      behind the NUL. ClientBuffer.RunAnswers derives this for the READs of any run. */
  ghost predicate AnswersExact(cfg: Config, read: (nat, Key) -> string) {
    forall m: nat, key: Key | InputKey(cfg, key) :: BufferHolds(read(m, key), ValueOf(cfg.n, key))
  }

  ghost predicate BufferHolds(buffer: string, v: int) {
    exists junk: string :: buffer == Format(v) + "\0" + junk
  }

  /** A READ, repeated once if the alarm goes off during the m-th exchange. */
  method ReadWithRetry(read: (nat, Key) -> string, late: nat -> bool, m: nat, key: Key)
    returns (value: string, m': nat)
    ensures m' == if late(m) then m + 2 else m + 1
    ensures value == read(m' - 1, key)
  {
    m' := m + 1;
    if late(m) {
      m' := m' + 1;
    }
    value := read(m' - 1, key);
  }

  /** The innermost loop. */
  method InnerProduct(cfg: Config, i: nat, j: nat, read: (nat, Key) -> string, late: nat -> bool, m0: nat)
    returns (sum: int, m: nat)
    requires i < cfg.n && j < cfg.n && AnswersExact(cfg, read)
    ensures sum == Product(cfg.n, i, j) && m0 + 2 * cfg.n <= m <= m0 + 4 * cfg.n
  {
    sum, m := 0, m0;
    var k := 0;
    while k < cfg.n
      invariant 0 <= k <= cfg.n && sum == PartialSum(i, j, k) && m0 + 2 * k <= m <= m0 + 4 * k
    {
      var valA, valB;
      valA, m := ReadWithRetry(read, late, m, Key('A', i, k));
      ReadBack(cfg, read, m - 1, Key('A', i, k));
      valB, m := ReadWithRetry(read, late, m, Key('B', k, j));
      ReadBack(cfg, read, m - 1, Key('B', k, j));
      sum := sum + Atoi(valA) * Atoi(valB);
      k := k + 1;
    }
  }

  lemma ReadBack(cfg: Config, read: (nat, Key) -> string, m: nat, key: Key)
    requires AnswersExact(cfg, read) && InputKey(cfg, key)
    ensures Atoi(read(m, key)) == ValueOf(cfg.n, key)
  {
    assert BufferHolds(read(m, key), ValueOf(cfg.n, key));
    var junk: string :| read(m, key) == Format(ValueOf(cfg.n, key)) + "\0" + junk;
    AtoiFormat(ValueOf(cfg.n, key), junk);
  }

  /** The PUT of worker w at turn t. */
  function Share(cfg: Config, g: Grid, w: nat, t: nat): PutMsg
    requires g.Valid() && g.HasCell(w, t)
  {
    Message(cfg.n, CKey(g.CellAt(w, t)))
  }

  ghost predicate IsShare(cfg: Config, g: Grid, w: nat, puts: seq<PutMsg>)
    requires g.Valid()
  {
    forall t: nat | t < |puts| :: g.HasCell(w, t) && puts[t] == Share(cfg, g, w, t)
  }

  /** The division in the source is that of the assignment; a block lies inside
      the matrix, so the loops' upper bounds N never cut it. */
  lemma BlockBounds(g: Grid, block: nat)
    requires g.Valid() && block < Times(g.Blocks(), g.Blocks())
    ensures g.Blocks() > 0 && g.Blocks() == g.n / g.b
    ensures block / g.Blocks() * g.b == Times(Quot(block, g.Blocks()), g.b)
    ensures block % g.Blocks() * g.b == Times(Rem(block, g.Blocks()), g.b)
    ensures Times(Quot(block, g.Blocks()), g.b) + g.b <= g.n
    ensures Times(Rem(block, g.Blocks()), g.b) + g.b <= g.n
  {
    var nb := g.Blocks();
    QuotRemIsDivMod(g.n, g.b);
    QuotRemIsDivMod(block, nb);
    TimesIsMul(block / nb, g.b);
    TimesIsMul(block % nb, g.b);
    QuotBelow(block, nb, nb);
    TimesMono(Quot(block, nb) + 1, nb, g.b);
    TimesMono(Rem(block, nb) + 1, nb, g.b);
    Unpair(g.n, g.b);
  }

  /** The turn that comes after m full blocks, x full rows and y cells. */
  lemma TurnInBlock(g: Grid, w: nat, m: nat, x: nat, y: nat)
    requires g.Valid() && x < g.b && y < g.b && w + Times(m, g.workers) < Times(g.Blocks(), g.Blocks())
    ensures var t, block := Times(m, g.Area()) + (Times(x, g.b) + y), w + Times(m, g.workers);
            && g.HasCell(w, t)
            && g.CellAt(w, t) == Cell(Times(Quot(block, g.Blocks()), g.b) + x, Times(Rem(block, g.Blocks()), g.b) + y)
  {
    PairBelow(x, y, g.b, g.b);
    Pair(m, Times(x, g.b) + y, g.Area());
    Pair(x, y, g.b);
  }

  lemma ShareNext(cfg: Config, g: Grid, w: nat, puts: seq<PutMsg>, c: Cell)
    requires g.Valid() && IsShare(cfg, g, w, puts) && g.HasCell(w, |puts|) && g.CellAt(w, |puts|) == c
    ensures IsShare(cfg, g, w, puts + [PutMsg(Name(CKey(c)), Format(Product(cfg.n, c.i, c.j)) + "\0")])
  {
  }

  /** What was sent, with the PUTs that the alarm made the worker repeat, is `puts`
      up to repetition. */
  ghost predicate OnlyRepeats(sent: seq<PutMsg>, puts: seq<PutMsg>) {
    |puts| <= |sent| && (forall x | x in sent :: x in puts) && forall x | x in puts :: x in sent
  }

  /** A PUT, repeated once if the alarm goes off during the m-th exchange. */
  method PutWithRetry(late: nat -> bool, m: nat, msg: PutMsg, sent: seq<PutMsg>, ghost puts: seq<PutMsg>)
    returns (sent': seq<PutMsg>, m': nat)
    requires OnlyRepeats(sent, puts)
    ensures OnlyRepeats(sent', puts + [msg])
    ensures sent' == if late(m) then sent + [msg, msg] else sent + [msg]
    ensures m' == if late(m) then m + 2 else m + 1
  {
    sent', m' := sent + [msg], m + 1;
    if late(m) {
      sent', m' := sent' + [msg], m' + 1;
      assert sent' == sent + [msg, msg];
    }
    assert msg in [msg];
  }

  /** One row of a block: the loop over j. */
  method ComputeRow(cfg: Config, g: Grid, w: nat, ghost m: nat, block: nat, x: nat, i: nat, col0: nat,
                    read: (nat, Key) -> string, late: nat -> bool, asked0: nat,
                    puts0: seq<PutMsg>, sent0: seq<PutMsg>)
    returns (puts: seq<PutMsg>, sent: seq<PutMsg>, asked: nat)
    requires g.Valid() && g.n == cfg.n && AnswersExact(cfg, read) && x < g.b
    requires block == w + Times(m, g.workers) < Times(g.Blocks(), g.Blocks())
    requires i == Times(Quot(block, g.Blocks()), g.b) + x && col0 == Times(Rem(block, g.Blocks()), g.b)
    requires i < g.n && col0 + g.b <= g.n
    requires IsShare(cfg, g, w, puts0) && |puts0| == Times(m, g.Area()) + Times(x, g.b) && OnlyRepeats(sent0, puts0)
    ensures IsShare(cfg, g, w, puts) && |puts| == Times(m, g.Area()) + Times(x + 1, g.b) && OnlyRepeats(sent, puts)
  {
    puts, sent, asked := puts0, sent0, asked0;
    var j := col0;
    while j < col0 + g.b && j < g.n
      invariant col0 <= j <= col0 + g.b
      invariant IsShare(cfg, g, w, puts) && |puts| == Times(m, g.Area()) + (Times(x, g.b) + (j - col0))
      invariant OnlyRepeats(sent, puts)
    {
      var sum;
      sum, asked := InnerProduct(cfg, i, j, read, late, asked);
      TurnInBlock(g, w, m, x, j - col0);
      ShareNext(cfg, g, w, puts, Cell(i, j));
      var msg := PutMsg(Name(Key('C', i, j)), Format(sum) + "\0");
      sent, asked := PutWithRetry(late, asked, msg, sent, puts);
      puts := puts + [msg];
      j := j + 1;
    }
  }

  /** One block: the loop over i. */
  method ComputeBlock(cfg: Config, g: Grid, w: nat, ghost m: nat, block: nat,
                      read: (nat, Key) -> string, late: nat -> bool, asked0: nat,
                      puts0: seq<PutMsg>, sent0: seq<PutMsg>)
    returns (puts: seq<PutMsg>, sent: seq<PutMsg>, asked: nat)
    requires g.Valid() && g.n == cfg.n && AnswersExact(cfg, read)
    requires block == w + Times(m, g.workers) < Times(g.Blocks(), g.Blocks())
    requires IsShare(cfg, g, w, puts0) && |puts0| == Times(m, g.Area()) && OnlyRepeats(sent0, puts0)
    ensures IsShare(cfg, g, w, puts) && |puts| == Times(m + 1, g.Area()) && OnlyRepeats(sent, puts)
  {
    BlockBounds(g, block);
    var numBlocks := g.n / g.b;
    var row0 := block / numBlocks * g.b;
    var col0 := block % numBlocks * g.b;
    puts, sent, asked := puts0, sent0, asked0;
    var i := row0;
    while i < row0 + g.b && i < g.n
      invariant row0 <= i <= row0 + g.b
      invariant IsShare(cfg, g, w, puts) && |puts| == Times(m, g.Area()) + Times(i - row0, g.b)
      invariant OnlyRepeats(sent, puts)
    {
      puts, sent, asked := ComputeRow(cfg, g, w, m, block, i - row0, i, col0, read, late, asked, puts, sent);
      i := i + 1;
    }
  }

  /** worker_compute, for any exchanges during which the alarm goes off: its PUTs are
      the worker's cells in the order of its turns, each with the inner product that
      belongs there, and none is missing; nothing else is ever sent. */
  method WorkerCompute(cfg: Config, g: Grid, w: nat, read: (nat, Key) -> string, late: nat -> bool)
    returns (puts: seq<PutMsg>, sent: seq<PutMsg>)
    requires g.Valid() && g.n == cfg.n && w < g.workers && AnswersExact(cfg, read)
    ensures IsShare(cfg, g, w, puts) && OnlyRepeats(sent, puts)
    ensures forall t: nat :: g.HasCell(w, t) <==> t < |puts|
  {
    var numBlocks := g.n / g.b;
    QuotRemIsDivMod(g.n, g.b);
    TimesIsMul(numBlocks, numBlocks);
    var totalBlocks := numBlocks * numBlocks;
    var block, asked := w, 0;
    ghost var m := 0;
    puts, sent := [], [];
    while block < totalBlocks
      invariant block == w + Times(m, g.workers)
      invariant IsShare(cfg, g, w, puts) && |puts| == Times(m, g.Area()) && OnlyRepeats(sent, puts)
      decreases totalBlocks - block
    {
      puts, sent, asked := ComputeBlock(cfg, g, w, m, block, read, late, asked, puts, sent);
      block := block + g.workers;
      m := m + 1;
    }
    AllTurns(g, w, m, |puts|);
  }

  lemma AllTurns(g: Grid, w: nat, m: nat, count: nat)
    requires g.Valid() && w + Times(m, g.workers) >= Times(g.Blocks(), g.Blocks()) && count == Times(m, g.Area())
    requires forall t: nat | t < count :: g.HasCell(w, t)
    ensures forall t: nat :: g.HasCell(w, t) <==> t < count
  {
    Pair(m, 0, g.Area());
    assert !g.HasCell(w, count);
    forall t: nat
      ensures g.HasCell(w, t) <==> t < count
    {
      if t >= count { NoMoreCells(g, w, count, t); }
    }
  }
}
