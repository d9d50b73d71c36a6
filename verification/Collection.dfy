/** master_collect of tsh/matrix.c, with its table of received tuples, for any
    answers to its GETs. */
module Collection {
  import opened TupleSpace
  import opened Keys
  import opened Naturals
  import opened Tiling
  import opened MatrixProtocol

  /** The struct tuple_t. */
  datatype Received = Received(key: string, value: string, seqNum: nat)

  function Asked(n: nat, p: nat): string
    requires n > 0
  {
    Name(CKey(RowMajor(n, p)))
  }

  lemma AskedDiffer(n: nat, p: nat, q: nat)
    requires n > 0 && p != q
    ensures Asked(n, p) != Asked(n, q)
  {
    NameInjective(CKey(RowMajor(n, p)), CKey(RowMajor(n, q)));
    Unpair(p, n);
    Unpair(q, n);
  }

  /** The check for redundant tuples. */
  method IsRedundant(received: array<Received>, count: nat, key: string) returns (found: bool)
    requires count <= received.Length
    ensures found <==> exists k | 0 <= k < count :: received[k].key == key
  {
    found := false;
    var k := 0;
    while k < count && !found
      invariant 0 <= k <= count
      invariant found <==> exists x | 0 <= x < k :: received[x].key == key
    {
      if received[k].key == key {
        found := true;
      }
      k := k + 1;
    }
  }

  /** Entry p is the answer to the GET for the p-th cell. */
  ghost predicate EntryOf(n: nat, entry: Received, key: string, p: nat, answer: nat -> string)
    requires n > 0
  {
    key == Asked(n, p) && entry == Received(key, answer(p), p)
  }

  ghost predicate Entered(n: nat, table: seq<Received>, asked: seq<string>, answer: nat -> string)
    requires n > 0
  {
    |asked| <= |table| && forall p | 0 <= p < |asked| :: EntryOf(n, table[p], asked[p], p, answer)
  }

  ghost predicate Filled(n: nat, c: array2<int>, upto: nat, answer: nat -> string)
    reads c
  {
    c.Length0 == n && c.Length1 == n &&
    forall i: nat, j: nat | i < n && j < n && Times(i, n) + j < upto :: c[i, j] == Atoi(answer(Times(i, n) + j))
  }

  lemma NotEntered(n: nat, table: seq<Received>, asked: seq<string>, answer: nat -> string)
    requires n > 0 && Entered(n, table, asked, answer)
    ensures forall k | 0 <= k < |asked| :: table[k].key != Asked(n, |asked|)
  {
    forall k | 0 <= k < |asked|
      ensures table[k].key != Asked(n, |asked|)
    {
      assert EntryOf(n, table[k], asked[k], k, answer);
      AskedDiffer(n, k, |asked|);
    }
  }

  lemma EnterNext(n: nat, table: seq<Received>, asked: seq<string>, answer: nat -> string)
    requires n > 0 && Entered(n, table, asked, answer) && |asked| < |table|
    ensures var p := |asked|;
            Entered(n, table[p := Received(Asked(n, p), answer(p), p)], asked + [Asked(n, p)], answer)
  {
    var m := |asked|;
    var table', asked' := table[m := Received(Asked(n, m), answer(m), m)], asked + [Asked(n, m)];
    forall p | 0 <= p < |asked'|
      ensures EntryOf(n, table'[p], asked'[p], p, answer)
    {
      if p < m { assert asked'[p] == asked[p] && table'[p] == table[p]; }
    }
  }

  /** C[i][j] = atoi(val). */
  method StoreResult(n: nat, i: nat, j: nat, answer: nat -> string, c: array2<int>, val: string)
    requires i < n && j < n && val == answer(Times(i, n) + j) && Filled(n, c, Times(i, n) + j, answer)
    modifies c
    ensures Filled(n, c, Times(i, n) + j + 1, answer)
  {
    c[i, j] := Atoi(val);
    forall x: nat, y: nat | x < n && y < n && Times(x, n) + y < Times(i, n) + j + 1
      ensures c[x, y] == Atoi(answer(Times(x, n) + y))
    {
      Pair(x, y, n);
      Pair(i, j, n);
    }
  }

  /** One round of the two loops: the GET for cell (i, j), whose key is always new. */
  method CollectCell(n: nat, i: nat, j: nat, answer: nat -> string, c: array2<int>, received: array<Received>,
                     ghost asked: seq<string>, count: nat) returns (count': nat, ghost asked': seq<string>)
    requires i < n && j < n && count == Times(i, n) + j == |asked| < received.Length
    requires Entered(n, received[..], asked, answer) && Filled(n, c, count, answer)
    modifies c, received
    ensures count' == count + 1 == |asked'|
    ensures Entered(n, received[..], asked', answer) && Filled(n, c, count', answer)
  {
    asked' := asked + [Asked(n, count)];
    var key := Name(Key('C', i, j));
    var val := answer(count);
    Pair(i, j, n);
    NotEntered(n, received[..], asked, answer);
    EnterNext(n, received[..], asked, answer);
    var found := IsRedundant(received, count, key);
    count' := count;
    if !found {
      received[count] := Received(key, val, count);
      assert received[..] == old(received[..])[count := Received(key, val, count)];
      StoreResult(n, i, j, answer, c, val);
      count' := count + 1;
    }
  }

  /** The loop over j. */
  method CollectRow(n: nat, i: nat, answer: nat -> string, c: array2<int>, received: array<Received>,
                    ghost asked: seq<string>, count: nat) returns (count': nat, ghost asked': seq<string>)
    requires i < n && count == Times(i, n) == |asked| && Times(i + 1, n) <= received.Length
    requires Entered(n, received[..], asked, answer) && Filled(n, c, count, answer)
    modifies c, received
    ensures count' == Times(i + 1, n) == |asked'|
    ensures Entered(n, received[..], asked', answer) && Filled(n, c, count', answer)
  {
    count', asked' := count, asked;
    var j := 0;
    while j < n
      invariant 0 <= j <= n && count' == Times(i, n) + j == |asked'|
      invariant Entered(n, received[..], asked', answer) && Filled(n, c, count', answer)
    {
      count', asked' := CollectCell(n, i, j, answer, c, received, asked', count');
      j := j + 1;
    }
  }

  /** One pass over all cells. */
  method CollectPass(n: nat, answer: nat -> string, c: array2<int>, received: array<Received>,
                     ghost asked: seq<string>, count: nat) returns (count': nat, ghost asked': seq<string>)
    requires n > 0 && received.Length == Times(n, n) && count == 0 == |asked|
    requires Entered(n, received[..], asked, answer) && Filled(n, c, count, answer)
    modifies c, received
    ensures count' == Times(n, n) == |asked'|
    ensures Entered(n, received[..], asked', answer) && Filled(n, c, count', answer)
  {
    count', asked' := count, asked;
    var i := 0;
    while i < n
      invariant 0 <= i <= n && count' == Times(i, n) == |asked'|
      invariant Entered(n, received[..], asked', answer) && Filled(n, c, count', answer)
    {
      TimesMono(i + 1, n, n);
      count', asked' := CollectRow(n, i, answer, c, received, asked', count');
      i := i + 1;
    }
  }

  lemma AllDifferent(n: nat, table: seq<Received>, asked: seq<string>, answer: nat -> string)
    requires n > 0 && Entered(n, table, asked, answer)
    ensures forall p, q | 0 <= p < q < |asked| :: asked[p] != asked[q]
  {
    forall p, q | 0 <= p < q < |asked|
      ensures asked[p] != asked[q]
    {
      assert EntryOf(n, table[p], asked[p], p, answer) && EntryOf(n, table[q], asked[q], q, answer);
      AskedDiffer(n, p, q);
    }
  }

  lemma AllFilled(n: nat, c: array2<int>, answer: nat -> string)
    requires Filled(n, c, Times(n, n), answer)
    ensures forall i, j | 0 <= i < n && 0 <= j < n :: c[i, j] == Atoi(answer(i * n + j))
  {
    forall i, j | 0 <= i < n && 0 <= j < n
      ensures c[i, j] == Atoi(answer(i * n + j))
    {
      TimesIsMul(i, n);
      PairBelow(i, j, n, n);
    }
  }

  /** The master issues exactly one GET per cell, in row-major order, in a single
      pass; every answer is entered once, with its rank as sequence number, and
      stored in its cell. */
  method MasterCollect(n: nat, answer: nat -> string)
    returns (c: array2<int>, received: array<Received>, ghost asked: seq<string>, passes: nat)
    requires n > 0
    ensures passes == 1 && |asked| == n * n && received.Length == n * n
    ensures Entered(n, received[..], asked, answer)
    ensures forall p, q | 0 <= p < q < |asked| :: asked[p] != asked[q]
    ensures c.Length0 == n && c.Length1 == n
    ensures forall i, j | 0 <= i < n && 0 <= j < n :: c[i, j] == Atoi(answer(i * n + j))
  {
    TimesIsMul(n, n);
    c := new int[n, n]((i, j) => 0);
    var count, expected := 0, n * n;
    received := new Received[expected](i => Received("", "", 0));
    asked, passes := [], 0;
    while count < expected
      invariant (count == 0 && passes == 0) || (count == expected && passes == 1)
      invariant |asked| == count && Entered(n, received[..], asked, answer) && Filled(n, c, count, answer)
      decreases expected - count
    {
      count, asked := CollectPass(n, answer, c, received, asked, count);
      passes := passes + 1;
    }
    AllDifferent(n, received[..], asked, answer);
    AllFilled(n, c, answer);
  }
}
