/** Decimal numerals, the keys `X_i_j` and the values exchanged under them: what
    snprintf writes, what atoi reads back, and when one key occurs in another. */
module Keys {
  import opened TupleSpace

  // ----- %d and atoi -----

  function Digit(d: nat): char
    requires d < 10
  {
    '0' + d as char
  }

  predicate IsDigit(c: char) {
    '0' <= c <= '9'
  }

  function Dec(n: nat): (r: string)
    ensures |r| > 0 && forall i | 0 <= i < |r| :: IsDigit(r[i])
  {
    if n < 10 then [Digit(n)] else Dec(n / 10) + [Digit(n % 10)]
  }

  /** snprintf("%d"). */
  function Format(n: int): string {
    if n < 0 then "-" + Dec(-n) else Dec(n)
  }

  function ParseDigits(s: string, acc: nat): nat {
    if s == [] || !IsDigit(s[0]) then acc else ParseDigits(s[1..], acc * 10 + (s[0] - '0') as nat)
  }

  predicate IsSpace(c: char) {
    c == ' ' || '\t' <= c <= '\r'
  }

  /** atoi: white space, an optional sign, digits up to the first other character. */
  function Atoi(s: string): int {
    if s == [] then 0
    else if IsSpace(s[0]) then Atoi(s[1..])
    else if s[0] == '-' then 0 - ParseDigits(s[1..], 0)
    else if s[0] == '+' then ParseDigits(s[1..], 0)
    else ParseDigits(s, 0)
  }

  lemma {:induction false} ParseDec(n: nat, rest: string)
    ensures ParseDigits(Dec(n) + rest, 0) == ParseDigits(rest, n)
  {
    if n < 10 {
      assert (Dec(n) + rest)[1..] == rest;
    } else {
      var last := [Digit(n % 10)] + rest;
      assert Dec(n) + rest == Dec(n / 10) + last;
      ParseDec(n / 10, last);
      assert last[1..] == rest;
    }
  }

  lemma ParseToNul(n: nat, junk: string)
    ensures ParseDigits(Dec(n) + ("\0" + junk), 0) == n
  {
    ParseDec(n, "\0" + junk);
  }

  lemma Regroup(x: string, y: string, z: string)
    ensures x + y + z == x + (y + z)
  {
  }

  lemma AtoiDec(n: nat, tail: string)
    ensures Atoi(Dec(n) + tail) == ParseDigits(Dec(n) + tail, 0)
  {
    var s := Dec(n) + tail;
    assert s[0] == Dec(n)[0] && IsDigit(s[0]);
  }

  lemma AtoiMinus(s: string)
    ensures Atoi("-" + s) == 0 - ParseDigits(s, 0)
  {
    assert ("-" + s)[1..] == s;
  }

  /** What atoi reads from a buffer that holds the formatted number, a NUL and
      whatever was in the buffer before. */
  lemma AtoiFormat(n: int, junk: string)
    ensures Atoi(Format(n) + "\0" + junk) == n
  {
    var tail := "\0" + junk;
    Regroup(Format(n), "\0", junk);
    if n < 0 {
      ParseToNul(-n, junk);
      Regroup("-", Dec(-n), tail);
      AtoiMinus(Dec(-n) + tail);
    } else {
      ParseToNul(n, junk);
      AtoiDec(n, tail);
    }
  }

  lemma DecInjective(a: nat, b: nat)
    requires Dec(a) == Dec(b)
    ensures a == b
  {
    ParseDec(a, []);
    ParseDec(b, []);
    assert Dec(a) + [] == Dec(a) && Dec(b) + [] == Dec(b);
  }

  /** A numeral that is a proper prefix of another denotes a smaller number. */
  lemma {:induction false} PrefixSmaller(a: nat, b: nat)
    requires Dec(a) <= Dec(b)
    ensures a == b || (a <= b / 10 && b >= 10 && Dec(a) <= Dec(b / 10))
  {
    if |Dec(a)| == |Dec(b)| {
      DecInjective(a, b);
    } else {
      assert b >= 10;
      assert Dec(a) <= Dec(b / 10);
      if a != b / 10 { PrefixSmaller(a, b / 10); }
    }
  }

  lemma {:induction false} DecLength(n: nat, k: nat)
    requires n < Pow10(k) && k >= 1
    ensures |Dec(n)| <= k
  {
    if n >= 10 { DecLength(n / 10, k - 1); }
  }

  function Pow10(k: nat): nat {
    if k == 0 then 1 else 10 * Pow10(k - 1)
  }

  // ----- keys -----

  const KEY_BUF := 32
  const VAL_BUF := 32

  /** The matrix, the row and the column of a cell. */
  datatype Key = Key(kind: char, i: nat, j: nat)

  /** snprintf("%c_%d_%d"), not cut off. */
  function Name(k: Key): string {
    [k.kind] + "_" + Format(k.i) + "_" + Format(k.j)
  }

  /** Names and values of 32-bit numbers fit their buffers with the final NUL. */
  lemma FitsBuffers(k: Key, value: int)
    requires k.i < 0x8000_0000 && k.j < 0x8000_0000 && -0x8000_0000 <= value < 0x8000_0000
    ensures |Name(k)| + 1 <= KEY_BUF && |Format(value)| + 1 <= VAL_BUF
  {
    assert Pow10(10) == 10 * Pow10(9) == 100 * Pow10(8) == 1000 * Pow10(7) == 10000 * Pow10(6) == 100000 * Pow10(5);
    assert Pow10(5) == 10 * Pow10(4) == 100 * Pow10(3) == 1000 * Pow10(2) == 10000 * Pow10(1);
    DecLength(k.i, 10);
    DecLength(k.j, 10);
    DecLength(if value < 0 then -value else value, 10);
  }

  predicate IsLetter(c: char) {
    'A' <= c <= 'Z'
  }

  /** Unanchored search for an expression of ordinary characters. */
  predicate Occurs(expr: string, name: string) {
    exists k | 0 <= k <= |name| - |expr| :: OccursAt(expr, name, k)
  }

  predicate OccursAt(expr: string, name: string, k: nat)
    requires k + |expr| <= |name|
  {
    name[k..k + |expr|] == expr
  }

  const SEARCH: Matcher := (expr, name) => Occurs(expr, name)

  /** Key a is found under the name of key b: same matrix, same row, and the
      column numeral of a is a prefix of that of b. */
  predicate Confused(a: Key, b: Key) {
    a.kind == b.kind && a.i == b.i && Dec(a.j) <= Dec(b.j)
  }

  lemma SplitPrefix(x: string, u: string, y: string, v: string)
    requires '_' !in x && '_' !in y
    ensures x + "_" + u <= y + "_" + v <==> x == y && u <= v
  {
    var l, r := x + "_" + u, y + "_" + v;
    if l <= r {
      assert r[|x|] == '_' && r[|y|] == '_';
      assert forall k | 0 <= k < |y| :: r[k] == y[k];
      assert forall k | 0 <= k < |x| :: r[k] == x[k];
      assert x == l[..|x|] == r[..|y|] == y;
      assert u == l[|x| + 1..] && v == r[|y| + 1..];
    }
    if x == y && u <= v {
      assert r == x + "_" + u + v[|u|..];
    }
  }

  lemma FrontPrefix(c: char, l: string, d: char, r: string)
    ensures [c, '_'] + l <= [d, '_'] + r <==> c == d && l <= r
  {
    var x, y := [c, '_'] + l, [d, '_'] + r;
    if x <= y {
      assert x[0] == y[0];
      assert l == x[2..] && r == y[2..];
    }
  }

  lemma NamePrefix(a: Key, b: Key)
    ensures Name(a) <= Name(b) <==> Confused(a, b)
  {
    var x, u, y, v := Dec(a.i), Dec(a.j), Dec(b.i), Dec(b.j);
    SplitPrefix(x, u, y, v);
    DecInjectiveIf(a.i, b.i);
    FrontPrefix(a.kind, x + "_" + u, b.kind, y + "_" + v);
    assert Name(a) == [a.kind, '_'] + (x + "_" + u);
    assert Name(b) == [b.kind, '_'] + (y + "_" + v);
  }

  lemma DecInjectiveIf(a: nat, b: nat)
    ensures Dec(a) == Dec(b) ==> a == b
  {
    if Dec(a) == Dec(b) { DecInjective(a, b); }
  }

  /** The matrix letter stands at the front of a name and nowhere else. */
  lemma OnlyAtFront(b: Key, k: nat)
    requires 0 < k < |Name(b)|
    ensures !IsLetter(Name(b)[k])
  {
    var y, v := Dec(b.i), Dec(b.j);
    assert Name(b) == [b.kind, '_'] + y + ['_'] + v;
    if k == 1 || k == 2 + |y| {
    } else if k < 2 + |y| {
      assert Name(b)[k] == y[k - 2];
    } else {
      assert Name(b)[k] == v[k - 3 - |y|];
    }
  }

  /** When the search for one key succeeds on the name of another. */
  lemma OccursIff(a: Key, b: Key)
    requires IsLetter(a.kind)
    ensures Occurs(Name(a), Name(b)) <==> Confused(a, b)
  {
    NamePrefix(a, b);
    if Occurs(Name(a), Name(b)) {
      var k :| 0 <= k <= |Name(b)| - |Name(a)| && OccursAt(Name(a), Name(b), k);
      var part := Name(b)[k..k + |Name(a)|];
      assert part[0] == a.kind && part[0] == Name(b)[k];
      if k > 0 { OnlyAtFront(b, k); }
    }
    if Name(a) <= Name(b) {
      assert OccursAt(Name(a), Name(b), 0);
    }
  }

  lemma NameInjective(a: Key, b: Key)
    ensures Name(a) == Name(b) <==> a == b
  {
    NamePrefix(a, b);
    NamePrefix(b, a);
    if Name(a) == Name(b) {
      assert Dec(a.j) <= Dec(b.j) && Dec(b.j) <= Dec(a.j);
      DecInjective(a.j, b.j);
    }
  }

  /** Up to column 9 a key is found under its own name only; column 0 always. */
  lemma ConfusedColumns(a: Key, b: Key)
    requires Confused(a, b)
    ensures a.j <= b.j
    ensures b.j < 10 || a.j == 0 ==> a == b
    ensures 10 <= b.j < 12 ==> a == b || a.j == 1
  {
    PrefixSmaller(a.j, b.j);
    if a.j != b.j {
      PrefixSmaller(a.j, b.j / 10);
      if a.j == 0 { ZeroPrefix(b.j); }
    }
  }

  lemma {:induction false} ZeroPrefix(b: nat)
    requires Dec(0) <= Dec(b)
    ensures b == 0
  {
    assert Dec(0)[0] == '0' == Dec(b)[0];
    if b >= 10 {
      assert Dec(b)[0] == Dec(b / 10)[0];
      ZeroPrefix(b / 10);
    }
  }

  /** Column 1 is confused with columns 10 to 19. */
  lemma OneIsPrefix(j: nat)
    requires 10 <= j < 20
    ensures Dec(1) <= Dec(j)
  {
    assert Dec(j) == Dec(1) + [Digit(j % 10)];
  }
}
