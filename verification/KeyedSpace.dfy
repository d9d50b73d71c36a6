/** A tuple list whose tuples belong to matrix cells, seen as a list of keys. */
module KeyedSpace {
  import opened TupleSpace
  import opened Waiting
  import opened ServerInvariants
  import opened Keys
  import opened MatrixProtocol

  /** The tuple is stored under this key with the right value. */
  predicate Shown(n: nat, t: Tuple, key: Key) {
    t.name == Name(key) && t.data == Encode(ValueOf(n, key)) && t.priority == PRIORITY
  }

  ghost predicate Shows(n: nat, space: seq<Tuple>, keys: seq<Key>) {
    |space| == |keys| && forall p | 0 <= p < |keys| :: Shown(n, space[p], keys[p]) && IsLetter(keys[p].kind)
  }

  /** The first key that a search for `key` hits, or -1. */
  function FirstHit(keys: seq<Key>, key: Key): (r: int)
    ensures -1 <= r < |keys|
    ensures r == -1 <==> forall p | 0 <= p < |keys| :: !Confused(key, keys[p])
    ensures r >= 0 ==> Confused(key, keys[r]) && forall p | 0 <= p < r :: !Confused(key, keys[p])
  {
    if keys == [] then -1
    else if Confused(key, keys[0]) then 0
    else
      var r := FirstHit(keys[1..], key);
      if r == -1 then -1 else r + 1
  }

  /** All tuples have the same priority, so findTuple takes the leftmost hit. */
  lemma FindIsFirstHit(n: nat, space: seq<Tuple>, keys: seq<Key>, key: Key)
    requires Shows(n, space, keys) && IsLetter(key.kind)
    ensures Find(SEARCH, space, Name(key)) == FirstHit(keys, key)
  {
    forall p | 0 <= p < |keys|
      ensures SEARCH(Name(key), space[p].name) == Confused(key, keys[p])
    {
      OccursIff(key, keys[p]);
      assert Shown(n, space[p], keys[p]);
    }
    var f := Find(SEARCH, space, Name(key));
    assert f >= 0 ==> forall p | 0 <= p < f :: !SEARCH(Name(key), space[p].name);
  }

  lemma IndexOfKey(n: nat, space: seq<Tuple>, keys: seq<Key>, key: Key)
    requires Shows(n, space, keys)
    ensures var i := IndexOf(space, Name(key)); if i == -1 then key !in keys else keys[i] == key
  {
    forall p | 0 <= p < |keys|
      ensures space[p].name == Name(key) <==> keys[p] == key
    {
      NameInjective(keys[p], key);
      assert Shown(n, space[p], keys[p]);
    }
  }

  lemma KeysDistinct(n: nat, space: seq<Tuple>, keys: seq<Key>, p: nat, p': nat)
    requires Shows(n, space, keys) && UniqueNames(space) && p < p' < |keys|
    ensures keys[p] != keys[p']
  {
    assert Shown(n, space[p], keys[p]) && Shown(n, space[p'], keys[p']);
  }

  /** The list of keys after a PUT under `key` that is stored. */
  function WithKey(keys: seq<Key>, key: Key): seq<Key> {
    if key in keys then keys else keys + [key]
  }

  lemma StoreShows(n: nat, s: Server, keys: seq<Key>, t: Tuple, key: Key)
    requires Shows(n, s.space, keys) && Shown(n, t, key) && IsLetter(key.kind)
    ensures Shows(n, Store(s, t).space, WithKey(keys, key))
  {
    IndexOfKey(n, s.space, keys, key);
    var i := IndexOf(s.space, t.name);
    if i >= 0 { assert keys[i] in keys; }
  }

  lemma RemoveShows(n: nat, space: seq<Tuple>, keys: seq<Key>, i: nat)
    requires Shows(n, space, keys) && i < |keys|
    ensures Shows(n, Remove(space, i), Remove(keys, i))
  {
    var left, leftKeys := Remove(space, i), Remove(keys, i);
    forall p | 0 <= p < |leftKeys|
      ensures Shown(n, left[p], leftKeys[p]) && IsLetter(leftKeys[p].kind)
    {
      var q := if p < i then p else p + 1;
      assert left[p] == space[q] && leftKeys[p] == keys[q];
    }
  }

  /** The client reads back the value it stored. */
  lemma DecodeEncoded(v: int)
    ensures Atoi(Encode(v)) == v
    ensures ReplyData(Encode(v), 0) == Encode(v)
  {
    AtoiFormat(v, "");
    assert Format(v) + "\0" + "" == Encode(v);
  }

  /** A READ or GET answered from the space gives the tuple of the first hit. */
  lemma ReplyValue(n: nat, s: Server, keys: seq<Key>, key: Key)
    requires Shows(n, s.space, keys) && IsLetter(key.kind)
    ensures var r, hit := GetReply(SEARCH, s, Name(key), 0, true, ALL_OK), FirstHit(keys, key);
            if hit == -1 then r == Absent(Some(NOTUPLE))
            else r == Present(Name(keys[hit]), PRIORITY, Encode(ValueOf(n, keys[hit])))
                 && Atoi(r.data) == ValueOf(n, keys[hit])
  {
    FindIsFirstHit(n, s.space, keys, key);
    var hit := FirstHit(keys, key);
    if hit >= 0 {
      assert Shown(n, s.space[hit], keys[hit]);
      DecodeEncoded(ValueOf(n, keys[hit]));
    }
  }

  // ----- what a PUT does when nobody but the master waits -----

  /** Nobody waits, or the master does, for the key `wanted`. */
  predicate QueueIs(queue: seq<Request>, wanted: Option<Key>) {
    match wanted
    case None => queue == []
    case Some(key) => queue == [ClientRequest(key, GET)]
  }

  lemma NotTaken(queue: seq<Request>, t: Tuple, key: Key, wanted: Option<Key>, sends: seq<bool>)
    requires t.name == Name(key) && QueueIs(queue, wanted)
    requires wanted.Some? ==> IsLetter(wanted.value.kind)
    requires wanted.None? || !Confused(wanted.value, key) || !Outcome(sends, 0)
    ensures var c := Consume(SEARCH, queue, t, sends);
            c.winner.None? && (c.kept == queue || c.kept == []) && (Outcome(sends, 0) ==> c.kept == queue)
  {
    if wanted.Some? {
      OccursIff(wanted.value, key);
      assert queue[1..] == [];
    }
  }

  /** A PUT that is not handed over is stored; it drops a waiting GET that it
      could not be sent to. */
  lemma PutStored(n: nat, s: Server, keys: seq<Key>, key: Key, wanted: Option<Key>, sends: seq<bool>)
    requires Shows(n, s.space, keys) && IsLetter(key.kind) && QueueIs(s.queue, wanted)
    requires wanted.Some? ==> IsLetter(wanted.value.kind)
    requires wanted.None? || !Confused(wanted.value, key) || !Outcome(sends, 0)
    ensures var data := Encode(ValueOf(n, key));
            var r := Put(SEARCH, s, Name(key), data, PRIORITY, sends);
            && Winner(SEARCH, s, NewTuple(s, Name(key), data, PRIORITY), sends).None?
            && Shows(n, r.space, WithKey(keys, key))
            && (r.queue == s.queue || r.queue == [])
            && (Outcome(sends, 0) ==> r.queue == s.queue)
  {
    var data := Encode(ValueOf(n, key));
    var t := NewTuple(s, Name(key), data, PRIORITY);
    NotTaken(s.queue, t, key, wanted, sends);
    var c := Consume(SEARCH, s.queue, t, sends);
    var v := s.(issued := s.issued + 1, queue := c.kept, log := s.log + c.log);
    assert v == Offer(SEARCH, s.(issued := s.issued + 1), t, sends);
    StoreShows(n, v, keys, t, key);
  }

  /** A PUT that the waiting GET accepts goes to it and nowhere else. */
  lemma PutHanded(n: nat, s: Server, keys: seq<Key>, key: Key, wanted: Key, sends: seq<bool>)
    requires Shows(n, s.space, keys) && IsLetter(key.kind) && QueueIs(s.queue, Some(wanted)) && IsLetter(wanted.kind)
    requires Confused(wanted, key) && Outcome(sends, 0)
    ensures var data := Encode(ValueOf(n, key));
            var r := Put(SEARCH, s, Name(key), data, PRIORITY, sends);
            && Winner(SEARCH, s, NewTuple(s, Name(key), data, PRIORITY), sends).Some?
            && r.space == s.space && r.queue == []
  {
    OccursIff(wanted, key);
    assert s.queue[1..] == [];
  }

  /** A GET waits when nothing is hit, and otherwise takes the first hit out of the list. */
  lemma GetWaits(n: nat, s: Server, keys: seq<Key>, key: Key)
    requires Shows(n, s.space, keys) && IsLetter(key.kind) && FirstHit(keys, key) == -1
    ensures Get(SEARCH, s, ClientRequest(key, GET), 0, true, ALL_OK) == s.(queue := s.queue + [ClientRequest(key, GET)])
  {
    FindIsFirstHit(n, s.space, keys, key);
  }

  lemma GetRemoves(n: nat, s: Server, keys: seq<Key>, key: Key, hit: nat)
    requires Shows(n, s.space, keys) && IsLetter(key.kind) && hit == FirstHit(keys, key)
    ensures var r := Get(SEARCH, s, ClientRequest(key, GET), 0, true, ALL_OK);
            r.queue == s.queue && Shows(n, r.space, Remove(keys, hit))
  {
    FindIsFirstHit(n, s.space, keys, key);
    RemoveShows(n, s.space, keys, hit);
  }
}
