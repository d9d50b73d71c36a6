/** readn and writen of netlib/netlib.c over a FIFO byte channel whose system calls
    may move any positive part of what is asked for, or fail. */
module Framing {
  newtype Byte = x: int | 0 <= x < 256

  /** The buffer contents s with `part` stored from position `at` on. */
  function Overwritten(s: seq<Byte>, at: nat, part: seq<Byte>): (r: seq<Byte>)
    requires at + |part| <= |s|
    ensures |r| == |s|
  {
    s[..at] + part + s[at + |part|..]
  }

  /** `stream` is everything written so far and `pos` how much of it was read. The
      t-th system call moves at most `chunk(t)` bytes and fails if that is not
      positive, so how the two ends interleave only shows in `chunk`. */
  class Channel {
    const chunk: nat -> int
    var stream: seq<Byte>
    var pos: nat
    var calls: nat

    ghost predicate Valid()
      reads this
    {
      pos <= |stream|
    }

    constructor (chunk: nat -> int)
      ensures Valid() && this.chunk == chunk && stream == [] && pos == 0 && calls == 0
    {
      this.chunk := chunk;
      stream, pos, calls := [], 0, 0;
    }

    /** The calls between `from` and now were not failed by the system. */
    ghost predicate NoFailure(from: nat)
      reads this
    {
      forall t: nat | from <= t < calls :: chunk(t) > 0
    }

    /** The system call read: at end of file it gives 0. */
    method Read(ptr: array<Byte>, at: nat, count: nat) returns (nread: int)
      requires Valid() && 0 < count && at + count <= ptr.Length
      modifies this, ptr
      ensures Valid() && stream == old(stream) && calls == old(calls) + 1
      ensures nread <= count && (nread <= 0 ==> pos == old(pos)) && (nread > 0 ==> pos == old(pos) + nread)
      ensures nread > 0 <==> chunk(old(calls)) > 0 && old(pos) < |stream|
      ensures ptr[..] == Overwritten(old(ptr[..]), at, stream[old(pos)..pos])
    {
      var k, rest := chunk(calls), |stream| - pos;
      calls := calls + 1;
      if k <= 0 {
        return k;
      }
      var moved: nat := if k < count then k else count;
      if rest < moved {
        moved := rest;
      }
      var from := pos;
      forall x | 0 <= x < moved {
        ptr[at + x] := stream[from + x];
      }
      pos := pos + moved;
      return moved;
    }

    /** The system call write. */
    method Write(ptr: array<Byte>, at: nat, count: nat) returns (nwritten: int)
      requires Valid() && 0 < count && at + count <= ptr.Length
      modifies this
      ensures Valid() && pos == old(pos) && calls == old(calls) + 1
      ensures nwritten <= count && (nwritten > 0 <==> chunk(old(calls)) > 0)
      ensures stream == old(stream) + if nwritten > 0 then ptr[at..at + nwritten] else []
    {
      nwritten := chunk(calls);
      calls := calls + 1;
      if nwritten > count {
        nwritten := count;
      }
      if nwritten > 0 {
        stream := stream + ptr[at..at + nwritten];
      }
    }
  }

  function Positive(nbytes: int): nat {
    if nbytes > 0 then nbytes else 0
  }

  /** Storing a part behind another one. */
  lemma Behind(s: seq<Byte>, first: seq<Byte>, second: seq<Byte>)
    requires |first| + |second| <= |s|
    ensures Overwritten(Overwritten(s, 0, first), |first|, second) == Overwritten(s, 0, first + second)
  {
  }

  /** The buffer that held `empty` has received the bytes since position `start`. */
  ghost predicate Filling(sd: Channel, ptr: array<Byte>, start: nat, empty: seq<Byte>)
    reads sd, ptr
  {
    && sd.Valid() && start <= sd.pos && sd.pos - start <= |empty|
    && ptr[..] == Overwritten(empty, 0, sd.stream[start..sd.pos])
  }

  /** One system call of readn's loop. */
  method FillMore(sd: Channel, ptr: array<Byte>, at: nat, nleft: nat, ghost start: nat, ghost empty: seq<Byte>)
    returns (nread: int)
    requires 0 < nleft && at + nleft <= ptr.Length && Filling(sd, ptr, start, empty) && sd.pos == start + at
    modifies sd, ptr
    ensures Filling(sd, ptr, start, empty) && sd.stream == old(sd.stream) && sd.calls == old(sd.calls) + 1
    ensures nread <= nleft && sd.pos == old(sd.pos) + Positive(nread)
    ensures nread > 0 <==> sd.chunk(old(sd.calls)) > 0 && old(sd.pos) < |sd.stream|
  {
    nread := sd.Read(ptr, at, nleft);
    Behind(empty, sd.stream[start..old(sd.pos)], sd.stream[old(sd.pos)..sd.pos]);
    assert sd.stream[start..old(sd.pos)] + sd.stream[old(sd.pos)..sd.pos] == sd.stream[start..sd.pos];
  }

  /** The bytes taken from the channel are at the front of the buffer, in order, the
      rest of the buffer is as before; 1 means that exactly nbytes were stored. */
  method Readn(sd: Channel, ptr: array<Byte>, nbytes: int) returns (result: int)
    requires sd.Valid() && nbytes <= ptr.Length
    modifies sd, ptr
    ensures sd.Valid() && sd.stream == old(sd.stream) && old(sd.pos) <= sd.pos && old(sd.calls) <= sd.calls
    ensures var got := sd.pos - old(sd.pos);
            && got <= Positive(nbytes)
            && ptr[..] == Overwritten(old(ptr[..]), 0, sd.stream[old(sd.pos)..sd.pos])
            && result == if got == Positive(nbytes) then 1 else 0
    ensures sd.NoFailure(old(sd.calls)) && old(sd.pos) + Positive(nbytes) <= |sd.stream| ==> result == 1
  {
    var nleft := nbytes;
    var at := 0;
    while nleft > 0
      invariant nleft == nbytes - at && at <= Positive(nbytes) && sd.pos == old(sd.pos) + at
      invariant Filling(sd, ptr, old(sd.pos), old(ptr[..]))
      invariant sd.stream == old(sd.stream) && old(sd.calls) <= sd.calls
      decreases nleft
    {
      ghost var call := sd.calls;
      var nread := FillMore(sd, ptr, at, nleft, old(sd.pos), old(ptr[..]));
      if nread <= 0 {
        assert sd.chunk(call) <= 0 || sd.pos == |sd.stream|;
        return 0;
      }
      nleft := nleft - nread;
      at := at + nread;
    }
    return 1;
  }

  /** A prefix of the buffer goes to the channel; 1 means all nbytes of it. */
  method Writen(sd: Channel, ptr: array<Byte>, nbytes: int) returns (result: int)
    requires sd.Valid() && nbytes <= ptr.Length
    modifies sd
    ensures sd.Valid() && sd.pos == old(sd.pos) && old(sd.calls) <= sd.calls
    ensures var put := |sd.stream| - |old(sd.stream)|;
            && 0 <= put <= Positive(nbytes) && sd.stream == old(sd.stream) + ptr[..put]
            && result == if put == Positive(nbytes) then 1 else 0
    ensures sd.NoFailure(old(sd.calls)) ==> result == 1
  {
    var nleft := nbytes;
    var at := 0;
    while nleft > 0
      invariant nleft == nbytes - at && at <= Positive(nbytes)
      invariant sd.Valid() && sd.pos == old(sd.pos) && old(sd.calls) <= sd.calls
      invariant sd.stream == old(sd.stream) + ptr[..at]
      decreases nleft
    {
      ghost var call := sd.calls;
      var nwritten := sd.Write(ptr, at, nleft);
      if nwritten <= 0 {
        assert sd.chunk(call) <= 0;
        return 0;
      }
      assert ptr[..at] + ptr[at..at + nwritten] == ptr[..at + nwritten];
      nleft := nleft - nwritten;
      at := at + nwritten;
    }
    return 1;
  }

  // ----- sequences of messages -----

  function Flatten(messages: seq<seq<Byte>>): seq<Byte> {
    if messages == [] then [] else messages[0] + Flatten(messages[1..])
  }

  lemma {:induction false} FlattenAppend(messages: seq<seq<Byte>>, last: seq<Byte>)
    ensures Flatten(messages + [last]) == Flatten(messages) + last
  {
    if messages == [] {
      assert [last][1..] == [];
    } else {
      FlattenAppend(messages[1..], last);
      assert (messages + [last])[1..] == messages[1..] + [last];
    }
  }

  lemma {:induction false} FlattenPrefix(messages: seq<seq<Byte>>, k: nat)
    requires k <= |messages|
    ensures Flatten(messages[..k]) <= Flatten(messages)
  {
    if k > 0 {
      FlattenPrefix(messages[1..], k - 1);
      assert messages[..k][1..] == messages[1..][..k - 1];
    }
  }

  /** Where the boundaries are the same, equal bytes mean equal messages. */
  lemma {:induction false} Unframe(got: seq<seq<Byte>>, messages: seq<seq<Byte>>)
    requires |got| <= |messages| && Flatten(got) <= Flatten(messages)
    requires forall i | 0 <= i < |got| :: |got[i]| == |messages[i]|
    ensures got <= messages
  {
    if got != [] {
      var a, b := Flatten(got[1..]), Flatten(messages[1..]);
      assert Flatten(got) == got[0] + a && Flatten(messages) == messages[0] + b;
      assert got[0] == Flatten(got)[..|got[0]|] == Flatten(messages)[..|got[0]|] == messages[0];
      assert a == Flatten(got)[|got[0]|..] && b == Flatten(messages)[|got[0]|..];
      Unframe(got[1..], messages[1..]);
      assert got == [got[0]] + got[1..] && messages == [messages[0]] + messages[1..];
    }
  }

  /** Sends the messages one after the other, up to the first failure. */
  method SendAll(sd: Channel, messages: seq<seq<Byte>>) returns (result: int)
    requires sd.Valid()
    modifies sd
    ensures sd.Valid() && sd.pos == old(sd.pos) && old(sd.calls) <= sd.calls
    ensures old(sd.stream) <= sd.stream <= old(sd.stream) + Flatten(messages)
    ensures result == 1 ==> sd.stream == old(sd.stream) + Flatten(messages)
    ensures sd.NoFailure(old(sd.calls)) ==> result == 1
  {
    var i := 0;
    while i < |messages|
      invariant 0 <= i <= |messages| && sd.Valid() && sd.pos == old(sd.pos) && old(sd.calls) <= sd.calls
      invariant sd.stream == old(sd.stream) + Flatten(messages[..i])
    {
      var message := messages[i];
      var buff := new Byte[|message|](x requires 0 <= x < |message| => message[x]);
      assert buff[..] == message;
      ghost var before := sd.stream;
      result := Writen(sd, buff, buff.Length);
      assert messages[..i + 1] == messages[..i] + [message];
      FlattenAppend(messages[..i], message);
      FlattenPrefix(messages, i + 1);
      if result == 0 {
        return;
      }
      i := i + 1;
    }
    assert messages[..i] == messages;
    result := 1;
  }

  /** Receives messages of the given sizes, up to the first failure. */
  method ReceiveAll(sd: Channel, counts: seq<nat>) returns (result: int, got: seq<seq<Byte>>)
    requires sd.Valid()
    modifies sd
    ensures sd.Valid() && sd.stream == old(sd.stream) && old(sd.calls) <= sd.calls
    ensures |got| <= |counts| && forall i | 0 <= i < |got| :: |got[i]| == counts[i]
    ensures Flatten(got) <= sd.stream[old(sd.pos)..]
    ensures result == if |got| == |counts| then 1 else 0
    ensures sd.NoFailure(old(sd.calls)) && |got| < |counts| ==>
              |sd.stream| - old(sd.pos) < |Flatten(got)| + counts[|got|]
  {
    got := [];
    while |got| < |counts|
      invariant |got| <= |counts| && forall i | 0 <= i < |got| :: |got[i]| == counts[i]
      invariant sd.Valid() && sd.stream == old(sd.stream) && old(sd.calls) <= sd.calls
      invariant sd.pos == old(sd.pos) + |Flatten(got)| && Flatten(got) == sd.stream[old(sd.pos)..sd.pos]
    {
      var buff := new Byte[counts[|got|]](x => 0);
      ghost var from, call := sd.pos, sd.calls;
      result := Readn(sd, buff, buff.Length);
      if result == 0 {
        assert sd.NoFailure(old(sd.calls)) ==> sd.NoFailure(call);
        return;
      }
      FlattenAppend(got, buff[..]);
      assert sd.stream[old(sd.pos)..from] + sd.stream[from..sd.pos] == sd.stream[old(sd.pos)..sd.pos];
      got := got + [buff[..]];
    }
    result := 1;
  }

  function Sizes(messages: seq<seq<Byte>>): seq<nat> {
    seq(|messages|, i requires 0 <= i < |messages| => |messages[i]|)
  }

  /** Whatever the chunks and failures, the receiver that uses the sender's counts
      gets a prefix of the messages, byte for byte; all of them if no system call fails. */
  method RoundTrip(messages: seq<seq<Byte>>, chunk: nat -> int) returns (sent: int, received: int, got: seq<seq<Byte>>)
    ensures got <= messages
    ensures received == 1 ==> got == messages
    ensures (forall t :: chunk(t) > 0) ==> sent == 1 && received == 1
  {
    var sd := new Channel(chunk);
    sent := SendAll(sd, messages);
    received, got := ReceiveAll(sd, Sizes(messages));
    assert sd.stream[0..] == sd.stream;
    Unframe(got, messages);
    if |got| < |messages| {
      FlattenPrefix(messages, |got| + 1);
      assert messages[..|got| + 1] == got + [messages[|got|]];
      FlattenAppend(got, messages[|got|]);
    }
  }
}
