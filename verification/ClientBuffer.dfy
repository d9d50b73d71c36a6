/** What a READ or GET leaves in the caller's buffer: the client copies the data it
    received over the old contents with strncpy, and the caller applies atoi. */
module ClientBuffer {
  import opened TupleSpace
  import opened Keys
  import opened Products
  import opened Tiling
  import opened MatrixProtocol
  import opened ProtocolBase
  import opened ProtocolTheorems
  import opened WorkerLoops

  // ----- strncpy -----

  /** The number of characters before the first NUL. */
  function StrLen(s: string): (r: nat)
    ensures r <= |s| && (forall i | 0 <= i < r :: s[i] != '\0') && (r < |s| ==> s[r] == '\0')
  {
    if s == [] || s[0] == '\0' then 0 else 1 + StrLen(s[1..])
  }

  function Nuls(m: nat): (r: string)
    ensures |r| == m && forall i | 0 <= i < m :: r[i] == '\0'
  {
    if m == 0 then [] else Nuls(m - 1) + "\0"
  }

  /** strncpy(dst, src, |src|): src up to its first NUL, then NULs up to its length;
      what dst holds further on stays. */
  function Strncpy(dst: string, src: string): (r: string)
    requires |src| <= |dst|
    ensures |r| == |dst|
  {
    src[..StrLen(src)] + Nuls(|src| - StrLen(src)) + dst[|src|..]
  }

  lemma FormatHasNoNul(v: int)
    ensures forall i | 0 <= i < |Format(v)| :: Format(v)[i] != '\0'
  {
    var digits := Dec(if v < 0 then -v else v);
    assert forall i | 0 <= i < |digits| :: IsDigit(digits[i]);
  }

  /** A numeral with its NUL ends the string in the buffer, whatever was there, and
      atoi reads from the buffer what it would read from the reply. */
  lemma CopyValue(buffer: string, v: int)
    requires |Format(v)| < |buffer|
    ensures BufferHolds(Strncpy(buffer, Format(v) + "\0"), v)
    ensures Atoi(Strncpy(buffer, Format(v) + "\0")) == v == Atoi(Format(v) + "\0")
  {
    var data, junk := Format(v) + "\0", buffer[|Format(v)| + 1..];
    FormatHasNoNul(v);
    assert forall i | 0 <= i < |Format(v)| :: data[i] == Format(v)[i];
    assert data[|Format(v)|] == '\0';
    assert StrLen(data) == |Format(v)|;
    assert Nuls(1) == Nuls(0) + "\0";
    assert Strncpy(buffer, data) == data + junk;
    AtoiFormat(v, junk);
    AtoiFormat(v, "");
    assert data + "" == data;
  }

  /** Without its NUL a numeral can come back as another one: "1" copied over "10". */
  lemma WithoutNul()
    ensures Atoi(Strncpy(Format(10) + "\0", Format(1))) == 10
  {
    var buffer := Format(10) + "\0";
    assert Format(10) == Format(1) + "0" == "10";
    assert StrLen(Format(1)) == 1;
    assert Strncpy(buffer, Format(1)) == buffer + "";
    AtoiFormat(10, "");
  }

  // ----- the READs of a run -----

  /** The caller's buffer after the m-th READ of a client, for the name of `key`: the
      server is in the state after the m-th schedule, and the buffer was as given. */
  function RunRead(cfg: Config, schedule: nat -> seq<Action>, buffers: nat -> string): (nat, Key) -> string
    requires cfg.Valid()
  {
    (m: nat, key: Key) => AfterReply(buffers(m), GetReply(SEARCH, Run(cfg, INIT, schedule(m)).server, Name(key), 0, true, ALL_OK))
  }

  function AfterReply(buffer: string, reply: Reply): string {
    match reply
    case Present(_, _, data) => if |data| <= |buffer| then Strncpy(buffer, data) else data
    case _ => buffer
  }

  /** The buffers have room for every value that is read. */
  ghost predicate Roomy(cfg: Config, buffers: nat -> string) {
    forall m: nat, key: Key | InputKey(cfg, key) :: |Format(ValueOf(cfg.n, key))| < |buffers(m)|
  }

  /** Whenever A and B have been published, what a READ leaves in the buffer is the
      value of the cell: for every run, every interleaving of other processes
      between the READs and any earlier contents. */
  lemma RunAnswers(cfg: Config, schedule: nat -> seq<Action>, buffers: nat -> string)
    requires cfg.Valid() && Roomy(cfg, buffers)
    requires forall m: nat :: !Run(cfg, INIT, schedule(m)).phase.Publishing?
    ensures AnswersExact(cfg, RunRead(cfg, schedule, buffers))
  {
    forall m: nat, key: Key | InputKey(cfg, key)
      ensures BufferHolds(RunRead(cfg, schedule, buffers)(m, key), ValueOf(cfg.n, key))
    {
      ReadsAreExact(cfg, schedule(m), key);
      CopyValue(buffers(m), ValueOf(cfg.n, key));
    }
  }

  /** 32 characters are enough for matrices of 32-bit numbers. */
  lemma ValBufIsRoomy(cfg: Config, buffers: nat -> string)
    requires cfg.n < 0x4000_0000 && forall m: nat :: |buffers(m)| == VAL_BUF
    ensures Roomy(cfg, buffers)
  {
    forall m: nat, key: Key | InputKey(cfg, key)
      ensures |Format(ValueOf(cfg.n, key))| < |buffers(m)|
    {
      FitsBuffers(key, ValueOf(cfg.n, key));
    }
  }

  /** A worker of a run: its READs are answered by the server of the run, which may be
      in any later state at each of them, through buffers with any old contents.
      What it puts are its cells with their inner products and a NUL. */
  method WorkerOfRun(cfg: Config, w: nat, schedule: nat -> seq<Action>, buffers: nat -> string, late: nat -> bool)
    returns (puts: seq<PutMsg>, sent: seq<PutMsg>)
    requires cfg.Valid() && w < cfg.workers && Roomy(cfg, buffers)
    requires forall m: nat :: !Run(cfg, INIT, schedule(m)).phase.Publishing?
    ensures IsShare(cfg, cfg.G(), w, puts) && OnlyRepeats(sent, puts)
    ensures forall t: nat | t < |puts| ::
              var c := cfg.G().CellAt(w, t); puts[t] == PutMsg(Name(CKey(c)), Format(Product(cfg.n, c.i, c.j)) + "\0")
    ensures forall t: nat :: cfg.G().HasCell(w, t) <==> t < |puts|
  {
    RunAnswers(cfg, schedule, buffers);
    puts, sent := WorkerCompute(cfg, cfg.G(), w, RunRead(cfg, schedule, buffers), late);
  }
}
