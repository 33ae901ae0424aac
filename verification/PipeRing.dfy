/** The ring buffer of a pipe (user/lib/pipe.c): one reader and one writer that interleave at every test
    and every byte. */
module PipeRing {
  const BY2PIPE := 32
  const U32 := 0x1_0000_0000

  /** struct Pipe; the positions are u_int. */
  datatype Ring = Ring(rpos: nat, wpos: nat, buf: seq<nat>)

  predicate Empty(p: Ring) {
    p.rpos >= p.wpos
  }

  predicate Full(p: Ring) {
    (p.wpos - p.rpos) % U32 >= BY2PIPE
  }

  function Head(p: Ring): nat {
    if |p.buf| == BY2PIPE then p.buf[p.rpos % BY2PIPE] else 0
  }

  function Taken(p: Ring): Ring {
    p.(rpos := (p.rpos + 1) % U32)
  }

  function Added(p: Ring, b: nat): Ring {
    if |p.buf| == BY2PIPE then p.(buf := p.buf[p.wpos % BY2PIPE := b], wpos := (p.wpos + 1) % U32) else p
  }

  /** The ring holds exactly the bytes written and not yet read, at most 32 of them. */
  ghost predicate Holds(p: Ring, written: seq<nat>, read: seq<nat>) {
    && |p.buf| == BY2PIPE
    && |read| <= |written| <= |read| + BY2PIPE && read == written[..|read|]
    && p.rpos == |read| % U32 && p.wpos == |written| % U32
    && forall i: nat :: CellOk(p, written, |read|, i)
  }

  predicate CellOk(p: Ring, written: seq<nat>, from: nat, i: nat) {
    from <= i < |written| && |p.buf| == BY2PIPE ==> p.buf[i % BY2PIPE] == written[i]
  }

  lemma WrapMod(n: nat)
    ensures n % U32 % BY2PIPE == n % BY2PIPE
    ensures (n % U32 + 1) % U32 == (n + 1) % U32
  {
    assert n == 32 * (0x800_0000 * (n / U32)) + n % U32;
  }

  /** The full test survives the wrap of the positions. */
  lemma FullExact(p: Ring, written: seq<nat>, read: seq<nat>)
    requires Holds(p, written, read)
    ensures Full(p) <==> |written| == |read| + BY2PIPE
  {
    var d := |written| - |read|;
    assert (p.wpos - p.rpos) % U32 == d % U32 by {
      assert p.wpos - p.rpos == d - U32 * (|written| / U32 - |read| / U32);
    }
  }

  /** The empty test does not: it is right exactly when both positions have wrapped equally often. */
  lemma EmptyExact(p: Ring, written: seq<nat>, read: seq<nat>)
    requires Holds(p, written, read)
    ensures (Empty(p) <==> read == written) <==> |written| / U32 == |read| / U32
  {
    if |written| / U32 != |read| / U32 {
      assert |written| / U32 == |read| / U32 + 1;
      assert p.wpos < BY2PIPE <= p.rpos;
    }
  }

  lemma TakeHolds(p: Ring, written: seq<nat>, read: seq<nat>)
    requires Holds(p, written, read) && |read| < |written|
    ensures Head(p) == written[|read|]
    ensures Holds(Taken(p), written, read + [Head(p)])
  {
    WrapMod(|read|);
    assert CellOk(p, written, |read|, |read|);
    var n := |read| + 1;
    assert written[..n] == read + [written[|read|]];
    forall i: nat ensures CellOk(Taken(p), written, n, i) {
      assert CellOk(p, written, |read|, i);
    }
  }

  lemma AddHolds(p: Ring, written: seq<nat>, read: seq<nat>, b: nat)
    requires Holds(p, written, read) && |written| < |read| + BY2PIPE
    ensures Holds(Added(p, b), written + [b], read)
  {
    var n := |written|;
    WrapMod(n);
    assert (written + [b])[..|read|] == written[..|read|];
    forall i: nat ensures CellOk(Added(p, b), written + [b], |read|, i) {
      assert CellOk(p, written, |read|, i);
      if |read| <= i < n { assert i % BY2PIPE != n % BY2PIPE; }
    }
  }

  // ----- the reader and the writer, interleaved

  datatype RPc = RIdle | RTest(n: nat, got: nat) | RCopy(n: nat, got: nat) | RAsk(n: nat, seen: nat)
  datatype WPc = WIdle | WTest(src: seq<nat>, put: nat) | WCopy(src: seq<nat>, put: nat) | WAsk(src: seq<nat>, put: nat)

  /** `seen` in RAsk records how much had been written when the reader found the ring empty; rOpen and wOpen
      say that the end is still mapped somewhere. */
  datatype State = State(p: Ring, r: RPc, w: WPc, written: seq<nat>, read: seq<nat>, rOpen: bool, wOpen: bool)

  datatype Op =
    | StartRead(n: nat) | StartWrite(src: seq<nat>)
    | ReaderStep | WriterStep
    | ReaderAnswer(closed: bool) | WriterAnswer(closed: bool)   // what _pipe_is_closed returned
    | CloseReader | CloseWriter                                 // close, or exit in the middle of a call

  /** Only an open end is used, and _pipe_is_closed answers 1 only when the other end is closed, which is
      what Pipe.NoFalseClose proves of it.  It may answer 0 while the close is in flight. */
  predicate Enabled(s: State, op: Op) {
    match op
    case StartRead(n) => s.rOpen && s.r.RIdle?
    case StartWrite(src) => s.wOpen && s.w.WIdle?
    case ReaderStep => s.r.RTest? || s.r.RCopy?
    case WriterStep => s.w.WTest? || s.w.WCopy?
    case ReaderAnswer(closed) => s.r.RAsk? && (closed ==> !s.wOpen)
    case WriterAnswer(closed) => s.w.WAsk? && (closed ==> !s.rOpen)
    case CloseReader => s.rOpen
    case CloseWriter => s.wOpen
  }

  function Step(s: State, op: Op): State {
    match op
    case StartRead(n) => s.(r := RTest(n, 0))
    case StartWrite(src) => s.(w := WTest(src, 0))
    case ReaderStep =>
      (match s.r
       case RTest(n, got) =>
         if !Empty(s.p) && got < n then s.(r := RCopy(n, got))
         else if got > 0 then s.(r := RIdle) else s.(r := RAsk(n, |s.written|))
       case RCopy(n, got) => s.(p := Taken(s.p), read := s.read + [Head(s.p)], r := RTest(n, got + 1))
       case _ => s)
    case WriterStep =>
      (match s.w
       case WTest(src, put) =>
         if !Full(s.p) && put < |src| then s.(w := WCopy(src, put))
         else if put == |src| then s.(w := WIdle) else s.(w := WAsk(src, put))
       case WCopy(src, put) =>
         if put < |src| then
           s.(p := Added(s.p, src[put]), written := s.written + [src[put]], w := WTest(src, put + 1))
         else s
       case _ => s)
    case ReaderAnswer(closed) => if s.r.RAsk? then s.(r := if closed then RIdle else RTest(s.r.n, 0)) else s
    case WriterAnswer(closed) => if s.w.WAsk? then s.(w := if closed then WIdle else WTest(s.w.src, s.w.put)) else s
    case CloseReader => s.(r := RIdle, rOpen := false)
    case CloseWriter => s.(w := WIdle, wOpen := false)
  }

  /** Fewer than 2^32 bytes have been written, so no position has wrapped. */
  predicate Short(s: State) {
    |s.written| < U32
  }

  ghost predicate Inv(s: State) {
    && Holds(s.p, s.written, s.read)
    && (s.r.RCopy? ==> s.r.got < s.r.n && |s.read| < |s.written|)
    && (s.r.RAsk? ==> s.r.n == 0 || s.r.seen == |s.read|)
    && (s.w.WTest? || s.w.WAsk? ==> s.w.put <= |s.w.src|)
    && (s.w.WCopy? ==> s.w.put < |s.w.src| && |s.written| < |s.read| + BY2PIPE)
    && (!s.wOpen ==> s.w.WIdle?) && (!s.rOpen ==> s.r.RIdle?)
  }

  lemma StepInv(s: State, op: Op)
    requires Inv(s) && Short(s) && Enabled(s, op)
    ensures Inv(Step(s, op))
    ensures s.written <= Step(s, op).written && s.read <= Step(s, op).read
  {
    EmptyExact(s.p, s.written, s.read);
    FullExact(s.p, s.written, s.read);
    if op.ReaderStep? && s.r.RCopy? { TakeHolds(s.p, s.written, s.read); }
    if op.WriterStep? && s.w.WCopy? { AddHolds(s.p, s.written, s.read, s.w.src[s.w.put]); }
  }

  function Run(s: State, ops: seq<Op>): State
    decreases |ops|
  {
    if ops == [] then s else Run(Step(s, ops[0]), ops[1..])
  }

  /** Every step is enabled and none starts after 2^32 bytes. */
  predicate ShortRun(s: State, ops: seq<Op>)
    decreases |ops|
  {
    ops == [] || (Short(s) && Enabled(s, ops[0]) && ShortRun(Step(s, ops[0]), ops[1..]))
  }

  lemma {:induction false} RunInv(s: State, ops: seq<Op>)
    requires Inv(s) && ShortRun(s, ops)
    ensures Inv(Run(s, ops))
    decreases |ops|
  {
    if ops != [] {
      StepInv(s, ops[0]);
      RunInv(Step(s, ops[0]), ops[1..]);
    }
  }

  function Start(): State {
    State(Ring(0, 0, seq(BY2PIPE, _ => 0)), RIdle, WIdle, [], [], true, true)
  }

  lemma StartInv()
    ensures Inv(Start())
  {
    assert Holds(Start().p, [], []);
  }

  /** First in, first out: whatever the interleaving, the bytes read are a prefix of the bytes written,
      and the ring holds exactly the rest. */
  lemma PipeFifo(ops: seq<Op>)
    requires ShortRun(Start(), ops) && Short(Run(Start(), ops))
    ensures var s := Run(Start(), ops);
      s.read <= s.written && |s.written| - |s.read| <= BY2PIPE && s.p.wpos - s.p.rpos == |s.written| - |s.read|
      && forall i :: |s.read| <= i < |s.written| ==> |s.p.buf| == BY2PIPE && s.p.buf[i % BY2PIPE] == s.written[i]
  {
    StartInv();
    RunInv(Start(), ops);
    var s := Run(Start(), ops);
    forall i | |s.read| <= i < |s.written| ensures s.p.buf[i % BY2PIPE] == s.written[i] {
      assert CellOk(s.p, s.written, |s.read|, i);
    }
  }

  // ----- what a return value of 0 means

  /** The steps of one call of pipe_read, which has not returned yet, with any steps of the writer. */
  predicate CallRun(s: State, ops: seq<Op>)
    decreases |ops|
  {
    !s.r.RIdle? && (ops == [] || (Short(s) && Enabled(s, ops[0]) && CallRun(Step(s, ops[0]), ops[1..])))
  }

  /** The call is about to return 0: it found the ring empty, and the pipe is closed. */
  predicate ReturnsZero(s: State) {
    s.r.RAsk? && s.r.n > 0 && !s.wOpen
  }

  /** However this call of pipe_read runs, if it returns 0 then everything written has been read. */
  ghost predicate ZeroMeansDrained(s: State, n: nat) {
    forall ops: seq<Op> :: DrainedAfter(Step(s, StartRead(n)), ops)
  }

  predicate DrainedAfter(s: State, ops: seq<Op>) {
    CallRun(s, ops) && ReturnsZero(Run(s, ops)) ==> Run(s, ops).read == Run(s, ops).written
  }

  /** A result of 0 from pipe_read means end of file exactly when the caller had seen the pipe closed before
      the call (or there was data, and then 0 is not returned): the empty test and the closed test are two
      steps, and a writer that is still there can write and close in between. */
  lemma ZeroReturnExact(s: State, n: nat)
    requires Inv(s) && s.rOpen && s.r.RIdle? && n > 0 && |s.written| + 1 < U32
    ensures ZeroMeansDrained(s, n) <==> !s.wOpen || s.read != s.written
  {
    var s1 := Step(s, StartRead(n));
    StepInv(s, StartRead(n));
    if !s.wOpen || s.read != s.written {
      forall ops: seq<Op> ensures DrainedAfter(s1, ops) {
        if CallRun(s1, ops) { SafeRun(s1, ops); }
      }
    } else {
      Overtaken(s, n);
    }
  }

  /** What makes a call safe: the writer is gone and an empty ring stays empty, or a byte is there or was got. */
  predicate Safe(s: State) {
    || (!s.wOpen && (s.r.RAsk? ==> s.r.seen == |s.written|))
    || (s.r.RTest? && (s.r.got > 0 || |s.read| < |s.written|)) || s.r.RCopy?
  }

  lemma {:induction false} SafeRun(s: State, ops: seq<Op>)
    requires Inv(s) && CallRun(s, ops) && Safe(s) && (!s.r.RIdle? ==> s.r.n > 0)
    ensures DrainedAfter(s, ops)
    decreases |ops|
  {
    if ops == [] {
      assert s.r.RAsk? ==> s.read == s.written[..|s.read|];
    } else {
      EmptyExact(s.p, s.written, s.read);
      StepInv(s, ops[0]);
      SafeRun(Step(s, ops[0]), ops[1..]);
    }
  }

  // Steps of one call, put together.

  ghost predicate CallReach(s: State, t: State) {
    exists ops: seq<Op> :: CallEnds(s, ops, t)
  }

  predicate CallEnds(s: State, ops: seq<Op>, t: State) {
    CallRun(s, ops) && Run(s, ops) == t
  }

  lemma CallStep(s: State, op: Op, t: State)
    requires !s.r.RIdle? && Short(s) && Enabled(s, op) && CallReach(Step(s, op), t)
    ensures CallReach(s, t)
  {
    var ops: seq<Op> :| CallEnds(Step(s, op), ops, t);
    assert ([op] + ops)[1..] == ops;
    assert CallEnds(s, [op] + ops, t);
  }

  lemma CallNow(s: State)
    requires !s.r.RIdle?
    ensures CallReach(s, s)
  {
    assert CallEnds(s, [], s);
  }

  /** The writer is still there and the ring is empty: the call can be overtaken. */
  lemma Overtaken(s: State, n: nat)
    requires Inv(s) && s.rOpen && s.r.RIdle? && n > 0 && |s.written| + 1 < U32 && s.wOpen && s.read == s.written
    ensures !ZeroMeansDrained(s, n)
  {
    var s1 := Step(s, StartRead(n));
    var s2 := Step(s1, ReaderStep);
    EmptyExact(s.p, s.written, s.read);
    StepInv(s, StartRead(n));
    StepInv(s1, ReaderStep);
    var t := WriteAndClose(s2);
    CallStep(s1, ReaderStep, t);
    var ops: seq<Op> :| CallEnds(s1, ops, t);
    assert !DrainedAfter(s1, ops);
  }

  /** What the writer does next towards one more byte, and how far it is from it. */
  function Next(w: WPc): Op {
    match w
    case WIdle => StartWrite([0])
    case WAsk(src, put) => WriterAnswer(false)
    case _ => WriterStep
  }

  function Distance(w: WPc): nat {
    match w
    case WCopy(src, put) => 0
    case WTest(src, put) => if put < |src| then 1 else 3
    case WIdle => 2
    case WAsk(src, put) => 4
  }

  /** While the reader is between its tests the writer can add a byte, from wherever it is, and then close. */
  lemma {:induction false} WriteAndClose(s: State) returns (t: State)
    requires Inv(s) && s.r.RAsk? && s.r.n > 0 && s.wOpen && s.read == s.written && |s.written| + 1 < U32
    ensures CallReach(s, t) && ReturnsZero(t) && t.read != t.written
    decreases Distance(s.w)
  {
    FullExact(s.p, s.written, s.read);
    var op := Next(s.w);
    var s1 := Step(s, op);
    StepInv(s, op);
    if s.w.WCopy? {
      t := Step(s1, CloseWriter);
      CallNow(t);
      CallStep(s1, CloseWriter, t);
    } else {
      t := WriteAndClose(s1);
    }
    CallStep(s, op, t);
  }

  /** The bytes the writer adds in a run. */
  function Bytes(s: State, ops: seq<Op>): nat
    decreases |ops|
  {
    if ops == [] then 0
    else (if ops[0].WriterStep? && s.w.WCopy? then 1 else 0) + Bytes(Step(s, ops[0]), ops[1..])
  }

  /** Steps that leave the reader between its empty test and its closed test. */
  predicate Between(s: State, ops: seq<Op>)
    decreases |ops|
  {
    s.r.RAsk? && (ops == [] || (Short(s) && Enabled(s, ops[0]) && !ops[0].ReaderAnswer? && Between(Step(s, ops[0]), ops[1..])))
  }

  /** And a call that returns 0 left data behind exactly when the writer added a byte between the two tests. */
  lemma {:induction false} BetweenExact(s: State, ops: seq<Op>)
    requires Inv(s) && s.r.RAsk? && s.r.n > 0 && Between(s, ops)
    ensures var t := Run(s, ops); |t.written| == |s.written| + Bytes(s, ops) && t.read == s.read && Inv(t)
    ensures s.read == s.written ==> (Run(s, ops).read == Run(s, ops).written <==> Bytes(s, ops) == 0)
    decreases |ops|
  {
    if ops != [] {
      StepInv(s, ops[0]);
      BetweenExact(Step(s, ops[0]), ops[1..]);
    }
    assert Run(s, ops).read == Run(s, ops).written[..|s.read|];
  }

  // ----- what a call has done when it returns

  /** The steps from inside one call of pipe_write to its end, with any steps of the reader. */
  predicate WriteCall(s: State, ops: seq<Op>)
    decreases |ops|
  {
    && !s.w.WIdle? && ops != [] && Short(s) && Enabled(s, ops[0])
    && var s1 := Step(s, ops[0]);
       if s1.w.WIdle? then |ops| == 1 else WriteCall(s1, ops[1..])
  }

  predicate ReadCall(s: State, ops: seq<Op>)
    decreases |ops|
  {
    && !s.r.RIdle? && ops != [] && Short(s) && Enabled(s, ops[0])
    && var s1 := Step(s, ops[0]);
       if s1.r.RIdle? then |ops| == 1 else ReadCall(s1, ops[1..])
  }

  /** The writer has put the first bytes of src behind what was written before. */
  predicate Putting(s: State, before: seq<nat>, src: seq<nat>) {
    !s.w.WIdle? && s.w.src == src && s.w.put <= |src| && s.written == before + src[..s.w.put]
  }

  /** The reader has got that many bytes since the call began. */
  predicate Getting(s: State, before: nat, n: nat) {
    !s.r.RIdle? && s.r.n == n && |s.read| == before + (if s.r.RAsk? then 0 else s.r.got) <= before + n
  }

  /** What the whole call has written when it ends with ops. */
  predicate WriteDone(t: State, before: seq<nat>, src: seq<nat>, last: Op) {
    && before <= t.written <= before + src
    && (last == CloseWriter || t.written == before + src || !t.rOpen)
  }

  predicate ReadDone(t: State, before: nat, n: nat, last: Op) {
    && before <= |t.read| <= before + n
    && (last == CloseReader || before < |t.read| || !t.wOpen)
  }

  lemma PuttingStep(s: State, before: seq<nat>, src: seq<nat>, op: Op)
    requires Inv(s) && Short(s) && Enabled(s, op) && Putting(s, before, src)
    ensures var s1 := Step(s, op); if s1.w.WIdle? then WriteDone(s1, before, src, op) else Putting(s1, before, src)
  {
    var put := s.w.put;
    assert before + src == (before + src[..put]) + src[put..] by { assert src == src[..put] + src[put..]; }
    if op.WriterStep? && s.w.WCopy? {
      assert src[..put + 1] == src[..put] + [src[put]];
      assert (before + src[..put]) + [src[put]] == before + src[..put + 1];
    }
    assert src[..|src|] == src;
  }

  lemma {:induction false} PuttingEnds(s: State, before: seq<nat>, src: seq<nat>, ops: seq<Op>)
    requires Inv(s) && Putting(s, before, src) && WriteCall(s, ops)
    ensures WriteDone(Run(s, ops), before, src, ops[|ops| - 1])
    decreases |ops|
  {
    var s1 := Step(s, ops[0]);
    StepInv(s, ops[0]);
    PuttingStep(s, before, src, ops[0]);
    if s1.w.WIdle? {
      assert Run(s, ops) == s1;
    } else {
      PuttingEnds(s1, before, src, ops[1..]);
    }
  }

  lemma {:induction false} GettingEnds(s: State, before: nat, n: nat, ops: seq<Op>)
    requires Inv(s) && Getting(s, before, n) && ReadCall(s, ops)
    ensures ReadDone(Run(s, ops), before, n, ops[|ops| - 1])
    decreases |ops|
  {
    var s1 := Step(s, ops[0]);
    StepInv(s, ops[0]);
    if s1.r.RIdle? {
      assert Run(s, ops) == s1;
    } else {
      GettingEnds(s1, before, n, ops[1..]);
    }
  }

  /** pipe_write returns only when every byte is in the pipe or the read end is closed. */
  lemma WriteReturns(s: State, src: seq<nat>, ops: seq<Op>)
    requires Inv(s) && s.wOpen && s.w.WIdle? && WriteCall(Step(s, StartWrite(src)), ops)
    ensures var t, last := Run(Step(s, StartWrite(src)), ops), ops[|ops| - 1];
      && s.written <= t.written <= s.written + src
      && (last == CloseWriter || t.written == s.written + src || !t.rOpen)
  {
    PuttingEnds(Step(s, StartWrite(src)), s.written, src, ops);
  }

  /** pipe_read returns with 1 to n bytes, or with none when the write end is closed. */
  lemma ReadReturns(s: State, n: nat, ops: seq<Op>)
    requires Inv(s) && s.rOpen && s.r.RIdle? && ReadCall(Step(s, StartRead(n)), ops)
    ensures var t, last := Run(Step(s, StartRead(n)), ops), ops[|ops| - 1];
      && |s.read| <= |t.read| <= |s.read| + n
      && (last == CloseReader || |s.read| < |t.read| || !t.wOpen)
  {
    GettingEnds(Step(s, StartRead(n)), |s.read|, n, ops);
  }

  // ----- the wrap of the positions

  ghost predicate Reach(s: State, t: State) {
    exists ops: seq<Op> :: Ends(s, ops, t)
  }

  predicate Ends(s: State, ops: seq<Op>, t: State) {
    ShortRun(s, ops) && Run(s, ops) == t
  }

  lemma ReachStep(s: State, op: Op, t: State)
    requires Short(s) && Enabled(s, op) && Reach(Step(s, op), t)
    ensures Reach(s, t)
  {
    var ops: seq<Op> :| Ends(Step(s, op), ops, t);
    assert ([op] + ops)[1..] == ops;
    assert Ends(s, [op] + ops, t);
  }

  /** The steps by which one byte is written, and those by which it is then read. */
  function Cycle(i: nat): Op {
    match i
    case 0 => StartWrite([0])
    case 4 => StartRead(1)
    case 1 => WriterStep
    case 2 => WriterStep
    case 3 => WriterStep
    case _ => ReaderStep
  }

  /** Step number i of the cycle that passes byte number k. */
  ghost predicate Phase(s: State, k: nat, i: nat) {
    && Inv(s) && s.rOpen && s.wOpen
    && |s.written| == (if i < 3 then k else k + 1) && |s.read| == (if i < 7 then k else k + 1)
    && s.w == (if i == 1 then WTest([0], 0) else if i == 2 then WCopy([0], 0) else if i == 3 then WTest([0], 1) else WIdle)
    && s.r == (if i == 5 then RTest(1, 0) else if i == 6 then RCopy(1, 0) else if i == 7 then RTest(1, 1) else RIdle)
  }

  lemma PhaseStep(s: State, k: nat, i: nat)
    requires Phase(s, k, i) && i < 8 && |s.written| < U32
    ensures Enabled(s, Cycle(i))
    ensures var s' := Step(s, Cycle(i)); if i < 7 then Phase(s', k, i + 1) else Phase(s', k + 1, 0)
  {
    StepInv(s, Cycle(i));
    EmptyExact(s.p, s.written, s.read);
    FullExact(s.p, s.written, s.read);
  }

  /** The last byte before the wrap has been written and is waiting. */
  ghost predicate Wrapped(s: State) {
    Holds(s.p, s.written, s.read) && |s.written| == U32 && |s.read| == U32 - 1
  }

  lemma {:induction false} WrapReach(s: State, k: nat, i: nat)
    requires Phase(s, k, i) && i < 8 && k < U32 && (k == U32 - 1 ==> i < 3)
    ensures exists t: State :: Reach(s, t) && Wrapped(t)
    decreases U32 - k, 8 - i
  {
    var s1 := Step(s, Cycle(i));
    PhaseStep(s, k, i);
    if k == U32 - 1 && i == 2 {
      assert Ends(s1, [], s1);
      ReachStep(s, Cycle(i), s1);
    } else {
      WrapReach(s1, if i < 7 then k else k + 1, if i < 7 then i + 1 else 0);
      var t: State :| Reach(s1, t) && Wrapped(t);
      ReachStep(s, Cycle(i), t);
    }
  }

  /** After 2^32 bytes p_wpos is 0 again: a byte is waiting, and the reader's test finds the ring empty. */
  lemma EmptyWrapReached()
    ensures exists t: State :: Reach(Start(), t) && t.read != t.written && Empty(t.p)
  {
    StartInv();
    WrapReach(Start(), 0, 0);
    var t: State :| Reach(Start(), t) && Wrapped(t);
    assert t.p.wpos == 0;
  }

  // ----- the copy loops in place

  class Pipe {
    var rpos: nat
    var wpos: nat
    const buf: array<nat>
    ghost var written: seq<nat>
    ghost var read: seq<nat>

    constructor ()
      ensures Good() && written == [] && read == [] && fresh(buf)
    {
      rpos, wpos := 0, 0;
      buf := new nat[BY2PIPE](_ => 0);
      written, read := [], [];
    }

    ghost function P(): Ring
      reads this, buf
    {
      Ring(rpos, wpos, buf[..])
    }

    ghost predicate Good()
      reads this, buf
    {
      Holds(P(), written, read) && |written| < U32
    }

    /** The inner loop of pipe_read: the bytes it hands over are the oldest ones in the ring, and it
        stops only when it has n of them or the ring is empty. */
    method ReadAvailable(vbuf: array<nat>, n: nat) returns (nbytes: nat)
      requires Good() && n <= vbuf.Length && vbuf != buf
      modifies this`rpos, this`read, vbuf
      ensures Good() && written == old(written) && nbytes <= n
      ensures read == old(read) + vbuf[..nbytes]
      ensures nbytes == n || read == written
    {
      nbytes := 0;
      EmptyExact(P(), written, read);
      while rpos < wpos && nbytes < n
        invariant Good() && nbytes <= n
        invariant read == old(read) + vbuf[..nbytes]
        invariant rpos < wpos || read == written
        decreases n - nbytes
      {
        TakeHolds(P(), written, read);
        vbuf[nbytes] := buf[rpos % BY2PIPE];
        rpos := (rpos + 1) % U32;
        nbytes := nbytes + 1;
        read := read + [vbuf[nbytes - 1]];
        EmptyExact(P(), written, read);
      }
    }

    /** The inner loop of pipe_write: what it adds is a prefix of the source, and it stops only when it
        has added all of it or the ring is full. */
    method WriteAvailable(vbuf: array<nat>, n: nat) returns (nbytes: nat)
      requires Good() && n <= vbuf.Length && vbuf != buf && |written| + n < U32
      modifies this`wpos, this`written, buf
      ensures Good() && read == old(read) && nbytes <= n
      ensures written == old(written) + old(vbuf[..n])[..nbytes]
      ensures nbytes == n || |written| == |read| + BY2PIPE
    {
      nbytes := 0;
      FullExact(P(), written, read);
      while (wpos - rpos) % U32 < BY2PIPE && nbytes < n
        invariant Good() && nbytes <= n && vbuf[..] == old(vbuf[..])
        invariant written == old(written) + vbuf[..nbytes]
        invariant Full(P()) <==> |written| == |read| + BY2PIPE
        decreases n - nbytes
      {
        AddHolds(P(), written, read, vbuf[nbytes]);
        buf[wpos % BY2PIPE] := vbuf[nbytes];
        wpos := (wpos + 1) % U32;
        written := written + [vbuf[nbytes]];
        nbytes := nbytes + 1;
        FullExact(P(), written, read);
      }
    }
  }
}
