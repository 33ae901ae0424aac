/** One pipe shared by many envs: which of them hold its ends, as close, dup, fork, exit and
    _pipe_is_closed interleave on one CPU (user/lib/pipe.c, user/lib/fd.c).

    Every descriptor slot of an env has an Fd page and a data page.  The machine below moves one system
    call, or one read of a counter, at a time, and a timer interrupt may fall between any two. */
module Pipe {
  datatype End = Reader | Writer
  type Slot = (nat, nat)              // an env and a descriptor number

  /** What an env is in the middle of. */
  datatype Pc =
    | Idle
    | CloseFd(i: nat)                 // pipe_close: unmap the Fd page, then the data page
    | CloseData(i: nat)
    | DupClose(o: nat, n: nat)        // dup: close n, then map the data page, then the Fd page
    | DupCloseData(o: nat, n: nat)
    | DupData(o: nat, n: nat)
    | DupFd(o: nat, n: nat)
    | UndoFd(n: nat)                  // dup failed: unmap the Fd page, then the data page
    | UndoData(n: nat)
    | AskRuns(i: nat)                 // _pipe_is_closed
    | AskFd(i: nat, runs: nat)
    | AskPipe(i: nat, runs: nat, fdRef: nat)
    | AskAgain(i: nat, runs: nat, fdRef: nat, pipeRef: nat)

  /** The Fd pages of the two ends and the pipe page, where they are mapped; env_runs; the running env. */
  datatype State = State(fd: map<Slot, End>, data: set<Slot>, pc: map<nat, Pc>, runs: map<nat, nat>, cur: nat)

  function PcOf(s: State, e: nat): Pc {
    if e in s.pc then s.pc[e] else Idle
  }

  function RunsOf(s: State, e: nat): nat {
    if e in s.runs then s.runs[e] else 0
  }

  function Opens(s: State, end: End): set<Slot> {
    set k | k in s.fd && s.fd[k] == end
  }

  /** pageref of an end's Fd page. */
  function FdRef(s: State, end: End): nat {
    |Opens(s, end)|
  }

  /** pageref of the pipe page. */
  function PipeRef(s: State): nat {
    |s.data|
  }

  function Other(end: End): End {
    if end.Reader? then Writer else Reader
  }

  datatype Op =
    | Dispatch(e: nat)                     // env_run
    | StartClose(i: nat) | StartDup(o: nat, n: nat) | StartAsk(i: nat)
    | Next                                 // the next call or read of the running env
    | Fail                                 // sys_mem_map fails inside dup
    | Fork(child: nat)                     // fork or spawn, as one step
    | Exit                                 // env_destroy

  function Goto(s: State, pc: Pc): State {
    s.(pc := s.pc[s.cur := pc])
  }

  function UnmapFd(s: State, i: nat): State {
    s.(fd := s.fd - {(s.cur, i)})
  }

  function UnmapData(s: State, i: nat): State {
    s.(data := s.data - {(s.cur, i)})
  }

  /** dup maps page by page what the old slot maps now. */
  function CopyData(s: State, o: nat, n: nat): State {
    if (s.cur, o) in s.data then s.(data := s.data + {(s.cur, n)}) else s
  }

  function CopyFd(s: State, o: nat, n: nat): State {
    if (s.cur, o) in s.fd then s.(fd := s.fd[(s.cur, n) := s.fd[(s.cur, o)]]) else s
  }

  function StepNext(s: State): State {
    match PcOf(s, s.cur)
    case Idle => s
    case CloseFd(i) => Goto(UnmapFd(s, i), CloseData(i))
    case CloseData(i) => Goto(UnmapData(s, i), Idle)
    case DupClose(o, n) => Goto(UnmapFd(s, n), DupCloseData(o, n))
    case DupCloseData(o, n) => Goto(UnmapData(s, n), DupData(o, n))
    case DupData(o, n) => Goto(CopyData(s, o, n), DupFd(o, n))
    case DupFd(o, n) => Goto(CopyFd(s, o, n), Idle)
    case UndoFd(n) => Goto(UnmapFd(s, n), UndoData(n))
    case UndoData(n) => Goto(UnmapData(s, n), Idle)
    case AskRuns(i) => Goto(s, AskFd(i, RunsOf(s, s.cur)))
    case AskFd(i, r) => Goto(s, AskPipe(i, r, if (s.cur, i) in s.fd then FdRef(s, s.fd[(s.cur, i)]) else 0))
    case AskPipe(i, r, f) => Goto(s, AskAgain(i, r, f, PipeRef(s)))
    case AskAgain(i, r, f, q) => Goto(s, if r == RunsOf(s, s.cur) then Idle else AskRuns(i))
  }

  /** The value _pipe_is_closed is about to return, when it does not retry. */
  predicate Answers(s: State, closed: bool) {
    var pc := PcOf(s, s.cur);
    pc.AskAgain? && pc.runs == RunsOf(s, s.cur) && (closed <==> pc.fdRef == pc.pipeRef)
  }

  function Step(s: State, op: Op): State {
    match op
    case Dispatch(e) => s.(cur := e, runs := s.runs[e := RunsOf(s, e) + 1])
    case StartClose(i) => Goto(s, CloseFd(i))
    case StartDup(o, n) => Goto(s, if (s.cur, n) in s.fd then DupClose(o, n) else DupData(o, n))
    case StartAsk(i) => Goto(s, AskRuns(i))
    case Next => StepNext(s)
    case Fail =>
      var pc := PcOf(s, s.cur);
      if pc.DupData? || pc.DupFd? then Goto(s, UndoFd(pc.n)) else s
    case Fork(c) =>
      s.(fd := (map k: Slot | k in s.fd.Keys + (set j: Slot | j in s.fd && j.0 == s.cur :: (c, j.1)) ::
           if k in s.fd then s.fd[k] else s.fd[(s.cur, k.1)]),
         data := s.data + (set j: Slot | j in s.data && j.0 == s.cur :: (c, j.1)))
    case Exit =>
      s.(fd := (map k: Slot | k in s.fd && k.0 != s.cur :: s.fd[k]), data := (set k: Slot | k in s.data && k.0 != s.cur),
         pc := s.pc[s.cur := Idle])
  }

  /** A system call starts only when the env is doing nothing else; close, dup and the test look the
      descriptor up first; dup is given two different descriptors; fork gets a new env. */
  ghost predicate Enabled(s: State, op: Op) {
    match op
    case Dispatch(e) => true
    case StartClose(i) => PcOf(s, s.cur) == Idle && (s.cur, i) in s.fd
    case StartDup(o, n) => PcOf(s, s.cur) == Idle && (s.cur, o) in s.fd && o != n
    case StartAsk(i) => PcOf(s, s.cur) == Idle && (s.cur, i) in s.fd
    case Next => PcOf(s, s.cur) != Idle
    case Fail => PcOf(s, s.cur).DupData? || PcOf(s, s.cur).DupFd?
    case Fork(c) => PcOf(s, s.cur) == Idle && c != s.cur && PcOf(s, c) == Idle
                    && forall k: Slot :: k in s.fd || k in s.data ==> k.0 != c
    case Exit => true
  }

  // ----- the invariant

  /** Slot k is between its two unmaps, or between its two maps. */
  predicate InFlight(s: State, k: Slot) {
    var pc := PcOf(s, k.0);
    (pc.CloseData? && pc.i == k.1)
    || ((pc.DupCloseData? || pc.DupFd? || pc.UndoFd? || pc.UndoData?) && pc.n == k.1)
  }

  /** An Fd page is never mapped without its data page, and the converse fails only in flight. */
  predicate SlotOk(s: State, k: Slot) {
    (k in s.fd ==> k in s.data) && (k in s.data && k !in s.fd ==> InFlight(s, k))
  }

  /** What env e relies on while it is in the middle of a call. */
  predicate PcOk(s: State, e: nat) {
    match PcOf(s, e)
    case CloseFd(i) => (e, i) in s.fd
    case CloseData(i) => (e, i) !in s.fd
    case DupClose(o, n) => o != n && (e, o) in s.fd
    case DupCloseData(o, n) => o != n && (e, o) in s.fd && (e, n) !in s.fd
    case DupData(o, n) => o != n && (e, o) in s.fd && (e, n) !in s.fd
    case DupFd(o, n) => o != n && (e, o) in s.fd && (e, n) in s.data && (e, n) !in s.fd
    case UndoFd(n) => true
    case UndoData(n) => (e, n) !in s.fd
    case AskRuns(i) => (e, i) in s.fd
    case AskFd(i, r) => (e, i) in s.fd && r <= RunsOf(s, e)
    case AskPipe(i, r, f) =>
      && (e, i) in s.fd && r <= RunsOf(s, e)
      && (s.cur == e && r == RunsOf(s, e) ==> f == FdRef(s, s.fd[(e, i)]))
    case AskAgain(i, r, f, q) =>
      && (e, i) in s.fd && r <= RunsOf(s, e)
      && (s.cur == e && r == RunsOf(s, e) ==> f == FdRef(s, s.fd[(e, i)]) && q == PipeRef(s))
    case Idle => true
  }

  ghost predicate Inv(s: State) {
    (forall k: Slot :: SlotOk(s, k)) && (forall e: nat :: PcOk(s, e))
  }

  lemma StepSlots(s: State, op: Op, k: Slot)
    requires Inv(s) && Enabled(s, op)
    ensures SlotOk(Step(s, op), k)
  {
    assert SlotOk(s, k) && SlotOk(s, (s.cur, k.1)) && PcOk(s, s.cur);
    assert k == (k.0, k.1);
  }

  lemma StepOwnPc(s: State, op: Op)
    requires Inv(s) && Enabled(s, op) && !op.Dispatch?
    ensures PcOk(Step(s, op), s.cur)
  {
    var pc := PcOf(s, s.cur);
    assert PcOk(s, s.cur);
    if pc.DupData? { assert SlotOk(s, (s.cur, pc.o)); }
  }

  /** What another env relies on is in its own slots, or void until it is dispatched again. */
  lemma StepOtherPc(s: State, op: Op, e: nat)
    requires Inv(s) && Enabled(s, op) && (e != s.cur || op.Dispatch?)
    ensures PcOk(Step(s, op), e)
  {
    assert PcOk(s, e);
    if op.Dispatch? {
      assert Step(s, op).fd == s.fd && Step(s, op).data == s.data && Step(s, op).pc == s.pc;
    }
  }

  lemma StepInv(s: State, op: Op)
    requires Inv(s) && Enabled(s, op)
    ensures Inv(Step(s, op))
  {
    forall k: Slot ensures SlotOk(Step(s, op), k) { StepSlots(s, op, k); }
    forall e: nat ensures PcOk(Step(s, op), e) {
      if e == s.cur && !op.Dispatch? { StepOwnPc(s, op); } else { StepOtherPc(s, op, e); }
    }
  }

  // ----- what each call does to the slots

  /** No env touches the slots of another, except that fork fills those of the child. */
  lemma OthersKeep(s: State, op: Op, k: Slot)
    requires Enabled(s, op) && k.0 != s.cur && !(op.Fork? && op.child == k.0)
    ensures var s' := Step(s, op);
      (k in s'.fd <==> k in s.fd) && (k in s.fd ==> s'.fd[k] == s.fd[k]) && (k in s'.data <==> k in s.data)
  {}

  /** fork gives the child every slot of the parent, with the same ends, and changes no other. */
  lemma ForkSlots(s: State, c: nat, k: Slot)
    requires Enabled(s, Fork(c))
    ensures var s', from := Step(s, Fork(c)), if k.0 == c then (s.cur, k.1) else k;
      (k in s'.fd <==> from in s.fd) && (k in s'.fd ==> s'.fd[k] == s.fd[from]) && (k in s'.data <==> from in s.data)
  {
    assert k == (k.0, k.1);
  }

  /** Slot k is open at that end. */
  predicate Holds(s: State, k: Slot, end: End) {
    k in s.fd && s.fd[k] == end && k in s.data
  }

  predicate Closed(s: State, k: Slot) {
    k !in s.fd && k !in s.data
  }

  /** e is inside dup(o, n), and o is open at that end. */
  predicate Duping(s: State, e: nat, o: nat, n: nat, end: End) {
    && o != n && Holds(s, (e, o), end)
    && PcOf(s, e) in {DupClose(o, n), DupCloseData(o, n), DupData(o, n), DupFd(o, n)}
  }

  /** e is on its way out of a dup(o, n) that failed. */
  predicate Undoing(s: State, e: nat, o: nat, n: nat, end: End) {
    o != n && Holds(s, (e, o), end) && PcOf(s, e) in {UndoFd(n), UndoData(n)}
  }

  /** A dup that has ended: both slots are open at the same end, or the new one is closed. */
  predicate Duped(s: State, e: nat, o: nat, n: nat, end: End, ok: bool) {
    PcOf(s, e) == Idle && Holds(s, (e, o), end) && if ok then Holds(s, (e, n), end) else Closed(s, (e, n))
  }

  lemma DupStep(s: State, op: Op, e: nat, o: nat, n: nat, end: End)
    requires Inv(s) && Enabled(s, op) && Duping(s, e, o, n, end) && !(op.Exit? && s.cur == e)
    ensures var s' := Step(s, op);
      || Duping(s', e, o, n, end) || Duped(s', e, o, n, end, true)
      || (op.Fail? && s.cur == e && Undoing(s', e, o, n, end))
  {
    assert PcOk(s, e) && SlotOk(s, (e, n));
    if s.cur != e {
      OthersKeep(s, op, (e, o));
      OthersKeep(s, op, (e, n));
    }
  }

  lemma UndoStep(s: State, op: Op, e: nat, o: nat, n: nat, end: End)
    requires Inv(s) && Enabled(s, op) && Undoing(s, e, o, n, end) && !(op.Exit? && s.cur == e)
    ensures var s' := Step(s, op); Undoing(s', e, o, n, end) || Duped(s', e, o, n, end, false)
  {
    assert PcOk(s, e) && SlotOk(s, (e, n));
    if s.cur != e {
      OthersKeep(s, op, (e, o));
      OthersKeep(s, op, (e, n));
    }
  }

  /** e is inside _pipe_is_closed on slot i. */
  predicate Asking(s: State, e: nat, i: nat) {
    var pc := PcOf(s, e);
    (pc.AskRuns? || pc.AskFd? || pc.AskPipe? || pc.AskAgain?) && pc.i == i
  }

  /** The call ends only with an answer, which it gives when env_runs has not moved; otherwise it starts over.
      It changes no slot. */
  lemma AskStep(s: State, op: Op, e: nat, i: nat)
    requires Inv(s) && Enabled(s, op) && Asking(s, e, i) && !(op.Exit? && s.cur == e)
    ensures var s' := Step(s, op);
      || Asking(s', e, i)
      || (PcOf(s', e) == Idle && s.cur == e && s'.fd == s.fd && s'.data == s.data && (Answers(s, true) || Answers(s, false)))
    ensures s.cur == e && op == Next && PcOf(s, e).AskAgain? && PcOf(s, e).runs != RunsOf(s, e) ==>
      PcOf(Step(s, op), e) == AskRuns(i)
  {}

  /** Steps up to the end of the call e is in, in which e does not die. */
  ghost predicate CallOf(s: State, e: nat, ops: seq<Op>)
    decreases |ops|
  {
    && PcOf(s, e) != Idle && ops != [] && Enabled(s, ops[0]) && !(ops[0].Exit? && s.cur == e)
    && var s1 := Step(s, ops[0]);
       if PcOf(s1, e) == Idle then |ops| == 1 else CallOf(s1, e, ops[1..])
  }

  /** Whatever others do meanwhile, dup(o, n) ends with slot n open at the end slot o is open at, or, if a
      sys_mem_map failed, with slot n closed; slot o is what it was. */
  lemma {:induction false} DupEnds(s: State, e: nat, o: nat, n: nat, end: End, ops: seq<Op>)
    requires Inv(s) && CallOf(s, e, ops) && (Duping(s, e, o, n, end) || Undoing(s, e, o, n, end))
    ensures var t := Run(s, ops);
      Duped(t, e, o, n, end, true) || Duped(t, e, o, n, end, false)
    ensures Duping(s, e, o, n, end) && Fail !in ops ==> Duped(Run(s, ops), e, o, n, end, true)
    decreases |ops|
  {
    var s1 := Step(s, ops[0]);
    StepInv(s, ops[0]);
    if Duping(s, e, o, n, end) { DupStep(s, ops[0], e, o, n, end); } else { UndoStep(s, ops[0], e, o, n, end); }
    if PcOf(s1, e) == Idle {
      assert Run(s, ops) == s1;
    } else {
      DupEnds(s1, e, o, n, end, ops[1..]);
    }
  }

  /** e is inside close(i). */
  predicate Closing(s: State, e: nat, i: nat) {
    PcOf(s, e) in {CloseFd(i), CloseData(i)}
  }

  lemma CloseStep(s: State, op: Op, e: nat, i: nat)
    requires Inv(s) && Enabled(s, op) && Closing(s, e, i) && !(op.Exit? && s.cur == e)
    ensures var s' := Step(s, op); Closing(s', e, i) || (PcOf(s', e) == Idle && Closed(s', (e, i)))
  {
    assert PcOk(s, e);
    if s.cur != e { OthersKeep(s, op, (e, i)); }
  }

  /** close(i) ends with both pages of the slot unmapped. */
  lemma {:induction false} CloseEnds(s: State, e: nat, i: nat, ops: seq<Op>)
    requires Inv(s) && CallOf(s, e, ops) && Closing(s, e, i)
    ensures Closed(Run(s, ops), (e, i))
    decreases |ops|
  {
    var s1 := Step(s, ops[0]);
    StepInv(s, ops[0]);
    CloseStep(s, ops[0], e, i);
    if PcOf(s1, e) == Idle {
      assert Run(s, ops) == s1;
    } else {
      CloseEnds(s1, e, i, ops[1..]);
    }
  }

  // ----- results

  lemma CountEnds(s: State)
    ensures |s.fd.Keys| == FdRef(s, Reader) + FdRef(s, Writer)
  {
    assert s.fd.Keys == Opens(s, Reader) + Opens(s, Writer);
  }

  lemma SubsetSize(a: set<Slot>, b: set<Slot>)
    requires a <= b
    ensures |a| <= |b| && (|a| == |b| ==> a == b)
  {
    assert b == a + (b - a);
  }

  /** The pipe page is always counted at least as often as the two ends together. */
  lemma PipeRefBounds(s: State)
    requires Inv(s)
    ensures FdRef(s, Reader) + FdRef(s, Writer) <= PipeRef(s)
  {
    forall k: Slot | k in s.fd.Keys ensures k in s.data { assert SlotOk(s, k); }
    CountEnds(s);
    SubsetSize(s.fd.Keys, s.data);
  }

  /** When _pipe_is_closed answers 1 to a holder of one end, nobody maps the other end. */
  lemma NoFalseClose(s: State)
    requires Inv(s) && Answers(s, true)
    ensures var i := PcOf(s, s.cur).i;
      (s.cur, i) in s.fd && Opens(s, Other(s.fd[(s.cur, i)])) == {}
  {
    assert PcOk(s, s.cur);
    PipeRefBounds(s);
  }

  /** No env is between the two halves of a close or a dup. */
  ghost predicate Settled(s: State) {
    forall k: Slot :: !InFlight(s, k)
  }

  /** When no close or dup is in flight the answer is exact in both directions. */
  lemma AnswerExact(s: State, closed: bool)
    requires Inv(s) && Answers(s, closed) && Settled(s)
    ensures var i := PcOf(s, s.cur).i;
      (s.cur, i) in s.fd && (closed <==> Opens(s, Other(s.fd[(s.cur, i)])) == {})
  {
    assert PcOk(s, s.cur);
    forall k: Slot ensures k in s.fd <==> k in s.data { assert SlotOk(s, k) && !InFlight(s, k); }
    assert s.fd.Keys == s.data;
    CountEnds(s);
  }

  /** pipe: the creating env opens both ends in two of its slots. */
  function Created(e: nat, i: nat, j: nat, runs: map<nat, nat>): State {
    State(map[(e, i) := Reader, (e, j) := Writer], {(e, i), (e, j)}, map[], runs, e)
  }

  function Run(s: State, ops: seq<Op>): State
    decreases |ops|
  {
    if ops == [] then s else Run(Step(s, ops[0]), ops[1..])
  }

  ghost predicate EnabledRun(s: State, ops: seq<Op>)
    decreases |ops|
  {
    ops == [] || (Enabled(s, ops[0]) && EnabledRun(Step(s, ops[0]), ops[1..]))
  }

  lemma {:induction false} RunInv(s: State, ops: seq<Op>)
    requires Inv(s) && EnabledRun(s, ops)
    ensures Inv(Run(s, ops))
    decreases |ops|
  {
    if ops != [] {
      StepInv(s, ops[0]);
      RunInv(Step(s, ops[0]), ops[1..]);
    }
  }

  /** No interleaving of the holders of a pipe makes it look closed while its other end is open. */
  lemma PipeNeverLooksClosed(e: nat, i: nat, j: nat, runs: map<nat, nat>, ops: seq<Op>)
    requires i != j && EnabledRun(Created(e, i, j, runs), ops)
    ensures var s := Run(Created(e, i, j, runs), ops);
      && FdRef(s, Reader) + FdRef(s, Writer) <= PipeRef(s)
      && (Answers(s, true) ==> (s.cur, PcOf(s, s.cur).i) in s.fd
                               && Opens(s, Other(s.fd[(s.cur, PcOf(s, s.cur).i)])) == {})
  {
    var s0 := Created(e, i, j, runs);
    forall k: Slot ensures SlotOk(s0, k) {}
    forall a: nat ensures PcOk(s0, a) {}
    RunInv(s0, ops);
    var s := Run(s0, ops);
    PipeRefBounds(s);
    if Answers(s, true) { NoFalseClose(s); }
  }
}
