/** No starvation, message order, and where the runnable-list invariants stop holding. */
module SchedTheorems {
  import opened Common
  import Mmu
  import opened Queue
  import opened Sched

  // ----- no starvation

  /** The ticks one turn of env x takes; schedule gives at least one. */
  function Slice(s: Sys, x: nat): nat {
    if Pri(s, x) > 1 then Pri(s, x) else 1
  }

  /** The turns of the envs queued before e, not counting the turn curenv is in. */
  function Ahead(s: Sys, q: seq<nat>, e: nat): nat
    decreases |q|
  {
    if q == [] || q[0] == e then 0
    else (if s.cur == To(q[0]) then 0 else Slice(s, q[0])) + Ahead(s, q[1..], e)
  }

  /** The bound on the number of calls to schedule before e is dispatched. */
  function Wait(s: Sys, e: nat): nat {
    (if s.count > 1 then s.count else 1) + Ahead(s, s.q, e)
  }

  lemma {:induction false} AheadSame(s: Sys, s': Sys, q: seq<nat>, e: nat)
    requires forall x: nat :: x in q ==> Slice(s', x) == Slice(s, x) && (s'.cur == To(x) <==> s.cur == To(x))
    ensures Ahead(s', q, e) == Ahead(s, q, e)
    decreases |q|
  {
    if q != [] && q[0] != e {
      assert forall x :: x in q[1..] ==> x in q;
      AheadSame(s, s', q[1..], e);
    }
  }

  lemma {:induction false} AheadAppend(s: Sys, q: seq<nat>, x: nat, e: nat)
    requires e in q
    ensures Ahead(s, q + [x], e) == Ahead(s, q, e)
    decreases |q|
  {
    if q[0] != e {
      assert (q + [x])[1..] == q[1..] + [x];
      AheadAppend(s, q[1..], x, e);
    }
  }

  lemma {:induction false} AheadWithout(s: Sys, q: seq<nat>, x: nat, e: nat)
    requires e in q && x != e
    ensures e in Without(q, x)
    ensures Ahead(s, Without(q, x), e) <= Ahead(s, q, e)
    ensures s.cur == To(x) ==> Ahead(s, Without(q, x), e) == Ahead(s, q, e)
    decreases |q|
  {
    if q[0] != e {
      AheadWithout(s, q[1..], x, e);
      if q[0] != x {
        assert Without(q, x) == [q[0]] + Without(q[1..], x);
        assert Without(q, x)[1..] == Without(q[1..], x);
      }
    } else {
      assert Without(q, x) == [e] + Without(q[1..], x);
    }
  }

  /** The facts about the list that a call to schedule relies on. */
  ghost predicate Queued(s: Sys) {
    && Distinct(s.q)
    && (forall x: nat :: x in s.q ==> x < |s.env| && s.env[x].status == RUNNABLE)
    && (Runs(s) ==> s.cur.elm in s.q)
  }

  lemma InvQueued(s: Sys)
    requires Inv(s)
    ensures Queued(s)
  {
    forall x: nat | x in s.q ensures x < |s.env| && s.env[x].status == RUNNABLE { assert EnvOk(s, x); }
    if Runs(s) { assert EnvOk(s, s.cur.elm); }
  }

  /** The list without curenv, which schedule moves to the tail. */
  function Rest(s: Sys): seq<nat> {
    if Runs(s) then Without(s.q, s.cur.elm) else s.q
  }

  lemma RotationCloser(s: Sys, e: nat)
    requires Queued(s) && e in s.q && s.cur != To(e)
    ensures e in Rest(s) && Distinct(Rest(s)) && (s.cur.To? ==> s.cur.elm !in Rest(s))
    ensures Ahead(s, Rest(s), e) == Ahead(s, s.q, e)
    ensures Rotated(s) == Rest(s) + if Runs(s) then [s.cur.elm] else []
  {
    if Runs(s) {
      AheadWithout(s, s.q, s.cur.elm, e);
      WithoutDistinct(s.q, s.cur.elm);
    }
  }

  /** Putting the head h of the list on the CPU takes its turn out of the wait. */
  lemma TurnCloser(s: Sys, s': Sys, b: seq<nat>, e: nat)
    requires e in b && Distinct(b) && (s.cur.To? ==> s.cur.elm !in b) && b[0] != e
    requires s'.cur == To(b[0]) && forall x: nat :: Slice(s', x) == Slice(s, x)
    ensures Ahead(s, b, e) == Slice(s, b[0]) + Ahead(s', b, e)
  {
    assert b == [b[0]] + b[1..];
    AheadSame(s, s', b[1..], e);
  }

  lemma DispatchSlices(s: Sys, h: nat, x: nat)
    ensures Slice(Dispatch(s, h), x) == Slice(s, x)
  {}

  /** A call to schedule dispatches e or brings it strictly closer. */
  lemma ScheduleCloser(s: Sys, giveUp: bool, e: nat)
    requires Queued(s) && e in s.q && s.cur != To(e)
    ensures var s' := Schedule(s, giveUp);
      e in s'.q && (s'.cur == To(e) || Wait(s', e) < Wait(s, e))
  {
    var s' := Schedule(s, giveUp);
    RotationCloser(s, e);
    if giveUp || s.count - 1 <= 0 || !Runs(s) {
      var b := Rest(s);
      var h := b[0];
      assert Rotated(s)[0] == h && h in s.q;
      forall x: nat ensures Slice(s', x) == Slice(s, x) {
        DispatchSlices(s.(q := Rotated(s), count := Pri(s, h)), h, x);
      }
      if h != e {
        TurnCloser(s, s', b, e);
        if Runs(s) { AheadAppend(s', b, s.cur.elm, e); }
      }
    } else {
      AheadSame(s, s', s.q, e);
    }
  }

  /** Steps that call schedule. */
  predicate Calls(s: Sys, op: Op) {
    op.Tick? || op.Recv? || (op.Destroy? && s.cur == To(op.e))
  }

  /** Blocking curenv, whose turn no longer counts, brings nobody further away. */
  lemma BlockCloser(s: Sys, dstva: nat, e: nat)
    requires Inv(s) && Runs(s) && e in s.q && s.cur != To(e)
    ensures var s1 := Block(s, s.cur.elm, dstva);
      Queued(s1) && e in s1.q && s1.cur == s.cur && Wait(s1, e) <= Wait(s, e)
  {
    var c := s.cur.elm;
    var s1 := Block(s, c, dstva);
    InvQueued(s);
    AheadWithout(s, s.q, c, e);
    AheadSame(s, s1, s1.q, e);
    WithoutDistinct(s.q, c);
  }

  lemma RecvCloser(s: Sys, dstva: nat, e: nat)
    requires Inv(s) && Legal(s, Recv(dstva)) && e in s.q && s.cur != To(e)
    ensures var s' := Step(s, Recv(dstva)); s'.cur == To(e) || Wait(s', e) + 1 <= Wait(s, e)
  {
    BlockCloser(s, dstva, e);
    ScheduleCloser(Block(s, s.cur.elm, dstva), true, e);
  }

  lemma DestroyCloser(s: Sys, x: nat, e: nat)
    requires Inv(s) && Legal(s, Destroy(x)) && e in s.q && s.cur != To(e) && x != e
    ensures var s' := Step(s, Destroy(x));
      s'.cur == To(e) || Wait(s', e) + (if s.cur == To(x) then 1 else 0) <= Wait(s, e)
  {
    var s1 := Release(s, x);
    InvQueued(s);
    AheadWithout(s, s.q, x, e);
    AheadSame(s, s1, s1.q, e);
    if s.cur == To(x) {
      var s2 := s1.(cur := Null);
      WithoutDistinct(s.q, x);
      AheadSame(s1, s2, s1.q, e);
      ScheduleCloser(s2, true, e);
    }
  }

  /** A step that leaves curenv, its count and the priorities of queued envs alone, and appends or
      removes another env, does not push e back. */
  lemma QuietCloser(s: Sys, s': Sys, x: nat, e: nat)
    requires e in s.q && s'.cur == s.cur && s'.count == s.count && x != e
    requires s'.q == s.q || s'.q == s.q + [x] || s'.q == Without(s.q, x)
    requires forall y: nat :: y in s'.q ==> Slice(s', y) == Slice(s, y)
    ensures e in s'.q && Wait(s', e) <= Wait(s, e)
  {
    AheadAppend(s, s.q, x, e);
    AheadWithout(s, s.q, x, e);
    AheadSame(s, s', s'.q, e);
  }

  predicate Quiet(s: Sys, op: Op) {
    !op.Tick? && !op.Recv? && !op.Destroy?
  }

  /** The env a quiet step queues or dequeues, if any. */
  function Mover(s: Sys, op: Op, e: nat): nat {
    if (op.Status? || op.Send?) && op.e != e then op.e else e + 1
  }

  lemma QuietStep(s: Sys, op: Op, e: nat)
    requires Inv(s) && Legal(s, op) && Quiet(s, op) && e in s.q && s.cur.To? && s.cur != To(e) && e in Step(s, op).q
    ensures Step(s, op).cur == s.cur && Wait(Step(s, op), e) <= Wait(s, e)
  {
    var s' := Step(s, op);
    assert EnvOk(s, e) && EnvOk(s, s.cur.elm);
    if op.Status? || op.Send? || op.Exofork? { assert EnvOk(s, op.e); }
    QuietCloser(s, s', Mover(s, op, e), e);
  }

  /** No other step pushes e back: arrivals queue at the tail and exits only shorten the list. */
  lemma StepCloser(s: Sys, op: Op, e: nat)
    requires Inv(s) && Legal(s, op) && e in s.q && s.cur.To? && s.cur != To(e) && e in Step(s, op).q
    ensures var s' := Step(s, op);
      s'.cur == To(e) || Wait(s', e) + (if Calls(s, op) then 1 else 0) <= Wait(s, e)
  {
    if op.Tick? {
      InvQueued(s);
      ScheduleCloser(s, op.giveUp, e);
    } else if op.Recv? {
      RecvCloser(s, op.dstva, e);
    } else if op.Destroy? {
      if op.e != e { DestroyCloser(s, op.e, e); }
    } else {
      QuietStep(s, op, e);
    }
  }

  lemma StepCur(s: Sys, op: Op)
    requires Inv(s) && Legal(s, op) && s.cur.To?
    ensures Step(s, op).cur.To?
  {
    if op.Destroy? {
      assert Without(s.q, op.e) != [] ==> Without(s.q, op.e)[0] in s.q && EnvOk(s, Without(s.q, op.e)[0]);
    }
  }

  /** e stays runnable through the whole run. */
  predicate StaysRunnable(s: Sys, e: nat, ops: seq<Op>)
    decreases |ops|
  {
    e in s.q && (ops != [] ==> StaysRunnable(Step(s, ops[0]), e, ops[1..]))
  }

  function CallCount(s: Sys, ops: seq<Op>): nat
    decreases |ops|
  {
    if ops == [] then 0 else (if Calls(s, ops[0]) then 1 else 0) + CallCount(Step(s, ops[0]), ops[1..])
  }

  /** An env that stays runnable is dispatched within Wait calls to schedule, whatever else happens. */
  lemma {:induction false} NoStarvation(s: Sys, e: nat, ops: seq<Op>)
    requires Inv(s) && s.cur.To? && LegalRun(s, ops) && StaysRunnable(s, e, ops)
    requires CallCount(s, ops) >= Wait(s, e)
    ensures exists k :: 0 <= k <= |ops| && Run(s, ops[..k]).cur == To(e)
    decreases |ops|
  {
    if s.cur == To(e) {
      assert Run(s, ops[..0]) == s;
    } else {
      var s1 := Step(s, ops[0]);
      StepInv(s, ops[0]);
      StepCloser(s, ops[0], e);
      StepCur(s, ops[0]);
      if s1.cur == To(e) {
        assert ops[..1][1..] == [];
        assert Run(s, ops[..1]) == Run(s1, []) == s1;
      } else {
        NoStarvation(s1, e, ops[1..]);
        var k :| 0 <= k <= |ops[1..]| && Run(s1, ops[1..][..k]).cur == To(e);
        assert ops[..k + 1][1..] == ops[1..][..k];
        assert Run(s, ops[..k + 1]) == Run(s1, ops[1..][..k]);
      }
    }
  }

  // ----- who is at the head

  ghost predicate HeadOk(s: Sys) {
    Runs(s) ==> s.q != [] && s.q[0] == s.cur.elm
  }

  /** A runnable curenv stays the head of the list except when it blocks itself with
      sys_set_env_status and wakes itself again behind a non-empty list. */
  lemma HeadExact(s: Sys, op: Op)
    requires Inv(s) && HeadOk(s) && Legal(s, op)
    ensures HeadOk(Step(s, op)) <==> !(op.Status? && op.status == RUNNABLE && s.cur == To(op.e) && s.q != [])
  {
    InvQueued(s);
    if s.cur.To? { assert EnvOk(s, s.cur.elm); }
    match op
    case Tick(giveUp) =>
      RotatedSame(s);
      assert s.q[0] in Rotated(s) && EnvOk(s, Rotated(s)[0]);
    case Status(x, status) =>
      assert EnvOk(s, x);
      if Runs(s) && s.cur != To(x) { HeadStays(s.q, x); }
    case Recv(dstva) => RecvHead(s, dstva);
    case Send(x, value, perm) => assert EnvOk(s, x);
    case Exofork(x) => assert EnvOk(s, x);
    case Destroy(x) =>
      assert EnvOk(s, x);
      if s.cur != To(x) && Runs(s) { HeadStays(s.q, x); }
    case Boot(x, pri) =>
    case TakeFrom =>
    case TakePerm =>
    case TakeValue =>
  }

  /** Two envs that boot has not used yet. */
  function TwoFree(): Sys {
    var e, u := Env(FREE, 0, 0, 0, 0, false, 0, 0, 0, {}), Reader(Idle, [], []);
    Sched.Sys([e, e], [u, u], [], Null, 0, 0)
  }

  lemma TwoFreeInv()
    ensures Inv(TwoFree())
  {
    forall e: nat ensures EnvOk(TwoFree(), e) {}
  }

  /** env_create twice, a tick, and the env that runs blocks itself and wakes itself again. */
  function BlockAndWake(): seq<Op> {
    [Boot(0, 1), Boot(1, 1), Tick(true), Op.Status(1, NOT_RUNNABLE), Op.Status(1, RUNNABLE)]
  }

  lemma RunFirst(s: Sys, ops: seq<Op>)
    requires ops != []
    ensures Run(s, ops) == Run(Step(s, ops[0]), ops[1..])
    ensures LegalRun(s, ops) <==> Legal(s, ops[0]) && LegalRun(Step(s, ops[0]), ops[1..])
  {}

  /** From boot: the running env is runnable, but the other one heads the list. */
  lemma HeadLostReached()
    ensures var s := Run(TwoFree(), BlockAndWake());
      LegalRun(TwoFree(), BlockAndWake()) && Inv(s) && Runs(s) && s.cur == To(1) && s.q == [0, 1] && !HeadOk(s)
  {
    var ops, s := BlockAndWake(), TwoFree();
    var s1 := Step(s, ops[0]);
    var s2 := Step(s1, ops[1]);
    var s3 := Step(s2, ops[2]);
    var s4 := Step(s3, ops[3]);
    var s5 := Step(s4, ops[4]);
    assert s2.q == [1, 0] && s2.cur == Null;
    assert s3.q == [1, 0] && s3.cur == To(1) && Runs(s3);
    assert Without(s3.q, 1) == [0];
    assert s4.q == [0] && s5.q == [0, 1];
    RunFirst(s, ops);
    RunFirst(s1, ops[1..]);
    RunFirst(s2, ops[2..]);
    RunFirst(s3, ops[3..]);
    RunFirst(s4, ops[4..]);
    TwoFreeInv();
    RunInv(s, ops);
  }

  lemma HeadStays(q: seq<nat>, x: nat)
    requires q != [] && q[0] != x
    ensures Without(q, x) != [] && Without(q, x)[0] == q[0]
  {}

  lemma RecvHead(s: Sys, dstva: nat)
    requires Inv(s) && Legal(s, Recv(dstva))
    ensures HeadOk(Step(s, Recv(dstva)))
  {}

  /** sys_set_env_status moves links without looking at the old status.  The list afterwards is the
      intended one exactly when the status really changes, or when NOT_RUNNABLE is set again on an env
      whose stale links still fit their neighbours. */
  lemma StatusExact(c: Chain, s: Sys, e: nat, status: Status)
    requires Inv(s) && Represents(c, s.q) && Slot(c, e) && e < |s.env|
    requires s.env[e].status != FREE && status != FREE
    ensures Represents(if status == RUNNABLE then TailInserted(c, e) else Removed(c, e), SetStatus(s, e, status).q)
      <==> (status != s.env[e].status || (status == NOT_RUNNABLE && Inert(c, s.q, e)))
  {
    assert EnvOk(s, e);
    if status == RUNNABLE {
      if e !in s.q {
        InsertTailKeeps(c, s.q, e);
      } else {
        InsertTailExact(c, s.q, e);
      }
    } else if e in s.q {
      RemoveKeeps(c, s.q, e);
    } else {
      RemoveStrayExact(c, s.q, e);
    }
  }

  // ----- IPC

  /** What a receiver has returned is, in order, what was delivered to it, with at most one message
      outstanding; that message sits untouched in its env until the receiver has read it. */
  lemma IpcInOrder(s: Sys, e: nat)
    requires Inv(s) && e < |s.env|
    ensures e < |s.reader| && var u, x := s.reader[e], s.env[e];
      && u.got <= u.sent && |u.sent| <= |u.got| + 1
      && (u.pc == Idle || x.recving ==> u.got == u.sent)
      && (u.got != u.sent ==> u.sent == u.got + [Msg(x.from, x.perm, x.value)] && !x.recving)
      && (x.recving ==> x.status == NOT_RUNNABLE && e !in s.q)
  {
    assert EnvOk(s, e);
  }

  predicate Lives(ops: seq<Op>, e: nat) {
    forall k :: 0 <= k < |ops| ==> !(ops[k].Exofork? && ops[k].e == e) && !(ops[k].Boot? && ops[k].e == e)
  }

  lemma LivesOn(ops: seq<Op>, e: nat)
    requires Lives(ops, e) && ops != []
    ensures Lives(ops[1..], e) && Lives([ops[0]], e)
  {}

  /** What one step delivers to e. */
  function DeliveredBy(s: Sys, op: Op, e: nat): seq<Msg> {
    if op.Send? && op.e == e && EnvAt(s, e).recving && s.cur.To?
    then [Msg(EnvAt(s, s.cur.elm).id, op.perm + {Mmu.V}, op.value)] else []
  }

  /** What one step makes e return from ipc_recv. */
  function ReturnedBy(s: Sys, op: Op, e: nat): seq<Msg> {
    if op.TakeValue? && s.cur == To(e) && ReaderAt(s, e).pc.HavePerm?
    then [Msg(ReaderAt(s, e).pc.from, ReaderAt(s, e).pc.perm, EnvAt(s, e).value)] else []
  }

  /** The messages a run delivers to e, read off the sends that found it receiving. */
  function Delivered(s: Sys, ops: seq<Op>, e: nat): seq<Msg>
    decreases |ops|
  {
    if ops == [] then [] else DeliveredBy(s, ops[0], e) + Delivered(Step(s, ops[0]), ops[1..], e)
  }

  /** The messages e returns from ipc_recv during a run, as it read them field by field. */
  function Returned(s: Sys, ops: seq<Op>, e: nat): seq<Msg>
    decreases |ops|
  {
    if ops == [] then [] else ReturnedBy(s, ops[0], e) + Returned(Step(s, ops[0]), ops[1..], e)
  }

  lemma {:induction false} Logs(s: Sys, ops: seq<Op>, e: nat)
    requires Inv(s) && LegalRun(s, ops) && Lives(ops, e) && e < |s.env|
    ensures ReaderAt(Run(s, ops), e).sent == ReaderAt(s, e).sent + Delivered(s, ops, e)
    ensures ReaderAt(Run(s, ops), e).got == ReaderAt(s, e).got + Returned(s, ops, e)
    decreases |ops|
  {
    if ops != [] {
      var s1 := Step(s, ops[0]);
      StepInv(s, ops[0]);
      LivesOn(ops, e);
      StepLogs(s, ops[0], e);
      Logs(s1, ops[1..], e);
      Assoc(ReaderAt(s, e).sent, DeliveredBy(s, ops[0], e), Delivered(s1, ops[1..], e));
      Assoc(ReaderAt(s, e).got, ReturnedBy(s, ops[0], e), Returned(s1, ops[1..], e));
    }
  }

  lemma Assoc(a: seq<Msg>, b: seq<Msg>, c: seq<Msg>)
    ensures (a + b) + c == a + (b + c)
  {}

  lemma StepLogs(s: Sys, op: Op, e: nat)
    requires Inv(s) && Legal(s, op) && Lives([op], e) && e < |s.env|
    ensures var s' := Step(s, op);
      && |s'.env| == |s.env|
      && ReaderAt(s', e).sent == ReaderAt(s, e).sent + DeliveredBy(s, op, e)
      && ReaderAt(s', e).got == ReaderAt(s, e).got + ReturnedBy(s, op, e)
  {
    assert [op][0] == op;
    assert EnvOk(s, e);
    if s.cur.To? { assert EnvOk(s, s.cur.elm); }
  }

  /** Exactly once and in order: what an idle env returns during a run is a prefix of what the run
      delivers to it, and everything but possibly the last message has been returned. */
  lemma IpcExactlyOnce(s: Sys, ops: seq<Op>, e: nat)
    requires Inv(s) && LegalRun(s, ops) && Lives(ops, e) && e < |s.env| && ReaderAt(s, e).pc == Idle
    ensures Returned(s, ops, e) <= Delivered(s, ops, e)
    ensures |Delivered(s, ops, e)| <= |Returned(s, ops, e)| + 1
    ensures ReaderAt(Run(s, ops), e).pc == Idle ==> Returned(s, ops, e) == Delivered(s, ops, e)
  {
    assert EnvOk(s, e);
    RunInv(s, ops);
    Logs(s, ops, e);
    RunLength(s, ops);
    IpcInOrder(Run(s, ops), e);
    var g, d, r := ReaderAt(s, e).got, Delivered(s, ops, e), Returned(s, ops, e);
    assert g + r <= g + d;
    assert (g + r)[|g|..] == r && (g + d)[|g|..] == d;
  }

  lemma {:induction false} RunLength(s: Sys, ops: seq<Op>)
    requires Inv(s) && LegalRun(s, ops)
    ensures |Run(s, ops).env| == |s.env|
    decreases |ops|
  {
    if ops != [] {
      StepInv(s, ops[0]);
      RunLength(Step(s, ops[0]), ops[1..]);
    }
  }

  // ----- env ids

  /** envid2env; Null stands for -E_BAD_ENV. */
  function Envid2Env(s: Sys, envid: nat, checkperm: bool): Ptr {
    var e := envid % NENV;
    if envid == 0 then s.cur
    else if e >= |s.env| || s.env[e].status == FREE || s.env[e].id != envid then Null
    else if checkperm && s.cur.To? && s.env[e].id != EnvAt(s, s.cur.elm).id && s.env[e].parent != EnvAt(s, s.cur.elm).id
    then Null
    else To(e)
  }

  /** An id names exactly the live env that carries it, although only its low bits are looked up. */
  lemma EnvidExact(s: Sys, envid: nat, e: nat)
    requires Inv(s) && envid != 0
    ensures Envid2Env(s, envid, false) == To(e) <==> e < |s.env| && s.env[e].status != FREE && s.env[e].id == envid
  {
    assert EnvOk(s, e);
    if e < |s.env| && s.env[e].status != FREE && s.env[e].id == envid {
      var n: nat :| 1 <= n <= s.serial && s.env[e].id == MkEnvid(n, e);
      MkEnvidIndex(n, e);
    }
  }

  /** The env in slot e is free or was created after the first n creations. */
  ghost predicate Newer(s: Sys, e: nat, n: nat) {
    e < |s.env| && n <= s.serial && (s.env[e].status != FREE ==> exists m: nat :: m > n && s.env[e].id == MkEnvid(m, e))
  }

  lemma SlotSchedule(s: Sys, giveUp: bool, e: nat)
    requires e < |s.env|
    ensures var s' := Schedule(s, giveUp);
      |s'.env| == |s.env| && s'.serial == s.serial && s'.env[e].status == s.env[e].status && s'.env[e].id == s.env[e].id
  {}

  /** A slot keeps its id through a step, or carries the next serial number. */
  lemma SlotStep(s: Sys, op: Op, e: nat)
    requires Legal(s, op) && e < |s.env|
    ensures var s' := Step(s, op); |s'.env| == |s.env| && s.serial <= s'.serial
    ensures var s' := Step(s, op); s'.env[e].status != FREE ==>
      || (s.env[e].status != FREE && s'.env[e].id == s.env[e].id)
      || (s'.serial == s.serial + 1 && s'.env[e].id == MkEnvid(s'.serial, e))
  {
    match op
    case Tick(giveUp) => SlotSchedule(s, giveUp, e);
    case Recv(dstva) => SlotSchedule(Block(s, s.cur.elm, dstva), true, e);
    case Destroy(x) => if s.cur == To(x) { SlotSchedule(Release(s, x).(cur := Null), true, e); }
    case _ =>
  }

  lemma NewerStep(s: Sys, op: Op, e: nat, n: nat)
    requires Inv(s) && Legal(s, op) && Newer(s, e, n)
    ensures Newer(Step(s, op), e, n)
  {
    SlotStep(s, op, e);
  }

  /** The id of a destroyed env never resolves again, whatever is created in its slot later. */
  lemma {:induction false} StaleIdStaysBad(s: Sys, ops: seq<Op>, e: nat, n: nat)
    requires Inv(s) && LegalRun(s, ops) && Newer(s, e, n) && e < NENV && n > 0
    ensures Envid2Env(Run(s, ops), MkEnvid(n, e), false) == Null
    decreases |ops|
  {
    if ops == [] {
      MkEnvidIndex(n, e);
      if s.env[e].status != FREE {
        var m: nat :| m > n && s.env[e].id == MkEnvid(m, e);
        MkEnvidIndex(m, e);
      }
    } else {
      StepInv(s, ops[0]);
      NewerStep(s, ops[0], e, n);
      StaleIdStaysBad(Step(s, ops[0]), ops[1..], e, n);
    }
  }
}
