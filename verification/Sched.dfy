/** Env status, the scheduler and IPC (kern/sched.c, kern/syscall_all.c) as steps on one CPU, with the
    receiving half of user/lib/ipc.c. */
module Sched {
  import opened Common
  import opened Mmu
  import opened Queue

  datatype Status = FREE | RUNNABLE | NOT_RUNNABLE

  datatype Env = Env(
    status: Status, id: nat, parent: nat, pri: nat, runs: nat,
    recving: bool, dstva: nat, value: nat, from: nat, perm: Perm)

  datatype Msg = Msg(from: nat, perm: Perm, value: nat)

  /** Where the receiver is in ipc_recv; it reads the three message fields one at a time. */
  datatype Pc = Idle | Waiting | HaveFrom(from: nat) | HavePerm(from: nat, perm: Perm)

  /** The receiver's position, the messages delivered to it and the messages it has returned. */
  datatype Reader = Reader(pc: Pc, sent: seq<Msg>, got: seq<Msg>)

  /** envs, the library state beside each env, env_sched_list, curenv, and schedule's static count. */
  datatype Sys = Sys(env: seq<Env>, reader: seq<Reader>, q: seq<nat>, cur: Ptr, count: int, serial: nat)

  const NENV := 1024

  // ----- kern/sched.c

  predicate Runs(s: Sys) {
    s.cur.To? && s.cur.elm < |s.env| && s.env[s.cur.elm].status == RUNNABLE
  }

  /** curenv moves behind every other runnable env. */
  function Rotated(s: Sys): seq<nat> {
    if Runs(s) then Without(s.q, s.cur.elm) + [s.cur.elm] else s.q
  }

  /** env_run. */
  function Dispatch(s: Sys, e: nat): Sys {
    if e < |s.env| then s.(cur := To(e), env := s.env[e := s.env[e].(runs := s.env[e].runs + 1)]) else s
  }

  function Pri(s: Sys, e: nat): nat {
    if e < |s.env| then s.env[e].pri else 0
  }

  function Schedule(s: Sys, giveUp: bool): Sys {
    var count := s.count - 1;
    if giveUp || count <= 0 || !Runs(s) then
      var q := Rotated(s);
      if q == [] then s else Dispatch(s.(q := q, count := Pri(s, q[0])), q[0])
    else Dispatch(s.(count := count), s.cur.elm)
  }

  // ----- kern/syscall_all.c and kern/env.c

  function Put(s: Sys, e: nat, x: Env): Sys {
    if e < |s.env| then s.(env := s.env[e := x]) else s
  }

  function PutReader(s: Sys, e: nat, u: Reader): Sys {
    if e < |s.reader| then s.(reader := s.reader[e := u]) else s
  }

  function EnvAt(s: Sys, e: nat): Env {
    if e < |s.env| then s.env[e] else Env(FREE, 0, 0, 0, 0, false, 0, 0, 0, {})
  }

  function ReaderAt(s: Sys, e: nat): Reader {
    if e < |s.reader| then s.reader[e] else Reader(Idle, [], [])
  }

  /** sys_set_env_status. */
  function SetStatus(s: Sys, e: nat, status: Status): Sys {
    var s1 := s.(q := if status == RUNNABLE then s.q + [e] else Without(s.q, e));
    Put(s1, e, EnvAt(s, e).(status := status))
  }

  /** The part of sys_ipc_recv before it gives up the CPU. */
  function Block(s: Sys, e: nat, dstva: nat): Sys {
    var s1 := Put(s, e, EnvAt(s, e).(recving := true, dstva := dstva, status := NOT_RUNNABLE));
    PutReader(s1.(q := Without(s.q, e)), e, ReaderAt(s, e).(pc := Waiting))
  }

  /** sys_ipc_try_send up to the page transfer. */
  function Deliver(s: Sys, e: nat, from: nat, value: nat, perm: Perm): Sys {
    if !EnvAt(s, e).recving then s else
    var s1 := Put(s, e, EnvAt(s, e).(value := value, from := from, perm := perm + {V}, recving := false,
                                     status := RUNNABLE));
    PutReader(s1.(q := s.q + [e]), e,
            ReaderAt(s, e).(sent := ReaderAt(s, e).sent + [Msg(from, perm + {V}, value)]))
  }

  /** mkenvid: a serial number above the index of the env. */
  function MkEnvid(serial: nat, e: nat): nat {
    serial * (2 * NENV) + e
  }

  /** env_alloc followed by the rest of sys_exofork or env_create; neither touches env_ipc_recving. */
  function Fresh(s: Sys, e: nat, parent: nat, pri: nat, status: Status): Sys {
    var s1 := Put(s, e, EnvAt(s, e).(status := status, id := MkEnvid(s.serial + 1, e), parent := parent, pri := pri, runs := 0));
    PutReader(s1.(serial := s.serial + 1), e, Reader(Idle, [], []))
  }

  /** The scheduler's side of env_free. */
  function Release(s: Sys, e: nat): Sys {
    var s1 := Put(s, e, EnvAt(s, e).(status := FREE));
    s1.(q := Without(s.q, e))
  }

  datatype Op =
    | Tick(giveUp: bool)                              // timer interrupt or sys_yield
    | Status(e: nat, status: Status)
    | Recv(dstva: nat)
    | Send(e: nat, value: nat, perm: Perm)
    | Exofork(e: nat)
    | Destroy(e: nat)
    | Boot(e: nat, pri: nat)                         // env_create
    | TakeFrom | TakePerm | TakeValue                // ipc_recv reads its own env after waking

  function Step(s: Sys, op: Op): Sys {
    var me := if s.cur.To? then s.cur.elm else 0;
    var u := ReaderAt(s, me);
    match op
    case Tick(giveUp) => Schedule(s, giveUp)
    case Status(e, status) => SetStatus(s, e, status)
    case Recv(dstva) => Schedule(Block(s, me, dstva), true)
    case Send(e, value, perm) => Deliver(s, e, EnvAt(s, me).id, value, perm)
    case Exofork(e) => Fresh(s, e, EnvAt(s, me).id, EnvAt(s, me).pri, NOT_RUNNABLE)
    case Destroy(e) => if s.cur == To(e) then Schedule(Release(s, e).(cur := Null), true) else Release(s, e)
    case Boot(e, pri) => Fresh(s, e, 0, pri, RUNNABLE).(q := [e] + s.q)
    case TakeFrom => PutReader(s, me, u.(pc := HaveFrom(EnvAt(s, me).from)))
    case TakePerm => if u.pc.HaveFrom? then PutReader(s, me, u.(pc := HavePerm(u.pc.from, EnvAt(s, me).perm))) else s
    case TakeValue =>
      if u.pc.HavePerm? then
        PutReader(s, me, Reader(Idle, u.sent, u.got + [Msg(u.pc.from, u.pc.perm, EnvAt(s, me).value)]))
      else s
  }

  /** What the callers guarantee.  The code checks none of: that a status changes, that the env is not
      receiving, that a destroyed env is runnable, and that someone is left to run. */
  predicate Legal(s: Sys, op: Op) {
    var me := if s.cur.To? then s.cur.elm else 0;
    match op
    case Tick(giveUp) => s.q != []
    case Status(e, status) =>
      s.cur.To? && e < |s.env| && s.env[e].status != FREE && status != FREE
      && status != s.env[e].status && !s.env[e].recving
    case Recv(dstva) => Runs(s) && ReaderAt(s, me).pc == Idle && Without(s.q, me) != []
    case Send(e, value, perm) => s.cur.To? && e < |s.env| && s.env[e].status != FREE
    case Exofork(e) => s.cur.To? && e < |s.env| && s.env[e].status == FREE
    case Destroy(e) => e < |s.env| && s.env[e].status == RUNNABLE && (s.cur == To(e) ==> Without(s.q, e) != [])
    case Boot(e, pri) => s.cur.Null? && e < |s.env| && s.env[e].status == FREE
    case TakeFrom => s.cur.To? && ReaderAt(s, me).pc == Waiting
    case TakePerm => s.cur.To? && ReaderAt(s, me).pc.HaveFrom?
    case TakeValue => s.cur.To? && ReaderAt(s, me).pc.HavePerm?
  }

  // ----- the invariant

  /** The message fields of an env hold the one message its receiver has not returned yet. */
  predicate IpcOk(x: Env, u: Reader) {
    var m := Msg(x.from, x.perm, x.value);
    match u.pc
    case Idle => !x.recving && u.sent == u.got
    case Waiting => u.sent == if x.recving then u.got else u.got + [m]
    case HaveFrom(f) => !x.recving && u.sent == u.got + [m] && f == x.from
    case HavePerm(f, p) => !x.recving && u.sent == u.got + [m] && f == x.from && p == x.perm
  }

  predicate EnvOk(s: Sys, e: nat) {
    && (e in s.q <==> e < |s.env| && s.env[e].status == RUNNABLE)
    && (e < |s.env| ==>
          && e < |s.reader|
          && (s.env[e].recving ==> s.env[e].status == NOT_RUNNABLE && s.cur != To(e))
          && IpcOk(s.env[e], s.reader[e])
          && (s.env[e].status != FREE ==> exists n: nat :: 1 <= n <= s.serial && s.env[e].id == MkEnvid(n, e)))
  }

  ghost predicate Inv(s: Sys) {
    && |s.reader| == |s.env| <= NENV
    && Distinct(s.q)
    && (s.cur.To? ==> s.cur.elm < |s.env|)
    && forall e: nat :: EnvOk(s, e)
  }

  lemma MkEnvidIndex(n: nat, e: nat)
    requires e < NENV
    ensures MkEnvid(n, e) % NENV == e && MkEnvid(n, e) / (2 * NENV) == n
  {
    LowBits(2 * n, e);
    HighBits(n, e);
  }

  lemma LowBits(k: nat, e: nat)
    requires e < 1024
    ensures (1024 * k + e) % 1024 == e
  {}

  lemma HighBits(n: nat, e: nat)
    requires e < 2048
    ensures (2048 * n + e) / 2048 == n
  {}

  // ----- every step keeps it

  lemma WithoutDistinct(q: seq<nat>, e: nat)
    requires Distinct(q)
    ensures Distinct(Without(q, e))
  {
    if e in q {
      var k :| 0 <= k < |q| && q[k] == e;
      WithoutAt(q, k);
    }
  }

  lemma AppendDistinct(q: seq<nat>, e: nat)
    requires Distinct(q) && e !in q
    ensures Distinct(q + [e]) && Distinct([e] + q)
    ensures forall x :: x in q + [e] <==> x in q || x == e
  {}

  lemma RotatedSame(s: Sys)
    requires Inv(s)
    ensures Distinct(Rotated(s)) && forall e: nat :: e in Rotated(s) <==> e in s.q
  {
    if Runs(s) {
      var c := s.cur.elm;
      assert EnvOk(s, c);
      WithoutDistinct(s.q, c);
      AppendDistinct(Without(s.q, c), c);
    }
  }

  /** schedule only rotates the list and picks a runnable env; it never picks one that is receiving. */
  lemma ScheduleInv(s: Sys, giveUp: bool)
    requires Inv(s)
    ensures Inv(Schedule(s, giveUp))
    ensures s.q != [] ==> Runs(Schedule(s, giveUp))
  {
    var s' := Schedule(s, giveUp);
    RotatedSame(s);
    if s.q != [] { assert s.q[0] in Rotated(s); }
    var h := s'.cur;
    if Rotated(s) != [] { assert Rotated(s)[0] in s.q && EnvOk(s, Rotated(s)[0]); }
    forall e: nat ensures EnvOk(s', e) {
      assert EnvOk(s, e);
    }
  }

  lemma StatusInv(s: Sys, e: nat, status: Status)
    requires Inv(s) && Legal(s, Op.Status(e, status))
    ensures Inv(SetStatus(s, e, status))
  {
    var s' := SetStatus(s, e, status);
    assert EnvOk(s, e);
    WithoutDistinct(s.q, e);
    if e !in s.q { AppendDistinct(s.q, e); }
    forall x: nat ensures EnvOk(s', x) {
      assert EnvOk(s, x);
    }
  }

  lemma BlockInv(s: Sys, e: nat, dstva: nat)
    requires Inv(s) && s.cur == To(e) && Runs(s) && ReaderAt(s, e).pc == Idle && Without(s.q, e) != []
    ensures Inv(Schedule(Block(s, e, dstva), true))
  {
    var s1 := Block(s, e, dstva);
    assert EnvOk(s, e);
    WithoutDistinct(s.q, e);
    forall x: nat | x != e ensures EnvOk(s1, x) {
      assert EnvOk(s, x);
    }
    assert !Runs(s1) && Rotated(s1) == s1.q && s1.q[0] in s1.q;
    var s' := Schedule(s1, true);
    assert EnvOk(s1, s1.q[0]);
    forall x: nat ensures EnvOk(s', x) {
      assert x != e ==> EnvOk(s1, x);
    }
  }

  lemma DeliverInv(s: Sys, e: nat, from: nat, value: nat, perm: Perm)
    requires Inv(s) && e < |s.env|
    ensures Inv(Deliver(s, e, from, value, perm))
  {
    var s' := Deliver(s, e, from, value, perm);
    assert EnvOk(s, e);
    if s.env[e].recving {
      AppendDistinct(s.q, e);
      forall x: nat ensures EnvOk(s', x) {
        assert EnvOk(s, x);
      }
    }
  }

  lemma FreshInv(s: Sys, e: nat, parent: nat, pri: nat)
    requires Inv(s) && e < |s.env| && s.env[e].status == FREE
    ensures Inv(Fresh(s, e, parent, pri, NOT_RUNNABLE))
    ensures Inv(Fresh(s, e, parent, pri, RUNNABLE).(q := [e] + s.q))
  {
    assert EnvOk(s, e);
    AppendDistinct(s.q, e);
    var a, b := Fresh(s, e, parent, pri, NOT_RUNNABLE), Fresh(s, e, parent, pri, RUNNABLE).(q := [e] + s.q);
    forall x: nat ensures EnvOk(a, x) && EnvOk(b, x) {
      assert EnvOk(s, x);
      if x < |s.env| && a.env[x].status != FREE {
        var n: nat :| 1 <= n <= a.serial && a.env[x].id == MkEnvid(n, x);
      }
    }
  }

  lemma ReleaseInv(s: Sys, e: nat)
    requires Inv(s) && e < |s.env| && s.env[e].status == RUNNABLE
    ensures Inv(Release(s, e)) && Inv(Release(s, e).(cur := Null))
  {
    assert EnvOk(s, e);
    WithoutDistinct(s.q, e);
    forall x: nat ensures EnvOk(Release(s, e), x) && EnvOk(Release(s, e).(cur := Null), x) {
      assert EnvOk(s, x);
    }
  }

  lemma TakeInv(s: Sys, op: Op)
    requires Inv(s) && Legal(s, op) && (op.TakeFrom? || op.TakePerm? || op.TakeValue?)
    ensures Inv(Step(s, op))
  {
    var e := s.cur.elm;
    assert EnvOk(s, e);
    forall x: nat ensures EnvOk(Step(s, op), x) {
      assert EnvOk(s, x);
    }
  }

  lemma StepInv(s: Sys, op: Op)
    requires Inv(s) && Legal(s, op)
    ensures Inv(Step(s, op))
  {
    match op
    case Tick(giveUp) => ScheduleInv(s, giveUp);
    case Status(e, status) => StatusInv(s, e, status);
    case Recv(dstva) => BlockInv(s, s.cur.elm, dstva);
    case Send(e, value, perm) => DeliverInv(s, e, EnvAt(s, s.cur.elm).id, value, perm);
    case Exofork(e) => FreshInv(s, e, EnvAt(s, s.cur.elm).id, EnvAt(s, s.cur.elm).pri);
    case Destroy(e) =>
      ReleaseInv(s, e);
      ScheduleInv(Release(s, e).(cur := Null), true);
    case Boot(e, pri) => FreshInv(s, e, 0, pri);
    case TakeFrom => TakeInv(s, op);
    case TakePerm => TakeInv(s, op);
    case TakeValue => TakeInv(s, op);
  }

  function Run(s: Sys, ops: seq<Op>): Sys
    decreases |ops|
  {
    if ops == [] then s else Run(Step(s, ops[0]), ops[1..])
  }

  predicate LegalRun(s: Sys, ops: seq<Op>)
    decreases |ops|
  {
    ops == [] || (Legal(s, ops[0]) && LegalRun(Step(s, ops[0]), ops[1..]))
  }

  /** Through every run, env_sched_list holds exactly the runnable envs, each once, and a receiving env
      is blocked and not queued. */
  lemma {:induction false} RunInv(s: Sys, ops: seq<Op>)
    requires Inv(s) && LegalRun(s, ops)
    ensures Inv(Run(s, ops))
    decreases |ops|
  {
    if ops != [] {
      StepInv(s, ops[0]);
      RunInv(Step(s, ops[0]), ops[1..]);
    }
  }
}
