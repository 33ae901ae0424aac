/** How long an env keeps the CPU, what a new env inherits, and whom an env id names. */
module SchedRuns {
  import opened Common
  import opened Queue
  import opened Sched
  import opened SchedTheorems

  // ----- one call of schedule

  /** curenv has just been given the CPU as head of the list, with its priority as slice. */
  predicate Starts(s: Sys) {
    Runs(s) && s.count == s.env[s.cur.elm].pri
  }

  /** schedule leaves a runnable curenv on the CPU exactly when it does not yield and its slice is not used
      up; otherwise curenv goes to the tail and the next in line starts a slice of its own priority. */
  lemma SwitchExact(s: Sys, giveUp: bool)
    requires Inv(s) && Runs(s) && Without(s.q, s.cur.elm) != []
    ensures var s', e, rest := Schedule(s, giveUp), s.cur.elm, Without(s.q, s.cur.elm);
      && (s'.cur == To(e) <==> !giveUp && s.count > 1)
      && (s'.cur == To(e) ==> s'.count == s.count - 1 && s'.q == s.q)
      && (s'.cur != To(e) ==> s'.cur == To(rest[0]) && s'.q == rest + [e] && s'.count == s.env[rest[0]].pri)
  {
    var e, rest := s.cur.elm, Without(s.q, s.cur.elm);
    assert rest[0] in rest && EnvOk(s, rest[0]);
    assert EnvOk(s, e);
  }

  /** Alone on the list, curenv starts again with a full slice. */
  lemma AloneExact(s: Sys, giveUp: bool)
    requires Inv(s) && Runs(s) && Without(s.q, s.cur.elm) == []
    ensures var s' := Schedule(s, giveUp);
      s'.cur == s.cur && s'.count == if !giveUp && s.count > 1 then s.count - 1 else s.env[s.cur.elm].pri
  {
    assert EnvOk(s, s.cur.elm);
  }

  /** When nobody runs, the head of the list is dispatched. */
  lemma PickExact(s: Sys, giveUp: bool)
    requires Inv(s) && !Runs(s) && s.q != []
    ensures var s' := Schedule(s, giveUp); s'.cur == To(s.q[0]) && s'.q == s.q && s'.count == s.env[s.q[0]].pri
  {
    assert s.q[0] in s.q && EnvOk(s, s.q[0]);
  }

  /** Every dispatch counts in env_runs of the env it puts on the CPU, and of no other. */
  lemma DispatchCounts(s: Sys, giveUp: bool, x: nat)
    requires Inv(s) && s.q != [] && x < |s.env|
    ensures var s' := Schedule(s, giveUp);
      s'.cur.To? && s'.env[x].runs == s.env[x].runs + if s'.cur == To(x) then 1 else 0
  {
    RotatedSame(s);
    assert s.q[0] in Rotated(s) && Rotated(s)[0] in s.q && EnvOk(s, Rotated(s)[0]);
  }

  // ----- a slice over a whole run

  /** Steps in which e neither yields, blocks nor dies, and nobody changes its status. */
  predicate Steady(op: Op, e: nat) {
    match op
    case Tick(giveUp) => !giveUp
    case Recv(dstva) => false
    case Status(x, status) => x != e
    case Destroy(x) => x != e
    case _ => true
  }

  predicate SteadyRun(ops: seq<Op>, e: nat) {
    forall k :: 0 <= k < |ops| ==> Steady(ops[k], e)
  }

  function Ticks(ops: seq<Op>): nat
    decreases |ops|
  {
    if ops == [] then 0 else (if ops[0].Tick? then 1 else 0) + Ticks(ops[1..])
  }

  lemma SteadyStep(s: Sys, op: Op)
    requires Inv(s) && Legal(s, op) && Runs(s) && Steady(op, s.cur.elm) && (op.Tick? ==> s.count > 1)
    ensures var s' := Step(s, op);
      Inv(s') && Runs(s') && s'.cur == s.cur && s'.count == s.count - (if op.Tick? then 1 else 0)
  {
    StepInv(s, op);
    assert EnvOk(s, s.cur.elm);
    if op.Tick? { InvQueued(s); }
  }

  lemma {:induction false} SteadyKeeps(s: Sys, ops: seq<Op>)
    requires Inv(s) && LegalRun(s, ops) && Runs(s) && SteadyRun(ops, s.cur.elm)
    requires Ticks(ops) < s.count || Ticks(ops) == 0
    ensures var t := Run(s, ops);
      Inv(t) && Runs(t) && t.cur == s.cur && t.count == s.count - Ticks(ops)
    decreases |ops|
  {
    if ops != [] {
      assert Steady(ops[0], s.cur.elm);
      SteadyStep(s, ops[0]);
      forall k | 0 <= k < |ops[1..]| ensures Steady(ops[1..][k], s.cur.elm) { assert Steady(ops[k + 1], s.cur.elm); }
      SteadyKeeps(Step(s, ops[0]), ops[1..]);
    }
  }

  /** An env that starts its slice keeps the CPU through exactly max(1, env_pri) calls of schedule that find
      it willing: through all but the last it stays curenv, and at the last it makes way if another env is
      queued. */
  lemma SliceExact(s: Sys, ops: seq<Op>)
    requires Inv(s) && Starts(s) && LegalRun(s, ops) && SteadyRun(ops, s.cur.elm)
    ensures var t, pri := Run(s, ops), s.env[s.cur.elm].pri; var slice := if pri > 1 then pri else 1;
      Ticks(ops) < slice ==>
        && Runs(t) && t.cur == s.cur
        && (Without(t.q, s.cur.elm) != [] ==> (Schedule(t, false).cur == s.cur <==> Ticks(ops) + 1 < slice))
        && (Without(t.q, s.cur.elm) != [] && Ticks(ops) + 1 == slice ==>
              Schedule(t, false).cur == To(Without(t.q, s.cur.elm)[0]) && Starts(Schedule(t, false)))
  {
    var pri := s.env[s.cur.elm].pri;
    if Ticks(ops) < if pri > 1 then pri else 1 {
      SteadyKeeps(s, ops);
      var t := Run(s, ops);
      if Without(t.q, s.cur.elm) != [] { SwitchFresh(t, false); }
    }
  }

  lemma SwitchFresh(s: Sys, giveUp: bool)
    requires Inv(s) && Runs(s) && Without(s.q, s.cur.elm) != []
    ensures var s', e, rest := Schedule(s, giveUp), s.cur.elm, Without(s.q, s.cur.elm);
      && (s'.cur == To(e) <==> !giveUp && s.count > 1)
      && (s'.cur != To(e) ==> s'.cur == To(rest[0]) && Starts(s'))
  {
    SwitchExact(s, giveUp);
    InvQueued(s);
    var e, rest := s.cur.elm, Without(s.q, s.cur.elm);
    assert rest[0] in rest;
    WithoutDistinct(s.q, e);
  }

  // ----- env ids

  /** curenv, if set, is a live env. */
  predicate CurLive(s: Sys) {
    s.cur.To? ==> s.cur.elm < |s.env| && s.env[s.cur.elm].status != FREE
  }

  lemma StepCurLive(s: Sys, op: Op)
    requires Inv(s) && CurLive(s) && Legal(s, op)
    ensures CurLive(Step(s, op))
  {
    StepInv(s, op);
    match op
    case Tick(giveUp) => ScheduleInv(s, giveUp);
    case Recv(dstva) =>
      WithoutDistinct(s.q, s.cur.elm);
      assert Without(s.q, s.cur.elm)[0] in s.q && EnvOk(s, Without(s.q, s.cur.elm)[0]);
    case Destroy(e) =>
      if s.cur == To(e) {
        ReleaseInv(s, e);
        ScheduleInv(Release(s, e).(cur := Null), true);
      }
    case _ =>
  }

  lemma {:induction false} RunCurLive(s: Sys, ops: seq<Op>)
    requires Inv(s) && CurLive(s) && LegalRun(s, ops)
    ensures CurLive(Run(s, ops))
    decreases |ops|
  {
    if ops != [] {
      StepCurLive(s, ops[0]);
      StepInv(s, ops[0]);
      RunCurLive(Step(s, ops[0]), ops[1..]);
    }
  }

  predicate Live(s: Sys, e: nat) {
    e < |s.env| && s.env[e].status != FREE
  }

  /** Whom an env id names: 0 is the caller; any other id is the live env that carries it, and with the
      permission check only if that is the caller or one whose parent is the caller. */
  lemma EnvidNames(s: Sys, envid: nat, checkperm: bool, e: nat)
    requires Inv(s) && CurLive(s) && s.cur.To?
    ensures Envid2Env(s, envid, checkperm) == To(e) <==>
      if envid == 0 then s.cur == To(e)
      else Live(s, e) && s.env[e].id == envid
           && (checkperm ==> s.cur == To(e) || s.env[e].parent == s.env[s.cur.elm].id)
  {
    if envid != 0 {
      EnvidExact(s, envid, e);
      EnvidExact(s, envid, s.cur.elm);
      assert EnvOk(s, e) && EnvOk(s, s.cur.elm);
    }
  }

  /** What sys_exofork gives the child: the caller's id as parent, the caller's priority, a new id. */
  lemma Born(s: Sys, c: nat)
    requires Inv(s) && CurLive(s) && Legal(s, Exofork(c))
    ensures var s', p := Step(s, Exofork(c)), s.cur.elm;
      && Live(s', c) && s'.env[c].status == NOT_RUNNABLE && s'.env[c].runs == 0
      && s'.env[c].parent == s.env[p].id && s'.env[c].pri == s.env[p].pri
      && s'.env[c].id != 0 && (forall x: nat :: Live(s, x) ==> s.env[x].id != s'.env[c].id)
      && s'.cur == s.cur && s'.env[p] == s.env[p]
  {
    var s' := Step(s, Exofork(c));
    StepInv(s, Exofork(c));
    assert EnvOk(s, s.cur.elm) && EnvOk(s', c);
    forall x: nat | Live(s, x) ensures s.env[x].id != s'.env[c].id {
      assert EnvOk(s, x);
      var n: nat :| 1 <= n <= s.serial && s.env[x].id == MkEnvid(n, x);
      MkEnvidIndex(n, x);
      MkEnvidIndex(s.serial + 1, c);
    }
  }

  /** What env_create gives: no parent and the priority it was called with. */
  lemma BootBorn(s: Sys, c: nat, pri: nat)
    requires Inv(s) && Legal(s, Op.Boot(c, pri))
    ensures var s' := Step(s, Op.Boot(c, pri));
      Live(s', c) && s'.env[c].status == RUNNABLE && s'.env[c].parent == 0 && s'.env[c].pri == pri && s'.env[c].runs == 0
  {}

  /** The id, parent and priority of a live env stay until it dies. */
  predicate Same(s: Sys, s': Sys, c: nat) {
    Live(s, c) && Live(s', c) && s'.env[c].id == s.env[c].id && s'.env[c].parent == s.env[c].parent && s'.env[c].pri == s.env[c].pri
  }

  lemma SameStep(s: Sys, op: Op, c: nat)
    requires Inv(s) && Legal(s, op) && Live(s, c) && op != Destroy(c)
    ensures Same(s, Step(s, op), c)
  {
    match op
    case Tick(giveUp) => SameSchedule(s, giveUp, c);
    case Recv(dstva) => SameSchedule(Block(s, s.cur.elm, dstva), true, c);
    case Destroy(e) => if s.cur == To(e) { SameSchedule(Release(s, e).(cur := Null), true, c); }
    case _ =>
  }

  lemma SameSchedule(s: Sys, giveUp: bool, c: nat)
    requires Live(s, c)
    ensures Same(s, Schedule(s, giveUp), c)
  {}

  lemma {:induction false} SameRun(s: Sys, ops: seq<Op>, c: nat)
    requires Inv(s) && LegalRun(s, ops) && Live(s, c) && Destroy(c) !in ops
    ensures Same(s, Run(s, ops), c)
    decreases |ops|
  {
    if ops != [] {
      SameStep(s, ops[0], c);
      StepInv(s, ops[0]);
      SameRun(Step(s, ops[0]), ops[1..], c);
    }
  }

  /** The id sys_exofork returns names the child for its creator, with the permission check, for as long as
      both live and whatever else happens. */
  lemma ChildResolves(s: Sys, c: nat, ops: seq<Op>)
    requires Inv(s) && CurLive(s) && Legal(s, Exofork(c)) && LegalRun(Step(s, Exofork(c)), ops)
    requires Destroy(c) !in ops && Destroy(s.cur.elm) !in ops
    ensures var s1 := Step(s, Exofork(c)); var t := Run(s1, ops);
      t.cur == s.cur ==> Envid2Env(t, s1.env[c].id, true) == To(c)
  {
    var s1 := Step(s, Exofork(c));
    var t := Run(s1, ops);
    Born(s, c);
    StepInv(s, Exofork(c));
    SameRun(s1, ops, c);
    SameRun(s1, ops, s.cur.elm);
    RunInv(s1, ops);
    StepCurLive(s, Exofork(c));
    RunCurLive(s1, ops);
    if t.cur == s.cur { EnvidNames(t, s1.env[c].id, true, c); }
  }

  // ----- where a receiver waits for its page

  /** e waits for a message, and for a page at dstva. */
  predicate Awaits(s: Sys, e: nat, dstva: nat) {
    Live(s, e) && s.env[e].recving && s.env[e].dstva == dstva
  }

  predicate SendsTo(op: Op, e: nat) {
    op.Send? && op.e == e
  }

  lemma AwaitsStep(s: Sys, op: Op, e: nat, dstva: nat)
    requires Inv(s) && Legal(s, op) && Awaits(s, e, dstva) && !SendsTo(op, e)
    ensures Awaits(Step(s, op), e, dstva)
  {
    assert EnvOk(s, e);
    match op
    case Tick(giveUp) => AwaitsSchedule(s, giveUp, e, dstva);
    case Recv(d) => AwaitsSchedule(Block(s, s.cur.elm, d), true, e, dstva);
    case Destroy(x) => if s.cur == To(x) { AwaitsSchedule(Release(s, x).(cur := Null), true, e, dstva); }
    case _ =>
  }

  lemma AwaitsSchedule(s: Sys, giveUp: bool, e: nat, dstva: nat)
    requires Awaits(s, e, dstva)
    ensures Awaits(Schedule(s, giveUp), e, dstva)
  {}

  /** The address given to sys_ipc_recv stands until a send to that env. */
  lemma {:induction false} AwaitsRun(s: Sys, ops: seq<Op>, e: nat, dstva: nat)
    requires Inv(s) && LegalRun(s, ops) && Awaits(s, e, dstva) && forall k :: 0 <= k < |ops| ==> !SendsTo(ops[k], e)
    ensures Awaits(Run(s, ops), e, dstva)
    decreases |ops|
  {
    if ops != [] {
      assert !SendsTo(ops[0], e);
      AwaitsStep(s, ops[0], e, dstva);
      StepInv(s, ops[0]);
      forall k | 0 <= k < |ops[1..]| ensures !SendsTo(ops[1..][k], e) { assert !SendsTo(ops[k + 1], e); }
      AwaitsRun(Step(s, ops[0]), ops[1..], e, dstva);
    }
  }

  /** From the call of sys_ipc_recv to the send that ends it, the env waits at the address it gave. */
  lemma RecvAwaits(s: Sys, dstva: nat, ops: seq<Op>)
    requires Inv(s) && Legal(s, Recv(dstva)) && LegalRun(Step(s, Recv(dstva)), ops)
    requires forall k :: 0 <= k < |ops| ==> !SendsTo(ops[k], s.cur.elm)
    ensures Awaits(Run(Step(s, Recv(dstva)), ops), s.cur.elm, dstva)
  {
    var e := s.cur.elm;
    assert EnvOk(s, e);
    StepInv(s, Recv(dstva));
    AwaitsSchedule(Block(s, e, dstva), true, e, dstva);
    AwaitsRun(Step(s, Recv(dstva)), ops, e, dstva);
  }
}
