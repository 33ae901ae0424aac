/** From sys_ipc_recv to the page that arrives, over the env table and the memory (kern/syscall_all.c). */
module Ipc {
  import opened Common
  import opened Mmu
  import opened Queue
  import opened Sched
  import opened SchedRuns
  import opened Kernel
  import M = Memory
  import MemoryTheorems
  import Tlb

  /** The message is in the env of e, which is runnable and last in the queue. */
  predicate Delivered(t: Sys, t': Sys, e: nat, value: nat, perm: Perm) {
    && Live(t', e) && t.cur.To? && t.cur.elm < |t.env|
    && t'.env[e].value == value && t'.env[e].from == t.env[t.cur.elm].id && t'.env[e].perm == perm + {V}
    && !t'.env[e].recving && t'.env[e].status == RUNNABLE && t'.q == t.q + [e]
  }

  /** The page of me at srcva is mapped in e at v, or the code says why not. */
  predicate Shared(m: M.Mem, m': M.Mem, rc: int, me: nat, srcva: Va, e: nat, v: Va, perm: Perm) {
    var w := M.Pt(m.pt, me, srcva);
    && (rc == 0 <==> Valid(w) && MemoryTheorems.TableRoom(m, e, v, 0))
    && (rc == 0 ==> M.Pt(m'.pt, e, v) == Pte(w.ppn, perm + {V}))
    && (rc != 0 ==> rc == if Valid(w) then -E_NO_MEM else -E_INVAL)
  }

  /** What sys_ipc_try_send asks of its caller's memory. */
  ghost predicate CanSend(m: M.Mem, me: nat, srcva: Va, e: nat, v: Va, perm: Perm) {
    && Tlb.Sound(m) && me in m.pt.envs && e in m.pt.envs && User(srcva) && User(v) && G !in perm
    && (Valid(M.Pt(m.pt, me, srcva)) ==> MemoryTheorems.CanCount(m, M.Pt(m.pt, me, srcva).ppn))
  }

  /** The state when somebody sends to the env that called sys_ipc_recv(dstva) in s, after any other steps. */
  ghost predicate Meeting(s: Sys, dstva: nat, ops: seq<Op>, t: Sys) {
    && Inv(s) && Legal(s, Recv(dstva)) && LegalRun(Step(s, Recv(dstva)), ops)
    && (forall k :: 0 <= k < |ops| ==> !SendsTo(ops[k], s.cur.elm))
    && t == Run(Step(s, Recv(dstva)), ops) && t.cur.To?
  }

  lemma MeetingAwaits(s: Sys, dstva: nat, ops: seq<Op>, t: Sys)
    requires Meeting(s, dstva, ops, t)
    ensures Inv(t) && Awaits(t, s.cur.elm, dstva)
  {
    RecvAwaits(s, dstva, ops);
    StepInv(s, Recv(dstva));
    RunInv(Step(s, Recv(dstva)), ops);
  }

  lemma SendFinds(t: Sys, dstva: nat, m: M.Mem, e: nat, value: nat, srcva: Va, perm: Perm)
    requires Inv(t) && Awaits(t, e, dstva) && t.cur.To? && CanSend(m, t.cur.elm, srcva, e, VaOf(dstva), perm)
    requires !IllegalVa(srcva)
    ensures var x := TrySend(t, m, e, value, true, srcva, perm);
      Shared(m, x.mem, x.rc, t.cur.elm, srcva, e, VaOf(dstva), perm) && x.sys == Step(t, Send(e, value, perm))
  {
    MemoryTheorems.MemMapSound(m, t.cur.elm, srcva, e, VaOf(dstva), perm);
  }

  lemma SendDelivers(t: Sys, dstva: nat, e: nat, value: nat, perm: Perm)
    requires Inv(t) && Awaits(t, e, dstva) && t.cur.To?
    ensures Delivered(t, Step(t, Send(e, value, perm)), e, value, perm)
  {
    assert EnvOk(t, e);
  }

  /** Whatever runs between the two calls, a message with a page reaches the receiver at the address it gave
      to sys_ipc_recv: the page table entry there names the sender's frame.  The value, the sender's id and
      the permission are in its env, and it can run again, even if the page fails. */
  lemma PageArrives(s: Sys, dstva: nat, ops: seq<Op>, t: Sys, m: M.Mem, value: nat, srcva: Va, perm: Perm)
    requires Meeting(s, dstva, ops, t) && !IllegalVa(srcva)
    requires CanSend(m, t.cur.elm, srcva, s.cur.elm, VaOf(dstva), perm)
    ensures var x := TrySend(t, m, s.cur.elm, value, true, srcva, perm);
      && Shared(m, x.mem, x.rc, t.cur.elm, srcva, s.cur.elm, VaOf(dstva), perm)
      && Delivered(t, x.sys, s.cur.elm, value, perm)
  {
    MeetingAwaits(s, dstva, ops, t);
    SendFinds(t, dstva, m, s.cur.elm, value, srcva, perm);
    SendDelivers(t, dstva, s.cur.elm, value, perm);
  }

  /** Without a page the memory stays as it was. */
  lemma ValueArrives(s: Sys, dstva: nat, ops: seq<Op>, t: Sys, m: M.Mem, value: nat, srcva: Va, perm: Perm)
    requires Meeting(s, dstva, ops, t)
    ensures var x := TrySend(t, m, s.cur.elm, value, false, srcva, perm);
      x.rc == 0 && x.mem == m && Delivered(t, x.sys, s.cur.elm, value, perm)
  {
    MeetingAwaits(s, dstva, ops, t);
    SendDelivers(t, dstva, s.cur.elm, value, perm);
  }
}
