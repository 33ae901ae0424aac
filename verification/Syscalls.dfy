/** The system calls that name an env by id, over the env table and the memory together, and the start-up
    that brings both into the state they expect (init/init.c, kern/syscall_all.c). */
module Syscalls {
  import opened Common
  import opened Mmu
  import opened Queue
  import opened Sched
  import opened SchedTheorems
  import opened SchedRuns
  import opened Pmap
  import opened Kernel
  import M = Memory
  import MemoryInv
  import MemoryTheorems
  import MemoryWords
  import Tlb

  /** Zeroed kernel memory. */
  function Zero(): Sys {
    Sched.Sys(seq(NENV, _ => Blank()), seq(NENV, _ => Reader(Idle, [], [])), [], Null, 0, 0)
  }

  /** A system call is under way: the env that made it is the live curenv. */
  ghost predicate Calling(k: EnvTable)
    reads k, k.Repr(), k.MemRepr(), k.mem, k.mem.list, k.sched, k.freeList
  {
    k.K() && k.envs.Length == NENV && k.curenv.To? && k.curenv.elm in k.mem.envs
  }

  /** mips_vm_init and page_init. */
  method BringMemory(npage: nat, used: nat, tmpl: seq<Pte>) returns (mem: Machine)
    requires used <= npage && |tmpl| == 2 && forall i :: 0 <= i < 2 ==> Valid(tmpl[i]) && tmpl[i].ppn < used
    ensures fresh(mem) && fresh(mem.ref) && fresh(mem.word) && fresh(mem.list) && fresh(mem.list.next)
    ensures fresh(mem.list.prev) && fresh(mem.asidBitmap)
    ensures mem.Shape() && Tlb.Sound(mem.S())
    ensures |mem.free| == npage - used && mem.S().asids == {} && mem.envs == map[]
  {
    mem := new Machine.VmInit(npage, used, tmpl);
    mem.PageInit(used);
    NoAsids(mem.asidBitmap[..]);
  }

  /** env_init beside the memory. */
  method BringTable(mem: Machine) returns (k: EnvTable)
    ensures fresh(k) && fresh(k.Repr()) && k.mem == mem && k.Good() && k.Sys() == Zero()
    ensures k.envs.Length == NENV && |k.fq| == NENV && forall i :: 0 <= i < NENV ==> k.fq[i] == i
  {
    k := new EnvTable(mem);
    k.EnvInit();
  }

  /** mips_vm_init, page_init and env_init. */
  method Bring(npage: nat, used: nat, tmpl: seq<Pte>) returns (k: EnvTable)
    requires used <= npage && |tmpl| == 2 && forall i :: 0 <= i < 2 ==> Valid(tmpl[i]) && tmpl[i].ppn < used
    ensures fresh(k) && fresh(k.Repr()) && fresh(k.MemRepr()) && k.K() && k.Sys() == Zero()
    ensures k.envs.Length == NENV && |k.fq| == NENV && forall i :: 0 <= i < NENV ==> k.fq[i] == i
    ensures |k.mem.free| == npage - used && k.mem.S().asids == {}
  {
    var mem := BringMemory(npage, used, tmpl);
    k := BringTable(mem);
    NoneLive(k.envs[..], k.fq);
  }

  lemma NoneLive(env: seq<Env>, fq: seq<nat>)
    requires env == seq(NENV, _ => Blank()) && |fq| == NENV && forall i :: 0 <= i < NENV ==> fq[i] == i
    ensures Joined(env, map[], fq)
  {
    forall e: nat ensures InStep(env, map[], fq, e) {
      if e < NENV { assert fq[e] in fq; }
    }
  }

  /** mips_init and the first timer interrupt: user_icode and fs_serv are created with priority 1, and the
      one created last, now at the head of the run queue, is dispatched. */
  method MipsInit(npage: nat, used: nat, tmpl: seq<Pte>) returns (k: EnvTable)
    requires used + 2 <= npage && |tmpl| == 2 && forall i :: 0 <= i < 2 ==> Valid(tmpl[i]) && tmpl[i].ppn < used
    ensures fresh(k) && Calling(k)
    ensures LegalRun(Zero(), Start()) && k.Sys() == Run(Zero(), Start())
    ensures k.curenv == To(1) && k.q == [1, 0]
  {
    k := Bring(npage, used, tmpl);
    FirstTwo(k);
    StartRun();
    k.Succeed();
    assert InStep(k.envs[..], k.mem.envs, k.fq, 1);
  }

  method FirstTwo(k: EnvTable)
    requires k.K() && k.Sys() == Zero() && |k.fq| >= 2 && k.fq[0] == 0 && k.fq[1] == 1
    requires |k.mem.free| >= 2 && k.mem.S().asids == {}
    modifies k`fq, k`q, k`reader, k`serial, k.envs, k.sched, k.sched.next, k.sched.prev
    modifies k.freeList, k.freeList.next, k.freeList.prev, k.MemRepr()
    ensures k.K() && k.Sys() == Step(Step(Zero(), Op.Boot(0, 1)), Op.Boot(1, 1))
  {
    ghost var m := k.mem.S();
    assert 0 !in m.asids;
    var icode := k.EnvCreate(1);
    SpareAsid(m, k.mem.S(), icode);
    var fs := k.EnvCreate(1);
  }

  /** What mips_init and the first interrupt do to the env table. */
  function Start(): seq<Op> {
    [Op.Boot(0, 1), Op.Boot(1, 1), Tick(false)]
  }

  lemma StartRun()
    ensures LegalRun(Zero(), Start())
    ensures var s := Step(Step(Zero(), Op.Boot(0, 1)), Op.Boot(1, 1));
      s.cur == Null && s.q == [1, 0] && Run(Zero(), Start()) == Sched.Schedule(s, true)
    ensures var s := Run(Zero(), Start());
      s.q == [1, 0] && s.cur == To(1) && |s.env| == NENV && s.env[1].status == RUNNABLE
  {
    var s1 := Step(Zero(), Op.Boot(0, 1));
    var s2 := Step(s1, Op.Boot(1, 1));
    var ops := Start();
    assert ops[1..] == [Op.Boot(1, 1), Tick(false)] && ops[1..][1..] == [Tick(false)];
    assert Run(Zero(), ops) == Run(s1, ops[1..]) == Run(s2, ops[1..][1..]);
  }

  lemma SpareAsid(m: M.Mem, m': M.Mem, e: nat)
    requires Tlb.Sound(m) && m.asids == {} && |m.free| >= 2 && exists a: nat :: m' == M.EnvAlloc(m, e, a)
    ensures |m'.free| == |m.free| - 1 && exists a: nat :: a < NASID && a !in m'.asids
  {
    var a: nat :| m' == M.EnvAlloc(m, e, a);
    assert m.free[0] in m.free && MemoryInv.FreeOk(m.ref, m.role, m.free[0]);
    assert m'.free == m.free[1..];
    assert m'.asids == m.asids + {a};
    var b: nat := if a == 0 then 1 else 0;
    assert b < NASID && b !in m'.asids;
  }

  // ----- kern/syscall_all.c: envid2env with its permission check comes before the rest

  /** The caller may act on e under this id: 0 is itself, any other id is that of itself or of a child. */
  predicate Permitted(s: Sys, envid: nat, e: nat) {
    s.cur.To? && s.cur.elm < |s.env| &&
    if envid == 0 then s.cur == To(e)
    else Live(s, e) && s.env[e].id == envid && (s.cur == To(e) || s.env[e].parent == s.env[s.cur.elm].id)
  }

  /** What envid names for the caller. */
  ghost function Named(k: EnvTable, envid: nat): (r: Ptr)
    requires Calling(k)
    reads k, k.Repr(), k.MemRepr(), k.mem, k.mem.list, k.sched, k.freeList
    ensures forall e: nat :: r == To(e) <==> Permitted(k.Sys(), envid, e)
  {
    CallingLive(k);
    forall e: nat ensures Envid2Env(k.Sys(), envid, true) == To(e) <==> Permitted(k.Sys(), envid, e) {
      EnvidNames(k.Sys(), envid, true, e);
    }
    Envid2Env(k.Sys(), envid, true)
  }

  lemma CallingLive(k: EnvTable)
    requires Calling(k)
    ensures Inv(k.Sys()) && CurLive(k.Sys()) && k.Sys().cur.To?
  {
    assert InStep(k.envs[..], k.mem.envs, k.fq, k.curenv.elm);
  }

  method Resolve(k: EnvTable, envid: nat) returns (rc: int, e: nat)
    requires Calling(k)
    ensures rc == if Named(k, envid).To? then 0 else -E_BAD_ENV
    ensures rc == 0 ==> Named(k, envid) == To(e) && e in k.mem.envs && e < NENV
  {
    rc, e := k.EnvidToEnv(envid, true);
    assert InStep(k.envs[..], k.mem.envs, k.fq, e);
  }

  /** page_lookup at the source, then page_insert of that page at the destination. */
  ghost predicate Mapped(s: M.Mem, s': M.Mem, rc: int, src: nat, sv: Va, dst: nat, dv: Va, perm: Perm) {
    var (s1, ok) := M.MemMap(s, src, sv, dst, dv, perm);
    if !Valid(M.Pt(s.pt, src, sv)) then rc == -E_INVAL && s' == s
    else s' == s1 && rc == if ok then 0 else -E_NO_MEM
  }

  // The memory halves, with the env table beside them.

  method AllocFor(k: EnvTable, e: nat, v: Va, perm: Perm) returns (rc: int)
    requires k.K() && e in k.mem.envs && v.ptx < NPTE && G !in perm && !IllegalVa(v)
    modifies k.MemRepr()
    ensures k.K() && k.Sys() == old(k.Sys()) && k.mem.envs == old(k.mem.envs)
    ensures var (s', ok) := M.MemAlloc(old(k.mem.S()), e, v, perm);
      k.mem.S() == s' && rc == if ok then 0 else -E_NO_MEM
    ensures rc == 0 ==> MemoryWords.ReadsZero(k.mem.S(), e, v)
  {
    if M.MemAlloc(k.mem.S(), e, v, perm).1 { MemoryWords.AllocReadsZero(k.mem.S(), e, v, perm); }
    rc := k.mem.SysMemAlloc(e, v, perm);
  }

  method MapFor(k: EnvTable, src: nat, sv: Va, dst: nat, dv: Va, perm: Perm) returns (rc: int)
    requires k.K() && src in k.mem.envs && dst in k.mem.envs && sv.ptx < NPTE && dv.ptx < NPTE && G !in perm
    requires !IllegalVa(sv) && !IllegalVa(dv)
    requires Valid(M.Pt(k.mem.S().pt, src, sv)) ==> MemoryTheorems.CanCount(k.mem.S(), M.Pt(k.mem.S().pt, src, sv).ppn)
    modifies k.MemRepr()
    ensures k.K() && k.Sys() == old(k.Sys()) && k.mem.envs == old(k.mem.envs)
    ensures Mapped(old(k.mem.S()), k.mem.S(), rc, src, sv, dst, dv, perm)
  {
    rc := k.mem.SysMemMap(src, sv, dst, dv, perm);
  }

  method UnmapFor(k: EnvTable, e: nat, v: Va) returns (rc: int)
    requires k.K() && e in k.mem.envs && v.ptx < NPTE && !IllegalVa(v)
    modifies k.MemRepr()
    ensures k.K() && k.Sys() == old(k.Sys()) && k.mem.envs == old(k.mem.envs)
    ensures rc == 0 && k.mem.S() == M.Unmap(old(k.mem.S()), e, v)
  {
    rc := k.mem.SysMemUnmap(e, v);
  }

  /** sys_mem_alloc. */
  method SysMemAlloc(k: EnvTable, envid: nat, v: Va, perm: Perm) returns (rc: int)
    requires Calling(k) && v.ptx < NPTE && G !in perm
    modifies k.MemRepr()
    ensures Calling(k) && k.Sys() == old(k.Sys())
    ensures IllegalVa(v) ==> rc == -E_INVAL && k.mem.S() == old(k.mem.S())
    ensures !IllegalVa(v) && Named(k, envid).Null? ==> rc == -E_BAD_ENV && k.mem.S() == old(k.mem.S())
    ensures !IllegalVa(v) && Named(k, envid).To? ==>
      var (s', ok) := M.MemAlloc(old(k.mem.S()), Named(k, envid).elm, v, perm);
      k.mem.S() == s' && rc == if ok then 0 else -E_NO_MEM
    ensures rc == 0 ==> Named(k, envid).To? && MemoryWords.ReadsZero(k.mem.S(), Named(k, envid).elm, v)
  {
    if IllegalVa(v) {
      return -E_INVAL;
    }
    var e;
    rc, e := Resolve(k, envid);
    if rc != 0 {
      return rc;
    }
    rc := AllocFor(k, e, v, perm);
  }

  /** sys_mem_map. */
  method SysMemMap(k: EnvTable, srcid: nat, sv: Va, dstid: nat, dv: Va, perm: Perm) returns (rc: int)
    requires Calling(k) && sv.ptx < NPTE && dv.ptx < NPTE && G !in perm
    requires !IllegalVa(sv) && Named(k, srcid).To? ==>
      var w := M.Pt(k.mem.S().pt, Named(k, srcid).elm, sv);
      Valid(w) ==> MemoryTheorems.CanCount(k.mem.S(), w.ppn)
    modifies k.MemRepr()
    ensures Calling(k) && k.Sys() == old(k.Sys())
    ensures IllegalVa(sv) || IllegalVa(dv) ==> rc == -E_INVAL && k.mem.S() == old(k.mem.S())
    ensures !IllegalVa(sv) && !IllegalVa(dv) && (Named(k, srcid).Null? || Named(k, dstid).Null?) ==>
      rc == -E_BAD_ENV && k.mem.S() == old(k.mem.S())
    ensures !IllegalVa(sv) && !IllegalVa(dv) && Named(k, srcid).To? && Named(k, dstid).To? ==>
      Mapped(old(k.mem.S()), k.mem.S(), rc, Named(k, srcid).elm, sv, Named(k, dstid).elm, dv, perm)
  {
    if IllegalVa(sv) || IllegalVa(dv) {
      return -E_INVAL;
    }
    var src, dst;
    rc, src := Resolve(k, srcid);
    if rc != 0 {
      return rc;
    }
    rc, dst := Resolve(k, dstid);
    if rc != 0 {
      return rc;
    }
    rc := MapFor(k, src, sv, dst, dv, perm);
  }

  /** sys_mem_unmap. */
  method SysMemUnmap(k: EnvTable, envid: nat, v: Va) returns (rc: int)
    requires Calling(k) && v.ptx < NPTE
    modifies k.MemRepr()
    ensures Calling(k) && k.Sys() == old(k.Sys())
    ensures rc == if IllegalVa(v) then -E_INVAL else if Named(k, envid).Null? then -E_BAD_ENV else 0
    ensures k.mem.S() == if rc == 0 then M.Unmap(old(k.mem.S()), Named(k, envid).elm, v) else old(k.mem.S())
  {
    if IllegalVa(v) {
      return -E_INVAL;
    }
    var e;
    rc, e := Resolve(k, envid);
    if rc != 0 {
      return rc;
    }
    rc := UnmapFor(k, e, v);
  }
}
