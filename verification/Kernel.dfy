/** The env table in place: kern/sched.c and the env half of kern/env.c and kern/syscall_all.c, over the
    linked lists of include/queue.h and the memory of Pmap. */
module Kernel {
  import opened Common
  import opened Mmu
  import opened Queue
  import opened Sched
  import M = Memory
  import EnvMemory
  import MemoryOps
  import MemoryRuns
  import MemoryTheorems
  import SchedTheorems
  import Tlb
  import opened Pmap

  class EnvTable {
    const envs: array<Env>
    const sched: List            // env_sched_list and the env_sched_link fields
    const freeList: List         // env_free_list and the env_link fields
    const mem: Machine
    var curenv: Ptr
    var count: int               // the static counter of schedule
    var serial: nat              // the static counter of mkenvid
    ghost var reader: seq<Reader>
    ghost var q: seq<nat>        // what env_sched_list holds
    ghost var fq: seq<nat>       // what env_free_list holds

    ghost function Sys(): Sys
      reads this, envs
    {
      Sched.Sys(envs[..], reader, q, curenv, count, serial)
    }

    ghost predicate Apart()
      reads this, sched, freeList, mem
    {
      && sched != freeList && sched != mem.list && freeList != mem.list
      && sched.next != freeList.next && sched.prev != freeList.prev
      && sched.next != mem.list.next && sched.prev != mem.list.prev
      && freeList.next != mem.list.next && freeList.prev != mem.list.prev
    }

    /** Both lists are well formed; the run queue is what the abstract state says. */
    ghost predicate Shape()
      reads this, envs, sched, sched.next, sched.prev, freeList, freeList.next, freeList.prev, mem
    {
      && Apart()
      && |sched.Mem().next| == envs.Length == |freeList.Mem().next|
      && Represents(sched.Mem(), q)
      && Linked(freeList.Mem(), fq)
    }

    ghost predicate Good()
      reads this, envs, sched, sched.next, sched.prev, freeList, freeList.next, freeList.prev, mem
    {
      Shape() && Inv(Sys())
    }

    /** The zeroed table, before env_init. */
    constructor (mem: Machine)
      ensures Shape() && this.mem == mem && envs.Length == NENV && fq == []
      ensures Sys() == Sched.Sys(seq(NENV, _ => Blank()), seq(NENV, _ => Reader(Idle, [], [])), [], Null, 0, 0)
      ensures fresh(envs) && fresh(sched) && fresh(sched.next) && fresh(sched.prev)
      ensures fresh(freeList) && fresh(freeList.next) && fresh(freeList.prev)
    {
      envs := new Env[NENV](_ => Blank());
      sched := new List(NENV);
      freeList := new List(NENV);
      this.mem := mem;
      curenv, count, serial := Null, 0, 0;
      reader := seq(NENV, _ => Reader(Idle, [], []));
      q, fq := [], [];
      new;
      assert envs[..] == seq(NENV, _ => Blank());
    }

    /** env_init: every env is free, and the free list runs through envs in order. */
    method EnvInit()
      requires Shape() && fq == [] && envs.Length == NENV
      requires Sys() == Sched.Sys(seq(NENV, _ => Blank()), seq(NENV, _ => Reader(Idle, [], [])), [], Null, 0, 0)
      modifies this`fq, envs, freeList, freeList.next, freeList.prev
      ensures Good() && Sys() == old(Sys())
      ensures |fq| == NENV && forall k :: 0 <= k < NENV ==> fq[k] == k
    {
      ghost var s := Sys();
      var i := NENV;
      while i > 0
        invariant 0 <= i <= NENV
        invariant Shape() && Sys() == s
        invariant |fq| == NENV - i && forall k :: 0 <= k < |fq| ==> fq[k] == i + k
      {
        i := i - 1;
        InsertHeadKeeps(freeList.Mem(), fq, i);
        if fq != [] { assert Cell(freeList.Mem(), fq, 0); }
        envs[i] := envs[i].(status := FREE);
        freeList.ListInsertHead(i);
        fq := [i] + fq;
      }
      forall e: nat ensures EnvOk(s, e) {}
    }

    // ----- kern/sched.c

    /** TAILQ_REMOVE and TAILQ_INSERT_TAIL of the env whose slice is over. */
    method Requeue(e: nat)
      requires Shape() && e in q && e < envs.Length && Distinct(q)
      modifies this`q, sched, sched.next, sched.prev
      ensures Shape() && q == Without(old(q), e) + [e]
    {
      WithoutDistinct(q, e);
      Dequeue(e);
      Enqueue(e);
    }

    method EnvRun(e: nat)
      requires e < envs.Length
      modifies this`curenv, envs
      ensures Sys() == Dispatch(old(Sys()), e)
    {
      curenv := To(e);
      envs[e] := envs[e].(runs := envs[e].runs + 1);
    }

    method Enqueue(e: nat)
      requires Shape() && e !in q && e < envs.Length
      modifies this`q, sched, sched.next, sched.prev
      ensures Shape() && q == old(q) + [e]
    {
      TailReady(sched.Mem(), q);
      InsertTailKeeps(sched.Mem(), q, e);
      sched.TailqInsertTail(e);
      q := q + [e];
    }

    method Dequeue(e: nat)
      requires Shape() && e in q
      modifies this`q, sched, sched.next, sched.prev
      ensures Shape() && q == Without(old(q), e)
    {
      ListRemoval(sched.Mem(), q, e);
      sched.TailqRemove(e);
      q := Without(q, e);
    }

    method Schedule(giveUp: bool)
      requires Shape() && |reader| == envs.Length && Distinct(q)
      requires forall x: nat :: x in q ==> x < envs.Length && envs[x].status == RUNNABLE
      requires curenv.To? ==> curenv.elm < envs.Length
      requires Runs(Sys()) ==> curenv.elm in q
      requires q != []
      modifies this`q, this`curenv, this`count, envs, sched, sched.next, sched.prev
      ensures Shape() && Sys() == Sched.Schedule(old(Sys()), giveUp)
    {
      ghost var s := Sys();
      assert SchedTheorems.Queued(s);
      count := count - 1;
      if giveUp || count <= 0 || curenv.Null? || envs[curenv.elm].status != RUNNABLE {
        if curenv.To? && envs[curenv.elm].status == RUNNABLE {
          Requeue(curenv.elm);
        }
        RotationHead(s);
        var e := sched.first.elm;
        count := envs[e].pri;
        EnvRun(e);
      } else {
        EnvRun(curenv.elm);
      }
    }

    // ----- kern/syscall_all.c

    method EnvidToEnv(envid: nat, checkperm: bool) returns (rc: int, e: nat)
      requires Inv(Sys()) && envs.Length == NENV && curenv.To?
      ensures rc == 0 || rc == -E_BAD_ENV
      ensures rc == 0 <==> SchedTheorems.Envid2Env(Sys(), envid, checkperm).To?
      ensures rc == 0 ==> SchedTheorems.Envid2Env(Sys(), envid, checkperm) == To(e) && e < envs.Length
    {
      if envid == 0 {
        return 0, curenv.elm;
      }
      e := envid % NENV;
      if envs[e].status == FREE || envs[e].id != envid {
        return -E_BAD_ENV, 0;
      }
      if checkperm {
        if !(envs[e].id == envs[curenv.elm].id || envs[e].parent == envs[curenv.elm].id) {
          return -E_BAD_ENV, 0;
        }
      }
      rc := 0;
    }

    method SysSetEnvStatus(e: nat, status: Status)
      requires Good() && Legal(Sys(), Op.Status(e, status))
      modifies this`q, envs, sched, sched.next, sched.prev
      ensures Good() && Sys() == SetStatus(old(Sys()), e, status)
    {
      StatusInv(Sys(), e, status);
      assert EnvOk(Sys(), e);
      if status == RUNNABLE {
        Enqueue(e);
      } else {
        Dequeue(e);
      }
      envs[e] := envs[e].(status := status);
    }

    /** sys_ipc_recv up to the point where it gives up the CPU. */
    method IpcBlock(e: nat, dstva: nat)
      requires Shape() && e in q && e < envs.Length == |reader|
      modifies this`q, this`reader, envs, sched, sched.next, sched.prev
      ensures Shape() && Sys() == Block(old(Sys()), e, dstva)
    {
      IpcWait(e, dstva);
      reader := reader[e := reader[e].(pc := Waiting)];
      Dequeue(e);
    }

    method IpcWait(e: nat, dstva: nat)
      requires e < envs.Length
      modifies envs
      ensures envs[..] == old(envs[..])[e := old(envs[e]).(recving := true, dstva := dstva, status := NOT_RUNNABLE)]
    {
      envs[e] := envs[e].(recving := true);
      envs[e] := envs[e].(dstva := dstva);
      envs[e] := envs[e].(status := NOT_RUNNABLE);
    }

    /** sys_ipc_recv once dstva has been checked. */
    method IpcSleep(dstva: nat)
      requires Good() && Legal(Sys(), Recv(dstva))
      modifies this`q, this`curenv, this`count, this`reader, envs, sched, sched.next, sched.prev
      ensures Good() && Sys() == Step(old(Sys()), Recv(dstva))
    {
      ghost var s := Sys();
      StepInv(s, Recv(dstva));
      SchedTheorems.InvQueued(s);
      WithoutDistinct(s.q, s.cur.elm);
      assert EnvOk(s, curenv.elm);
      IpcBlock(curenv.elm, dstva);
      Schedule(true);
    }

    /** sys_ipc_try_send on the env e that envid2env found, up to the page transfer. */
    method IpcDeliver(e: nat, value: nat, perm: Perm) returns (rc: int)
      requires Good() && Legal(Sys(), Send(e, value, perm))
      modifies this`q, this`reader, envs, sched, sched.next, sched.prev
      ensures Good() && Sys() == Step(old(Sys()), Send(e, value, perm))
      ensures rc == if old(envs[e].recving) then 0 else -E_IPC_NOT_RECV
    {
      ghost var s := Sys();
      StepInv(s, Send(e, value, perm));
      if !envs[e].recving {
        return -E_IPC_NOT_RECV;
      }
      assert EnvOk(s, e) && EnvOk(s, curenv.elm);
      var from := envs[curenv.elm].id;
      IpcFill(e, value, from, perm);
      reader := reader[e := reader[e].(sent := reader[e].sent + [Msg(from, perm + {V}, value)])];
      Enqueue(e);
      rc := 0;
    }

    method IpcFill(e: nat, value: nat, from: nat, perm: Perm)
      requires e < envs.Length
      modifies envs
      ensures envs[..] == old(envs[..])[e := old(envs[e]).(value := value, from := from, perm := perm + {V},
                                                           recving := false, status := RUNNABLE)]
    {
      envs[e] := envs[e].(value := value);
      envs[e] := envs[e].(from := from);
      envs[e] := envs[e].(perm := perm + {V});
      envs[e] := envs[e].(recving := false);
      envs[e] := envs[e].(status := RUNNABLE);
    }

    // ----- the env table and the memory together

    ghost function Repr(): set<object>
      reads this, mem, mem.list, sched, freeList
    {
      {this, envs, sched, sched.next, sched.prev, freeList, freeList.next, freeList.prev}
    }

    ghost function MemRepr(): set<object>
      reads this, mem, mem.list
    {
      {mem, mem.ref, mem.word, mem.list, mem.list.next, mem.list.prev, mem.asidBitmap}
    }

    /** Table and memory are each in order. */
    ghost predicate Half()
      reads Repr(), MemRepr(), this, mem, mem.list, sched, freeList
    {
      Repr() !! MemRepr() && Good() && mem.Shape() && Tlb.Sound(mem.S())
    }

    ghost predicate K()
      reads Repr(), MemRepr(), this, mem, mem.list, sched, freeList
    {
      Half() && Joined(envs[..], mem.envs, fq)
    }

    /** sys_ipc_recv. */
    method SysIpcRecv(dstva: nat) returns (rc: int)
      requires K() && Legal(Sys(), Recv(dstva))
      modifies this`q, this`curenv, this`count, this`reader, envs, sched, sched.next, sched.prev
      ensures K() && mem.S() == old(mem.S())
      ensures rc == if dstva != 0 && IllegalVa(VaOf(dstva)) then -E_INVAL else 0
      ensures Sys() == if rc == 0 then Step(old(Sys()), Recv(dstva)) else old(Sys())
    {
      if dstva != 0 && IllegalVa(VaOf(dstva)) {
        return -E_INVAL;
      }
      ghost var s := Sys();
      IpcSleep(dstva);
      JoinedRecv(s, mem.envs, fq, dstva);
      rc := 0;
    }

    /** The page half of sys_ipc_try_send: share the sender's page at srcva with e. */
    method IpcPage(e: nat, srcva: Va, perm: Perm) returns (rc: int)
      requires K() && curenv.To? && curenv.elm in mem.envs && e in mem.envs && e < envs.Length
      requires User(srcva) && User(VaOf(envs[e].dstva)) && G !in perm
      requires Valid(M.Pt(mem.S().pt, curenv.elm, srcva)) ==>
        MemoryTheorems.CanCount(mem.S(), M.Pt(mem.S().pt, curenv.elm, srcva).ppn)
      modifies MemRepr()
      ensures K() && Sys() == old(Sys())
      ensures Valid(M.Pt(old(mem.S()).pt, curenv.elm, srcva)) ==>
        var (s', ok) := M.MemMap(old(mem.S()), curenv.elm, srcva, e, VaOf(envs[e].dstva), perm);
        && mem.S() == s' && rc == (if ok then 0 else -E_NO_MEM)
        && (ok ==> M.Pt(mem.S().pt, e, VaOf(envs[e].dstva)) == Pte(M.Pt(old(mem.S()).pt, curenv.elm, srcva).ppn, perm + {V}))
      ensures !Valid(M.Pt(old(mem.S()).pt, curenv.elm, srcva)) ==> rc == -E_INVAL && mem.S() == old(mem.S())
    {
      rc := MapPage(curenv.elm, srcva, e, VaOf(envs[e].dstva), perm);
    }

    method MapPage(me: nat, srcva: Va, e: nat, dv: Va, perm: Perm) returns (rc: int)
      requires mem.Shape() && Tlb.Sound(mem.S()) && me in mem.envs && e in mem.envs && User(srcva) && User(dv) && G !in perm
      requires Valid(M.Pt(mem.S().pt, me, srcva)) ==> MemoryTheorems.CanCount(mem.S(), M.Pt(mem.S().pt, me, srcva).ppn)
      modifies MemRepr()
      ensures mem.Shape() && Tlb.Sound(mem.S()) && mem.envs == old(mem.envs)
      ensures Valid(M.Pt(old(mem.S()).pt, me, srcva)) ==>
        var (s', ok) := M.MemMap(old(mem.S()), me, srcva, e, dv, perm);
        && mem.S() == s' && rc == (if ok then 0 else -E_NO_MEM)
        && (ok ==> M.Pt(mem.S().pt, e, dv) == Pte(M.Pt(old(mem.S()).pt, me, srcva).ppn, perm + {V}))
      ensures !Valid(M.Pt(old(mem.S()).pt, me, srcva)) ==> rc == -E_INVAL && mem.S() == old(mem.S())
    {
      ghost var s := mem.S();
      MemoryTheorems.MemMapSound(s, me, srcva, e, dv, perm);
      var found, pp, pte := mem.PageLookup(mem.envs[me].dir, srcva, me, mem.envs[me].asid);
      if !found {
        return -E_INVAL;
      }
      MemoryOps.EntryCounted(s, 0, me, srcva);
      MemoryOps.InsertEffect(s, e, pp, dv, perm, e, dv);
      rc := mem.PageInsert(mem.envs[e].dir, mem.envs[e].asid, pp, dv, perm, e);
    }

    /** sys_ipc_try_send on the env e that envid2env found.  The receiver is woken with the value before
        the page is looked up, so an error about the page still delivers the message. */
    method SysIpcTrySend(e: nat, value: nat, withPage: bool, srcva: Va, perm: Perm) returns (rc: int)
      requires K() && Legal(Sys(), Send(e, value, perm)) && G !in perm && srcva.ptx < NPTE
      requires curenv.elm in mem.envs
      requires withPage && User(srcva) && Valid(M.Pt(mem.S().pt, curenv.elm, srcva)) ==>
        MemoryTheorems.CanCount(mem.S(), M.Pt(mem.S().pt, curenv.elm, srcva).ppn)
      modifies this`q, this`reader, envs, sched, sched.next, sched.prev, MemRepr()
      ensures K()
      ensures withPage && IllegalVa(srcva) ==> rc == -E_INVAL && Sys() == old(Sys()) && mem.S() == old(mem.S())
      ensures !(withPage && IllegalVa(srcva)) ==> Sys() == Step(old(Sys()), Send(e, value, perm))
      ensures !(withPage && IllegalVa(srcva)) && !old(envs[e].recving) ==>
        rc == -E_IPC_NOT_RECV && mem.S() == old(mem.S())
      ensures old(envs[e].recving) && !withPage ==> rc == 0 && mem.S() == old(mem.S())
      ensures curenv == old(curenv) && envs[e].dstva == old(envs[e].dstva)
      ensures withPage && !IllegalVa(srcva) && old(envs[e].recving) ==>
        var s := old(mem.S());
        if !Valid(M.Pt(s.pt, curenv.elm, srcva)) then rc == -E_INVAL && mem.S() == s
        else
          var (s', ok) := M.MemMap(s, curenv.elm, srcva, e, VaOf(envs[e].dstva), perm);
          && mem.S() == s' && rc == (if ok then 0 else -E_NO_MEM)
          && (ok ==> M.Pt(s'.pt, e, VaOf(envs[e].dstva)) == Pte(M.Pt(s.pt, curenv.elm, srcva).ppn, perm + {V}))
      ensures Sent(Sys(), mem.S(), rc) == TrySend(old(Sys()), old(mem.S()), e, value, withPage, srcva, perm)
    {
      if withPage && IllegalVa(srcva) {
        return -E_INVAL;
      }
      assert InStep(envs[..], mem.envs, fq, e) && EnvOk(Sys(), e);
      rc := IpcDeliverMessage(e, value, perm);
      if rc == 0 && withPage {
        rc := IpcPage(e, srcva, perm);
      }
    }

    method IpcDeliverMessage(e: nat, value: nat, perm: Perm) returns (rc: int)
      requires K() && Legal(Sys(), Send(e, value, perm))
      modifies this`q, this`reader, envs, sched, sched.next, sched.prev
      ensures K() && mem.S() == old(mem.S()) && Sys() == Step(old(Sys()), Send(e, value, perm))
      ensures rc == if old(envs[e].recving) then 0 else -E_IPC_NOT_RECV
      ensures envs[e].dstva == old(envs[e].dstva) && curenv == old(curenv)
    {
      ghost var s := Sys();
      rc := IpcDeliver(e, value, perm);
      JoinedSame(s.env, envs[..], mem.envs, fq);
    }

    /** sys_exofork: env_alloc takes the head of env_free_list; its page directory may not fit. */
    method SysExofork() returns (rc: int, e: nat)
      requires K() && curenv.To?
      requires exists a: nat :: a < NASID && a !in Asids(mem.asidBitmap[..])
      modifies this`fq, this`reader, this`serial, envs, freeList, freeList.next, freeList.prev, MemRepr()
      ensures K()
      ensures rc < 0 ==> Sys() == old(Sys()) && mem.S() == old(mem.S())
      ensures old(fq) == [] <==> rc == -E_NO_FREE_ENV
      ensures rc >= 0 ==>
        && old(fq) != [] && e == old(fq)[0] && Legal(old(Sys()), Exofork(e)) && Sys() == Step(old(Sys()), Exofork(e))
        && e < envs.Length && rc == envs[e].id && exists a: nat :: mem.S() == M.EnvAlloc(old(mem.S()), e, a)
    {
      if freeList.first.Null? {
        assert fq == [];
        return -E_NO_FREE_ENV, 0;
      }
      e := freeList.first.elm;
      assert Cell(freeList.Mem(), fq, 0) && e == fq[0] && e in fq;
      assert InStep(envs[..], mem.envs, fq, e);
      ghost var s, live, free := Sys(), mem.envs, fq;
      ghost var a;
      rc, a := AllocMemory(e);
      if rc != 0 {
        return rc, e;
      }
      AdoptBeside(e);
      JoinedAdopt(s, live, mem.envs, free, e);
      rc := envs[e].id;
    }

    /** env_create before the image is loaded; env_alloc must not fail. */
    method EnvCreate(pri: nat) returns (e: nat)
      requires K() && curenv.Null? && fq != [] && mem.free != []
      requires exists a: nat :: a < NASID && a !in Asids(mem.asidBitmap[..])
      modifies this`fq, this`q, this`reader, this`serial, envs, sched, sched.next, sched.prev
      modifies freeList, freeList.next, freeList.prev, MemRepr()
      ensures K() && e == old(fq)[0] && fq == old(fq)[1..]
      ensures Legal(old(Sys()), Op.Boot(e, pri)) && Sys() == Step(old(Sys()), Op.Boot(e, pri))
      ensures exists a: nat :: mem.S() == M.EnvAlloc(old(mem.S()), e, a)
    {
      e := freeList.first.elm;
      assert Cell(freeList.Mem(), fq, 0) && e == fq[0] && e in fq;
      assert InStep(envs[..], mem.envs, fq, e);
      ghost var s, live, free := Sys(), mem.envs, fq;
      ghost var a;
      var rc;
      rc, a := AllocMemory(e);
      assert rc == 0;
      CreateBeside(e, pri);
      JoinedBoot(s, live, mem.envs, free, e, pri);
    }

    method CreateBeside(e: nat, pri: nat)
      requires Half() && fq != [] && fq[0] == e && Legal(Sys(), Op.Boot(e, pri))
      modifies this`fq, this`q, this`reader, this`serial, envs, sched, sched.next, sched.prev
      modifies freeList, freeList.next, freeList.prev
      ensures Half() && Sys() == Step(old(Sys()), Op.Boot(e, pri)) && fq == old(fq)[1..]
      ensures mem.S() == old(mem.S()) && mem.envs == old(mem.envs)
    {
      Create(e, pri);
    }

    /** The env table's half of env_create. */
    method Create(e: nat, pri: nat)
      requires Good() && fq != [] && fq[0] == e && Legal(Sys(), Op.Boot(e, pri))
      modifies this`fq, this`q, this`reader, this`serial, envs, sched, sched.next, sched.prev
      modifies freeList, freeList.next, freeList.prev
      ensures Good() && Sys() == Step(old(Sys()), Op.Boot(e, pri)) && fq == old(fq)[1..]
    {
      StepInv(Sys(), Op.Boot(e, pri));
      assert EnvOk(Sys(), e);
      FillBoot(e, pri);
      Admit(e);
    }

    /** The env leaves env_free_list and enters env_sched_list at its head. */
    method Admit(e: nat)
      requires Shape() && e !in q && e < envs.Length && fq != [] && fq[0] == e
      modifies this`fq, this`q, sched, sched.next, sched.prev, freeList, freeList.next, freeList.prev
      ensures Shape() && q == [e] + old(q) && fq == old(fq)[1..]
    {
      Unfree(e);
      EnqueueHead(e);
    }

    /** The fields env_alloc and env_create set. */
    method FillBoot(e: nat, pri: nat)
      requires e < envs.Length && e < |reader|
      modifies this`serial, this`reader, envs
      ensures Sys() == Fresh(old(Sys()), e, 0, pri, RUNNABLE)
    {
      serial := serial + 1;
      envs[e] := envs[e].(runs := 0, id := MkEnvid(serial, e), parent := 0);
      envs[e] := envs[e].(pri := pri);
      envs[e] := envs[e].(status := RUNNABLE);
      reader := reader[e := Reader(Idle, [], [])];
    }

    method EnqueueHead(e: nat)
      requires Shape() && e !in q && e < envs.Length
      modifies this`q, sched, sched.next, sched.prev
      ensures Shape() && q == [e] + old(q)
    {
      if q != [] { assert Cell(sched.Mem(), q, 0); }
      InsertHeadKeeps(sched.Mem(), q, e);
      sched.TailqInsertHead(e);
      q := [e] + q;
    }

    /** The env table's half of sys_exofork. */
    method Adopt(e: nat)
      requires Good() && fq != [] && fq[0] == e && Legal(Sys(), Exofork(e))
      modifies this`fq, this`reader, this`serial, envs, freeList, freeList.next, freeList.prev
      ensures Good() && Sys() == Step(old(Sys()), Exofork(e)) && fq == old(fq)[1..]
    {
      StepInv(Sys(), Exofork(e));
      assert EnvOk(Sys(), e) && EnvOk(Sys(), curenv.elm);
      FillEnv(e);
      Unfree(e);
    }

    /** The fields sys_exofork and env_alloc set. */
    method FillEnv(e: nat)
      requires e < envs.Length && curenv.To? && curenv.elm < envs.Length && e < |reader|
      modifies this`serial, this`reader, envs
      ensures Sys() == Fresh(old(Sys()), e, old(envs[curenv.elm]).id, old(envs[curenv.elm]).pri, NOT_RUNNABLE)
    {
      var parent, pri := envs[curenv.elm].id, envs[curenv.elm].pri;
      serial := serial + 1;
      envs[e] := envs[e].(runs := 0, id := MkEnvid(serial, e), parent := parent);
      envs[e] := envs[e].(status := NOT_RUNNABLE, pri := pri);
      reader := reader[e := Reader(Idle, [], [])];
    }

    method Unfree(e: nat)
      requires Shape() && fq != [] && fq[0] == e
      modifies this`fq, freeList, freeList.next, freeList.prev
      ensures Shape() && fq == old(fq)[1..]
    {
      TakeFirst(freeList.Mem(), fq);
      freeList.ListRemove(e);
      fq := fq[1..];
    }

    method PutFree(e: nat)
      requires Shape() && e < envs.Length && e !in fq
      modifies this`fq, freeList, freeList.next, freeList.prev
      ensures Shape() && fq == [e] + old(fq)
    {
      if fq != [] { assert Cell(freeList.Mem(), fq, 0); }
      InsertHeadKeeps(freeList.Mem(), fq, e);
      freeList.ListInsertHead(e);
      fq := [e] + fq;
    }

    /** The env table's half of env_free. */
    method ReleaseEnv(e: nat)
      requires Good() && e < envs.Length && envs[e].status == RUNNABLE && e !in fq
      modifies this`q, this`fq, envs, sched, sched.next, sched.prev, freeList, freeList.next, freeList.prev
      ensures Good() && Sys() == Release(old(Sys()), e) && fq == [e] + old(fq)
    {
      ReleaseInv(Sys(), e);
      assert EnvOk(Sys(), e);
      envs[e] := envs[e].(status := FREE);
      PutFree(e);
      Dequeue(e);
    }

    method ReleaseBeside(e: nat)
      requires Half() && e < envs.Length && envs[e].status == RUNNABLE && e !in fq
      modifies this`q, this`fq, envs, sched, sched.next, sched.prev, freeList, freeList.next, freeList.prev
      ensures Half() && Sys() == Release(old(Sys()), e) && fq == [e] + old(fq)
      ensures mem.S() == old(mem.S()) && mem.envs == old(mem.envs)
    {
      ReleaseEnv(e);
    }

    method AdoptBeside(e: nat)
      requires Half() && fq != [] && fq[0] == e && Legal(Sys(), Exofork(e))
      modifies this`fq, this`reader, this`serial, envs, freeList, freeList.next, freeList.prev
      ensures Half() && Sys() == Step(old(Sys()), Exofork(e)) && fq == old(fq)[1..]
      ensures mem.S() == old(mem.S()) && mem.envs == old(mem.envs)
    {
      Adopt(e);
    }

    /** env_free. */
    method DoEnvFree(e: nat)
      requires K() && e < envs.Length && envs[e].status == RUNNABLE
      modifies this`q, this`fq, envs, sched, sched.next, sched.prev, freeList, freeList.next, freeList.prev, MemRepr()
      ensures K() && Sys() == Release(old(Sys()), e) && mem.S() == M.EnvFree(old(mem.S()), e)
    {
      ghost var s, live, free := Sys(), mem.envs, fq;
      assert InStep(s.env, live, fq, e) && EnvOk(s, e);
      FreeMemory(e);
      ReleaseBeside(e);
      JoinedRelease(s, live, free, e);
    }

    method FreeMemory(e: nat)
      requires Half() && e in mem.envs
      modifies MemRepr()
      ensures Half() && mem.S() == M.EnvFree(old(mem.S()), e) && mem.envs == old(mem.envs) - {e}
      ensures Sys() == old(Sys()) && q == old(q) && fq == old(fq)
    {
      FreePages(e);
    }

    method FreePages(e: nat)
      requires mem.Shape() && Tlb.Sound(mem.S()) && e in mem.envs
      modifies MemRepr()
      ensures mem.Shape() && Tlb.Sound(mem.S()) && mem.S() == M.EnvFree(old(mem.S()), e)
      ensures mem.envs == old(mem.envs) - {e}
    {
      MemoryRuns.EnvFreeSound(mem.S(), e);
      mem.DoEnvFree(e);
    }

    method AllocMemory(e: nat) returns (rc: int, ghost a: nat)
      requires Half() && e !in mem.envs
      requires exists a: nat :: a < NASID && a !in Asids(mem.asidBitmap[..])
      modifies MemRepr()
      ensures Half() && Sys() == old(Sys()) && q == old(q) && fq == old(fq)
      ensures rc == if old(mem.free) == [] then -E_NO_MEM else 0
      ensures rc != 0 ==> mem.S() == old(mem.S())
      ensures rc == 0 ==> mem.S() == M.EnvAlloc(old(mem.S()), e, a) && mem.envs.Keys == old(mem.envs).Keys + {e}
    {
      ghost var s := mem.S();
      var asid;
      rc, asid := mem.EnvAllocate(e);
      a := asid;
      if rc == 0 {
        EnvMemory.EnvAllocEffect(s, e, a, e, Va(0, 0));
      }
    }

    /** The death of curenv: nothing is left to save, and schedule picks another env. */
    method Succeed()
      requires K() && q != [] && curenv.Null?
      modifies this`q, this`curenv, this`count, envs, sched, sched.next, sched.prev
      ensures K() && Sys() == Sched.Schedule(old(Sys()), true) && mem.S() == old(mem.S())
    {
      ScheduleInv(Sys(), true);
      SchedTheorems.InvQueued(Sys());
      ghost var s := Sys();
      Schedule(true);
      JoinedSame(s.env, envs[..], mem.envs, fq);
    }

    /** env_destroy. */
    method EnvDestroy(e: nat)
      requires K() && Legal(Sys(), Destroy(e))
      modifies this`q, this`fq, this`curenv, this`count, envs, sched, sched.next, sched.prev
      modifies freeList, freeList.next, freeList.prev, MemRepr()
      ensures K() && Sys() == Step(old(Sys()), Destroy(e)) && mem.S() == M.EnvFree(old(mem.S()), e)
    {
      ReleaseInv(Sys(), e);
      DoEnvFree(e);
      if curenv == To(e) {
        ClearCurenv();
        Succeed();
      }
    }

    method ClearCurenv()
      requires K() && Inv(Sys().(cur := Null))
      modifies this`curenv
      ensures K() && Sys() == old(Sys()).(cur := Null) && mem.S() == old(mem.S())
    {
      curenv := Null;
    }
  }

  /** What a call of sys_ipc_try_send leaves behind. */
  datatype Sent = Sent(sys: Sys, mem: M.Mem, rc: int)

  /** sys_ipc_try_send on the env e that envid2env found; withPage stands for srcva != 0. */
  function TrySend(s: Sys, m: M.Mem, e: nat, value: nat, withPage: bool, srcva: Va, perm: Perm): Sent {
    var me := if s.cur.To? then s.cur.elm else 0;
    var s' := Step(s, Send(e, value, perm));
    if withPage && IllegalVa(srcva) then Sent(s, m, -E_INVAL)
    else if !EnvAt(s, e).recving then Sent(s', m, -E_IPC_NOT_RECV)
    else if !withPage then Sent(s', m, 0)
    else if !Valid(M.Pt(m.pt, me, srcva)) then Sent(s', m, -E_INVAL)
    else
      var (m', ok) := M.MemMap(m, me, srcva, e, VaOf(EnvAt(s, e).dstva), perm);
      Sent(s', m', if ok then 0 else -E_NO_MEM)
  }

  /** The live envs are those with a status, the others are on env_free_list, and a receiving env waits
      for a page at an address is_illegal_va accepts. */
  ghost predicate InStep(env: seq<Env>, live: map<nat, M.Space>, fq: seq<nat>, e: nat) {
    && (e in live <==> e < |env| && env[e].status != FREE)
    && (e in fq <==> e < |env| && env[e].status == FREE)
    && (e < |env| && env[e].recving ==> User(VaOf(env[e].dstva)))
  }

  ghost predicate Joined(env: seq<Env>, live: map<nat, M.Space>, fq: seq<nat>) {
    forall e: nat :: InStep(env, live, fq, e)
  }

  lemma JoinedSame(env: seq<Env>, env': seq<Env>, live: map<nat, M.Space>, fq: seq<nat>)
    requires Joined(env, live, fq) && |env'| == |env|
    requires forall e :: 0 <= e < |env| ==>
      (env'[e].status == FREE <==> env[e].status == FREE) && (env'[e].recving ==> env[e].recving) && env'[e].dstva == env[e].dstva
    ensures Joined(env', live, fq)
  {
    forall e: nat ensures InStep(env', live, fq, e) {
      assert InStep(env, live, fq, e);
    }
  }

  lemma JoinedRecv(s: Sys, live: map<nat, M.Space>, fq: seq<nat>, dstva: nat)
    requires Joined(s.env, live, fq) && Legal(s, Recv(dstva)) && (dstva != 0 ==> !IllegalVa(VaOf(dstva)))
    ensures Joined(Step(s, Recv(dstva)).env, live, fq)
  {
    forall x: nat ensures InStep(Step(s, Recv(dstva)).env, live, fq, x) {
      assert InStep(s.env, live, fq, x);
    }
  }

  lemma JoinedAdopt(s: Sys, live: map<nat, M.Space>, live': map<nat, M.Space>, fq: seq<nat>, e: nat)
    requires Joined(s.env, live, fq) && fq != [] && fq[0] == e && Distinct(fq) && live'.Keys == live.Keys + {e}
    requires Legal(s, Exofork(e))
    ensures Joined(Step(s, Exofork(e)).env, live', fq[1..])
  {
    forall x: nat ensures InStep(Step(s, Exofork(e)).env, live', fq[1..], x) {
      assert InStep(s.env, live, fq, x);
      assert fq == [e] + fq[1..];
    }
  }

  lemma JoinedBoot(s: Sys, live: map<nat, M.Space>, live': map<nat, M.Space>, fq: seq<nat>, e: nat, pri: nat)
    requires Joined(s.env, live, fq) && fq != [] && fq[0] == e && Distinct(fq) && live'.Keys == live.Keys + {e}
    requires Legal(s, Op.Boot(e, pri))
    ensures Joined(Step(s, Op.Boot(e, pri)).env, live', fq[1..])
  {
    forall x: nat ensures InStep(Step(s, Op.Boot(e, pri)).env, live', fq[1..], x) {
      assert InStep(s.env, live, fq, x);
      assert fq == [e] + fq[1..];
    }
  }

  lemma JoinedRelease(s: Sys, live: map<nat, M.Space>, fq: seq<nat>, e: nat)
    requires Joined(s.env, live, fq) && e < |s.env| && s.env[e].status == RUNNABLE && !s.env[e].recving
    ensures Joined(Release(s, e).env, live - {e}, [e] + fq)
  {
    forall x: nat ensures InStep(Release(s, e).env, live - {e}, [e] + fq, x) {
      assert InStep(s.env, live, fq, x);
    }
  }

  /** An env slot in zeroed memory. */
  function Blank(): Env {
    Env(FREE, 0, 0, 0, 0, false, 0, 0, 0, {})
  }

  lemma RotationHead(s: Sys)
    requires SchedTheorems.Queued(s) && s.q != []
    ensures Rotated(s) != [] && Rotated(s)[0] in s.q
  {
    if Runs(s) {
      assert Rotated(s)[0] in Rotated(s);
    }
  }

  /** A queued element can be unlinked. */
  lemma ListRemoval(c: Chain, q: seq<nat>, e: nat)
    requires Represents(c, q) && e in q
    ensures Slot(c, e) && Addressable(c, c.prev[e])
    ensures c.next[e].To? ==> c.next[e].elm < |c.prev|
    ensures Represents(Removed(c, e), Without(q, e)) && |Removed(c, e).next| == |c.next|
  {
    RemoveKeeps(c, q, e);
    var k :| 0 <= k < |q| && q[k] == e;
    assert Cell(c, q, k);
    if k > 0 { assert Cell(c, q, k - 1); }
    if k + 1 < |q| { assert Cell(c, q, k + 1); }
  }

  lemma TailReady(c: Chain, q: seq<nat>)
    requires Represents(c, q)
    ensures Addressable(c, c.last)
  {
    if q != [] { assert Cell(c, q, |q| - 1); }
  }
}
