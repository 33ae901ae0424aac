/** The TLB caches only current translations, so an ASID can be handed out again once it is free. */
module Tlb {
  import opened Mmu
  import opened Memory
  import opened MemoryInv
  import opened MemoryOps
  import opened EnvMemory

  /** Pages that every address space translates alike: the kernel template and its UVPT image. */
  predicate Shared(v: Va) {
    v.ptx < NPTE && (v.pdx == 509 || v.pdx == 510 || (v.pdx == PDX_UVPT && (v.ptx == 509 || v.ptx == 510)))
  }

  function SharedPt(t: Tables, v: Va): Pte
    requires |t.tmpl| == 2 && Shared(v)
  {
    if v.pdx == PDX_UVPT then t.tmpl[v.ptx - 509] else
    var d := t.tmpl[v.pdx - 509];
    if Valid(d) then Rd(t, d.ppn, v.ptx) else Zero
  }

  /** The UVPT window onto directory words above PDX(UVPT), which env_free does not flush. */
  predicate Far(v: Va) {
    v.pdx == PDX_UVPT && v.ptx > PDX_UVPT
  }

  /** An entry tagged with the ASID of live env e is what a walk of e's tables gives. */
  predicate LiveOk(s: Mem, a: nat, v: Va, e: nat) {
    !Far(v) && (a, v) in s.tlb && e in s.pt.envs && s.pt.envs[e].asid == a ==> s.tlb[(a, v)] == Pt(s.pt, e, v)
  }

  /** An entry tagged with a free ASID can only translate a shared page. */
  predicate DeadOk(s: Mem, a: nat, v: Va) {
    !Far(v) && (a, v) in s.tlb && a !in s.asids ==>
      |s.pt.tmpl| == 2 && Shared(v) && s.tlb[(a, v)] == SharedPt(s.pt, v)
  }

  predicate EntryOk(s: Mem, a: nat, v: Va) {
    (a, v) in s.tlb ==> Known(v) && Valid(s.tlb[(a, v)])
  }

  ghost predicate Coherent(s: Mem) {
    && (forall a: nat, v: Va :: EntryOk(s, a, v))
    && (forall a: nat, v: Va, e: nat :: LiveOk(s, a, v, e))
    && (forall a: nat, v: Va :: DeadOk(s, a, v))
  }

  ghost predicate Sound(s: Mem) {
    Inv(s) && Coherent(s)
  }

  lemma SharedWalk(s: Mem, e: nat, v: Va)
    requires Inv(s) && e in s.pt.envs && Shared(v)
    ensures Pt(s.pt, e, v) == SharedPt(s.pt, v)
  {
    assert EnvOk(s.role, s.pt, s.asids, e);
  }

  /** Translations that the new TLB still holds, or that all spaces share, have not changed. */
  predicate Steady(s: Mem, s': Mem, e: nat, v: Va) {
    e in s.pt.envs && Known(v) && !Far(v) && ((Asid(s, e), v) in s'.tlb || Shared(v)) ==> Agree(s.pt, s'.pt, e, v)
  }

  predicate Shrunk(s: Mem, s': Mem, k: TlbKey) {
    k in s'.tlb ==> k in s.tlb && s'.tlb[k] == s.tlb[k]
  }

  lemma CoherentStep(s: Mem, s': Mem, e: nat)
    requires Sound(s) && Inv(s') && e in s.pt.envs
    requires s'.pt.envs == s.pt.envs && s'.asids == s.asids
    requires forall k: TlbKey :: Shrunk(s, s', k)
    requires forall e': nat, v: Va :: Steady(s, s', e', v)
    ensures Coherent(s')
  {
    forall a: nat, v: Va ensures EntryOk(s', a, v) && DeadOk(s', a, v) {
      assert EntryOk(s, a, v) && DeadOk(s, a, v) && Shrunk(s, s', (a, v));
      if !Far(v) && (a, v) in s'.tlb && a !in s'.asids {
        SharedWalk(s, e, v);
        SharedWalk(s', e, v);
        assert Steady(s, s', e, v);
      }
    }
    forall a: nat, v: Va, e': nat ensures LiveOk(s', a, v, e') {
      assert EntryOk(s, a, v) && LiveOk(s, a, v, e') && Shrunk(s, s', (a, v)) && Steady(s, s', e', v);
    }
  }

  // ----- kern/pmap.c

  lemma UnmapSound(s: Mem, e: nat, v: Va)
    requires Sound(s) && e in s.pt.envs && User(v)
    ensures Sound(Unmap(s, e, v))
  {
    var s' := Unmap(s, e, v);
    UnmapKeeps(s, e, v);
    UnmapEffect(s, e, v, e, v);
    if Valid(Pt(s.pt, e, v)) {
      forall e': nat, v': Va ensures Steady(s, s', e', v') {
        UnmapEffect(s, e, v, e', v');
      }
      forall k: TlbKey ensures Shrunk(s, s', k) {}
      CoherentStep(s, s', e);
    }
  }

  lemma PageAllocSound(s: Mem, e: nat)
    requires Sound(s) && s.free != [] && e in s.pt.envs
    ensures Sound(PageAlloc(s))
  {
    var s' := PageAlloc(s);
    PageAllocKeeps(s);
    Rebalance(s', s.free[0], 0);
    forall e': nat, v: Va ensures Steady(s, s', e', v) {
      AllocWalk(s, e', v);
    }
    forall k: TlbKey ensures Shrunk(s, s', k) {}
    CoherentStep(s, s', e);
  }

  lemma FlushSound(s: Mem, e: nat, v: Va)
    requires Sound(s) && e in s.pt.envs
    ensures Sound(Flush(s, e, v))
  {
    var s' := Flush(s, e, v);
    FlushKeeps(s, 0, 0, e, v);
    forall k: TlbKey ensures Shrunk(s, s', k) {}
    forall e': nat, v': Va ensures Steady(s, s', e', v') {}
    CoherentStep(s, s', e);
  }

  lemma AddTableSound(s: Mem, e: nat, i: nat)
    requires Sound(s) && e in s.pt.envs && Linkable(i) && !Valid(Pde(s.pt, e, i)) && s.free != []
    ensures Sound(AddTable(s, e, i))
  {
    var s', a := AddTable(s, e, i), Asid(s, e);
    AddTableKeeps(s, e, i);
    SelfMap(s, e, i);
    assert EntryOk(s, a, Va(PDX_UVPT, i)) && LiveOk(s, a, Va(PDX_UVPT, i), e);
    AddTableEffect(s, e, i, e, Va(i, 0));
    forall e': nat, v: Va ensures Steady(s, s', e', v) {
      AddTableEffect(s, e, i, e', v);
    }
    forall k: TlbKey ensures Shrunk(s, s', k) {}
    CoherentStep(s, s', e);
  }

  lemma InsertSound(s: Mem, e: nat, p: nat, v: Va, perm: Perm)
    requires Sound(s) && e in s.pt.envs && User(v) && Held(s, p) && s.ref[p] < 65535 && G !in perm
    ensures Sound(Insert(s, e, p, v, perm).0)
  {
    var s', a, u := Insert(s, e, p, v, perm).0, Asid(s, e), Va(PDX_UVPT, v.pdx);
    InsertExact(s, e, p, v, perm);
    InsertEffect(s, e, p, v, perm, e, v);
    InsertTlb(s, e, p, v, perm);
    assert EntryOk(s, a, u) && LiveOk(s, a, u, e);
    forall e': nat, v': Va ensures Steady(s, s', e', v') {
      InsertEffect(s, e, p, v, perm, e', v');
    }
    forall k: TlbKey ensures Shrunk(s, s', k) {}
    CoherentStep(s, s', e);
  }

  lemma UnmapTlb(s: Mem, e: nat, v: Va)
    ensures Unmap(s, e, v).pt.envs == s.pt.envs
    ensures Unmap(s, e, v).tlb == if Valid(Pt(s.pt, e, v)) then s.tlb - {(Asid(s, e), v)} else s.tlb
  {}

  lemma AddTableTlb(s: Mem, e: nat, i: nat)
    ensures AddTable(s, e, i).tlb == s.tlb && AddTable(s, e, i).pt.envs == s.pt.envs
  {}

  /** page_insert flushes exactly the page it maps. */
  lemma InsertTlb(s: Mem, e: nat, p: nat, v: Va, perm: Perm)
    ensures Insert(s, e, p, v, perm).0.tlb == s.tlb - {(Asid(s, e), v)}
  {
    if !Maps(s.pt, e, v, p) {
      var s1 := Cleared(s, e, v);
      UnmapTlb(s, e, v);
      AddTableTlb(s1, e, v.pdx);
      assert s1.tlb == s.tlb - {(Asid(s, e), v)};
    }
  }

  // ----- kern/env.c

  lemma EnvAllocSound(s: Mem, e: nat, a: nat)
    requires Sound(s) && s.free != [] && e !in s.pt.envs && a < NASID && a !in s.asids
    ensures Sound(EnvAlloc(s, e, a))
  {
    var s' := EnvAlloc(s, e, a);
    EnvAllocKeeps(s, e, a);
    EnvAllocEffect(s, e, a, e, Va(0, 0));
    forall b: nat, v: Va ensures EntryOk(s', b, v) && DeadOk(s', b, v) {
      assert EntryOk(s, b, v) && DeadOk(s, b, v);
      if Shared(v) { EnvAllocShared(s, e, a, v); }
    }
    forall b: nat, v: Va, e': nat ensures LiveOk(s', b, v, e') {
      assert EntryOk(s, b, v) && LiveOk(s, b, v, e') && DeadOk(s, b, v);
      EnvAllocEffect(s, e, a, e', v);
      if e' == e && b == a && !Far(v) && (b, v) in s.tlb {
        EnvAllocShared(s, e, a, v);
        SharedWalk(s', e, v);
      }
    }
  }

  lemma EnvAllocShared(s: Mem, e: nat, a: nat, v: Va)
    requires Inv(s) && s.free != [] && e !in s.pt.envs && Shared(v)
    ensures |EnvAlloc(s, e, a).pt.tmpl| == 2 && SharedPt(EnvAlloc(s, e, a).pt, v) == SharedPt(s.pt, v)
  {
    assert s.free[0] in s.free && FreeOk(s.ref, s.role, s.free[0]);
  }

  lemma DropTableSound(s: Mem, e: nat, i: nat)
    requires Sound(s) && e in s.pt.envs && i < PDX_UTOP && Valid(Pde(s.pt, e, i)) && EmptyTable(s, e, i)
    ensures Sound(DropTable(s, e, i))
  {
    var s' := DropTable(s, e, i);
    DropTableKeeps(s, e, i);
    DropTableEffect(s, e, i, e, Va(i, 0));
    forall e': nat, v: Va ensures Steady(s, s', e', v) {
      DropTableEffect(s, e, i, e', v);
    }
    forall k: TlbKey ensures Shrunk(s, s', k) {}
    CoherentStep(s, s', e);
  }

  /** After env_free no entry below UTOP carries the freed ASID. */
  lemma DropEnvSound(s: Mem, e: nat)
    requires Sound(s) && e in s.pt.envs && EmptySpace(s, e)
    ensures Sound(DropEnv(s, e))
    ensures forall v: Va :: User(v) ==> (s.pt.envs[e].asid, v) !in DropEnv(s, e).tlb
  {
    var s', a := DropEnv(s, e), s.pt.envs[e].asid;
    DropEnvKeeps(s, e);
    forall b: nat, v: Va ensures EntryOk(s', b, v) && DeadOk(s', b, v) {
      assert EntryOk(s, b, v) && DeadOk(s, b, v) && LiveOk(s, b, v, e);
      if b == a && !Far(v) && (b, v) in s'.tlb {
        SelfMap(s, e, v.ptx);
        assert !Valid(Pde(s.pt, e, v.pdx)) || PDX_UTOP <= v.pdx;
        assert !Valid(Pde(s.pt, e, v.ptx)) || PDX_UTOP <= v.ptx;
        SharedWalk(s, e, v);
      }
    }
    forall b: nat, v: Va, e': nat ensures LiveOk(s', b, v, e') {
      assert LiveOk(s, b, v, e');
    }
    forall v: Va | User(v) ensures (a, v) !in s'.tlb {
      assert DeadOk(s', a, v);
    }
  }
}
