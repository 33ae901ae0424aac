/** The words in page frames: a page that is handed out is zeroed, and no operation of the kernel touches a
    word of a page that is mapped. */
module MemoryWords {
  import opened Mmu
  import opened Memory
  import opened MemoryInv
  import opened MemoryOps
  import opened EnvMemory
  import opened Tlb
  import opened MemoryRuns
  import opened MemoryTheorems

  predicate SameWords(s: Mem, s': Mem, p: nat) {
    p < |s.pt.word| && p < |s'.pt.word| && s'.pt.word[p] == s.pt.word[p]
  }

  predicate PlainAt(s: Mem, p: nat) {
    p < |s.role| && p < |s.pt.word| && s.role[p] == Plain
  }

  // ----- no step writes to a plain frame

  lemma UnmapWords(s: Mem, e: nat, v: Va, p: nat)
    requires Inv(s) && e in s.pt.envs && User(v) && PlainAt(s, p)
    ensures SameWords(s, Unmap(s, e, v), p) && PlainAt(Unmap(s, e, v), p)
  {
    if Valid(Pt(s.pt, e, v)) { WalkRole(s, 0, 0, e, v); }
  }

  lemma EnterWords(s: Mem, e: nat, q: nat, v: Va, perm: Perm, p: nat)
    requires Inv(s) && e in s.pt.envs && User(v) && Valid(Pde(s.pt, e, v.pdx)) && PlainAt(s, p)
    ensures SameWords(s, Enter(s, e, q, v, perm), p)
  {
    WalkRole(s, 0, 0, e, v);
  }

  lemma AddTableWords(s: Mem, e: nat, i: nat, p: nat)
    requires Inv(s) && e in s.pt.envs && Linkable(i) && !Valid(Pde(s.pt, e, i)) && s.free != [] && Held(s, p)
    ensures SameWords(s, AddTable(s, e, i), p) && PlainAt(AddTable(s, e, i), p)
  {
    assert s.free[0] in s.free && FreeOk(s.ref, s.role, s.free[0]);
    assert EnvOk(s.role, s.pt, s.asids, e) && FrameOk(s.ref, s.role, s.pt, p, 0, 0);
  }

  lemma InsertWords(s: Mem, e: nat, q: nat, v: Va, perm: Perm, p: nat)
    requires Inv(s) && e in s.pt.envs && User(v) && Held(s, q) && Held(s, p) && G !in perm
    ensures SameWords(s, Insert(s, e, q, v, perm).0, p)
  {
    assert FrameOk(s.ref, s.role, s.pt, p, 0, 0);
    if Maps(s.pt, e, v, q) {
      WalkRole(s, 0, 0, e, v);
    } else {
      var s1 := Cleared(s, e, v);
      ClearedKeeps(s, e, v, q);
      UnmapWords(s, e, v, p);
      if Valid(Pde(s1.pt, e, v.pdx)) {
        EnterWords(s1, e, q, v, perm, p);
      } else if s1.free != [] {
        NewTableWords(s, e, q, v, perm, p);
      }
    }
  }

  /** Without a table there is nothing to unmap, so no frame is freed before the table is taken. */
  lemma NewTableWords(s: Mem, e: nat, q: nat, v: Va, perm: Perm, p: nat)
    requires Inv(s) && e in s.pt.envs && User(v) && Held(s, q) && Held(s, p) && !Maps(s.pt, e, v, q)
    requires var s1 := Cleared(s, e, v); Inv(s1) && !Valid(Pde(s1.pt, e, v.pdx)) && s1.free != []
    ensures SameWords(s, Enter(AddTable(Cleared(s, e, v), e, v.pdx), e, q, v, perm), p)
  {
    var s1 := Cleared(s, e, v);
    UnmapEffect(s, e, v, e, v);
    assert s1 == Flush(s, e, v);
    AddTableKeeps(s1, e, v.pdx);
    AddTableEffect(s1, e, v.pdx, e, v);
    AddTableWords(s1, e, v.pdx, p);
    EnterWords(AddTable(s1, e, v.pdx), e, q, v, perm, p);
  }

  /** sys_mem_alloc: the page it maps reads zero, and all other held pages read as before. */
  lemma AllocWords(s: Mem, e: nat, v: Va, perm: Perm, p: nat)
    requires Sound(s) && e in s.pt.envs && User(v) && G !in perm
    ensures var (s', ok) := MemAlloc(s, e, v, perm);
      && (Held(s, p) ==> SameWords(s, s', p))
      && (ok ==> s.free != [] && s.free[0] < |s'.pt.word| && s'.pt.word[s.free[0]] == BlankPage())
  {
    if s.free != [] {
      var s1, f := PageAlloc(s), s.free[0];
      AllocHeld(s, e, v);
      PageAllocKeeps(s);
      InsertWords(s1, e, f, v, perm, f);
      if Held(s, p) {
        assert FrameOk(s.ref, s.role, s.pt, p, 0, 0);
        InsertWords(s1, e, f, v, perm, p);
      }
    }
  }

  lemma WindowWords(s: Mem, e: nat, v: Va, p: nat)
    requires Sound(s) && e in s.pt.envs && v.pdx == PDX_UVPT && v.ptx < NPTE && !Valid(Pt(s.pt, e, v)) && Held(s, p)
    ensures SameWords(s, PassiveAlloc(s, e, v).0, p)
  {
    assert FrameOk(s.ref, s.role, s.pt, p, 0, 0);
    if s.free != [] {
      SelfMap(s, e, v.ptx);
      assert EnvOk(s.role, s.pt, s.asids, e);
      FlushKeeps(s, 0, 0, e, v);
      AddTableWords(Flush(s, e, v), e, v.ptx, p);
    }
  }

  lemma RefillWords(s: Mem, e: nat, v: Va, evict: set<TlbKey>, p: nat)
    requires Sound(s) && Legal(s, Fault(e, v, evict)) && Held(s, p)
    ensures SameWords(s, Refill(s, e, v, evict), p)
  {
    assert FrameOk(s.ref, s.role, s.pt, p, 0, 0);
    if !Valid(Pt(s.pt, e, v)) {
      if v.pdx == PDX_UVPT { WindowWords(s, e, v, p); } else { AllocWords(s, e, v, {D}, p); }
    }
  }

  lemma CreateWords(s: Mem, e: nat, asid: nat, p: nat)
    requires Sound(s) && Legal(s, Create(e, asid)) && Held(s, p)
    ensures SameWords(s, EnvAlloc(s, e, asid), p)
  {
    assert FrameOk(s.ref, s.role, s.pt, p, 0, 0);
    assert s.free[0] in s.free && FreeOk(s.ref, s.role, s.free[0]);
  }

  // ----- env_free

  lemma {:induction false} ClearTableWords(s: Mem, e: nat, i: nat, j: nat, p: nat)
    requires Sound(s) && e in s.pt.envs && i < PDX_UTOP && PlainAt(s, p)
    ensures SameWords(s, ClearTable(s, e, i, j), p) && PlainAt(ClearTable(s, e, i, j), p)
    decreases NPTE - j
  {
    if j < NPTE {
      var s1 := Unmap(s, e, Va(i, j));
      UnmapWords(s, e, Va(i, j), p);
      UnmapElsewhere(s, e, i, j);
      ClearTableWords(s1, e, i, j + 1, p);
    }
  }

  lemma FreeSlotWords(s: Mem, e: nat, i: nat, p: nat)
    requires Sound(s) && e in s.pt.envs && i < PDX_UTOP && PlainAt(s, p)
    ensures SameWords(s, FreeSlot(s, e, i), p) && PlainAt(FreeSlot(s, e, i), p)
  {
    if Valid(Pde(s.pt, e, i)) {
      ClearTableWords(s, e, i, 0, p);
      ClearTableSound(s, e, i, 0);
      DropTableWords(ClearTable(s, e, i, 0), e, i, p);
    }
  }

  lemma DropTableWords(s: Mem, e: nat, i: nat, p: nat)
    requires Inv(s) && e in s.pt.envs && PlainAt(s, p)
    ensures SameWords(s, DropTable(s, e, i), p) && PlainAt(DropTable(s, e, i), p)
  {
    assert EnvOk(s.role, s.pt, s.asids, e);
  }

  lemma {:induction false} ClearSpaceWords(s: Mem, e: nat, i: nat, p: nat)
    requires Sound(s) && e in s.pt.envs && i <= PDX_UTOP && PlainAt(s, p)
    requires forall k: nat :: k < i ==> !Valid(Pde(s.pt, e, k))
    ensures SameWords(s, ClearSpace(s, e, i), p)
    decreases PDX_UTOP - i
  {
    if i < PDX_UTOP {
      FreeSlotWords(s, e, i, p);
      FreeSlotSound(s, e, i);
      ClearSpaceWords(FreeSlot(s, e, i), e, i + 1, p);
    }
  }

  lemma DestroyWords(s: Mem, e: nat, p: nat)
    requires Sound(s) && e in s.pt.envs && PlainAt(s, p)
    ensures SameWords(s, EnvFree(s, e), p)
  {
    ClearSpaceWords(s, e, 0, p);
  }

  // ----- results

  lemma StepWords(s: Mem, op: Op, p: nat)
    requires Sound(s) && Legal(s, op) && Held(s, p)
    ensures SameWords(s, Step(s, op), p)
  {
    assert FrameOk(s.ref, s.role, s.pt, p, 0, 0);
    match op
    case Alloc(e, v, perm) => AllocWords(s, e, v, perm, p);
    case Map(src, sv, e, v, perm) =>
      if Valid(Pt(s.pt, src, sv)) {
        EntryCounted(s, 0, src, sv);
        InsertWords(s, e, Pt(s.pt, src, sv).ppn, v, perm, p);
      }
    case Drop(e, v) => UnmapWords(s, e, v, p);
    case Fault(e, v, evict) => RefillWords(s, e, v, evict, p);
    case Create(e, asid) => CreateWords(s, e, asid, p);
    case Destroy(e) => DestroyWords(s, e, p);
  }

  /** No system call, refill, creation or exit changes a word of a frame that is mapped as a user page. */
  lemma MappedWordsKept(s: Mem, op: Op, p: nat, i: nat)
    requires Sound(s) && Legal(s, op) && Refs(s.pt, p) != {}
    ensures Rd(Step(s, op).pt, p, i) == Rd(s.pt, p, i)
  {
    var x :| x in Refs(s.pt, p);
    EntryCounted(s, 0, x.0, x.1);
    StepWords(s, op, p);
  }

  /** Every word of the page at v is zero. */
  ghost predicate ReadsZero(s: Mem, e: nat, v: Va) {
    Valid(Pt(s.pt, e, v)) && forall i: nat :: i < NPTE ==> Rd(s.pt, Pt(s.pt, e, v).ppn, i) == Zero
  }

  lemma BlankReads(s: Mem, e: nat, v: Va)
    requires Valid(Pt(s.pt, e, v)) && Pt(s.pt, e, v).ppn < |s.pt.word| && s.pt.word[Pt(s.pt, e, v).ppn] == BlankPage()
    ensures ReadsZero(s, e, v)
  {}

  lemma AllocReadsZero(s: Mem, e: nat, v: Va, perm: Perm)
    requires Sound(s) && e in s.pt.envs && User(v) && G !in perm && MemAlloc(s, e, v, perm).1
    ensures var s' := MemAlloc(s, e, v, perm).0;
      s.free != [] && Pt(s'.pt, e, v).ppn == s.free[0] && ReadsZero(s', e, v)
  {
    MemAllocSound(s, e, v, perm);
    AllocWords(s, e, v, perm, 0);
    BlankReads(MemAlloc(s, e, v, perm).0, e, v);
  }

  /** A new page reads zero: after a successful sys_mem_alloc, and after a refill that gives a user page, every
      word of the page now at v is 0. */
  lemma NewPageZero(s: Mem, op: Op)
    requires Sound(s) && Legal(s, op) && Succeeds(s, op)
    requires op.Alloc? || (op.Fault? && User(op.v) && !Valid(Pt(s.pt, op.e, op.v)))
    ensures s.free != [] && Pt(Step(s, op).pt, op.e, op.v).ppn == s.free[0] && ReadsZero(Step(s, op), op.e, op.v)
  {
    AllocReadsZero(s, op.e, op.v, if op.Alloc? then op.perm else {D});
    if op.Fault? {
      var s1 := PassiveAlloc(s, op.e, op.v).0;
      SameReads(s1, Refill(s, op.e, op.v, op.evict), op.e, op.v);
    }
  }

  lemma SameReads(s: Mem, s': Mem, e: nat, v: Va)
    requires ReadsZero(s, e, v) && s'.pt == s.pt
    ensures ReadsZero(s', e, v)
  {}

  /** So is a new page table: no translation appears with it that was not there. */
  lemma NewTableZero(s: Mem, e: nat, i: nat, j: nat)
    requires Inv(s) && e in s.pt.envs && i < PDX_UTOP && !Valid(Pde(s.pt, e, i)) && s.free != [] && j < NPTE
    ensures Rd(AddTable(s, e, i).pt, s.free[0], j) == Zero
  {
    assert s.free[0] in s.free && FreeOk(s.ref, s.role, s.free[0]);
    assert EnvOk(s.role, s.pt, s.asids, e) && FrameOk(s.ref, s.role, s.pt, s.free[0], 0, 0);
  }

  // ----- stores of user programs

  function WordsOf(s: Mem, p: nat): seq<Pte> {
    if p < |s.pt.word| then s.pt.word[p] else []
  }

  function WriteFrame(s: Mem, p: nat, w: seq<Pte>): Mem {
    if p < |s.pt.word| then s.(pt := s.pt.(word := s.pt.word[p := w])) else s
  }

  lemma WriteWalk(s: Mem, p: nat, w: seq<Pte>, e: nat, v: Va)
    requires Inv(s) && PlainAt(s, p)
    ensures Pde(WriteFrame(s, p, w).pt, e, v.pdx) == Pde(s.pt, e, v.pdx)
    ensures Known(v) ==> Pt(WriteFrame(s, p, w).pt, e, v) == Pt(s.pt, e, v)
  {
    assert EnvOk(s.role, s.pt, s.asids, e);
    if e in s.pt.envs && Known(v) && Valid(Pde(s.pt, e, v.pdx)) {
      WalkRole(s, 0, 0, e, v);
    }
  }

  lemma WriteKeeps(s: Mem, p: nat, w: seq<Pte>)
    requires Inv(s) && PlainAt(s, p) && |w| == NPTE
    ensures Inv(WriteFrame(s, p, w))
  {
    var s' := WriteFrame(s, p, w);
    forall e: nat, v: Va
      ensures Pde(s'.pt, e, v.pdx) == Pde(s.pt, e, v.pdx)
      ensures Known(v) ==> Pt(s'.pt, e, v) == Pt(s.pt, e, v)
    {
      WriteWalk(s, p, w, e, v);
    }
    forall y: nat | y < |s'.ref| ensures FrameOk(s'.ref, s'.role, s'.pt, y, 0, 0) {
      assert FrameOk(s.ref, s.role, s.pt, y, 0, 0);
      RefsSame(s.pt, s'.pt, y);
      if s.role[y].Table? {
        var z := s.role[y];
        assert Pde(s'.pt, z.env, Va(z.pdx, 0).pdx) == Pde(s.pt, z.env, Va(z.pdx, 0).pdx);
      }
    }
    forall e: nat ensures EnvOk(s'.role, s'.pt, s'.asids, e) {
      assert EnvOk(s.role, s.pt, s.asids, e);
    }
    forall e: nat, i: nat ensures PdeOk(s'.role, s'.pt, e, i) {
      assert PdeOk(s.role, s.pt, e, i);
      assert Pde(s'.pt, e, Va(i, 0).pdx) == Pde(s.pt, e, Va(i, 0).pdx);
    }
    forall e: nat, v: Va ensures PteOk(s'.role, s'.pt, e, v) {
      assert PteOk(s.role, s.pt, e, v);
    }
    forall y: nat | y in s'.free ensures FreeOk(s'.ref, s'.role, y) {
      assert FreeOk(s.ref, s.role, y);
    }
  }

  /** A program that writes to its pages disturbs neither the books nor any translation. */
  lemma WriteSound(s: Mem, p: nat, w: seq<Pte>)
    requires Sound(s) && PlainAt(s, p) && |w| == NPTE
    ensures Sound(WriteFrame(s, p, w))
  {
    var s' := WriteFrame(s, p, w);
    WriteKeeps(s, p, w);
    forall a: nat, v: Va ensures EntryOk(s', a, v) && DeadOk(s', a, v) {
      assert EntryOk(s, a, v) && DeadOk(s, a, v);
    }
    forall a: nat, v: Va, e: nat ensures LiveOk(s', a, v, e) {
      assert EntryOk(s, a, v) && LiveOk(s, a, v, e);
      WriteWalk(s, p, w, e, v);
    }
  }
}
