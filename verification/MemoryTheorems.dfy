/** The results about whole runs of page and address space operations. */
module MemoryTheorems {
  import opened Common
  import opened Mmu
  import opened Memory
  import opened MemoryInv
  import opened MemoryOps
  import opened EnvMemory
  import opened Tlb
  import opened MemoryRuns

  // ----- what the invariant says

  /** The directory words below UTOP that name frame p. */
  function PdeRefs(t: Tables, p: nat): set<(nat, nat)> {
    set e, i: nat | e in t.envs.Keys && i < PDX_UTOP && Valid(Pde(t, e, i)) && Pde(t, e, i).ppn == p :: (e, i)
  }

  /** The live envs whose page directory is frame p. */
  function DirRefs(t: Tables, p: nat): set<nat> {
    set e | e in t.envs.Keys && t.envs[e].dir == p
  }

  /** The count the design asks for: user entries, directory words, and one for a live page directory. */
  predicate Counted(s: Mem, p: nat) {
    p < |s.ref| && p !in s.pt.kern ==> s.ref[p] == |Refs(s.pt, p)| + |PdeRefs(s.pt, p)| + |DirRefs(s.pt, p)|
  }

  /** pp_ref of a frame that boot did not keep is the number of user entries naming it, plus the number of
      directory words naming it, plus one when it is a live page directory; except that a stray frame is
      counted once and nothing names it. */
  lemma RefCountExact(s: Mem, p: nat)
    requires Inv(s) && p < |s.ref| && p !in s.pt.kern
    ensures Counted(s, p) <==> p !in Strays(s)
    ensures p in Strays(s) ==> s.ref[p] == 1 && Refs(s.pt, p) == {} && PdeRefs(s.pt, p) == {} && DirRefs(s.pt, p) == {}
  {
    assert FrameOk(s.ref, s.role, s.pt, p, 0, 0);
    forall e: nat, v: Va | User(v) && s.role[p] != Plain ensures !Maps(s.pt, e, v, p) {
      NoRefs(s, 0, 0, p, e, v);
    }
    forall e: nat, i: nat | i < PDX_UTOP && Valid(Pde(s.pt, e, i)) && Pde(s.pt, e, i).ppn == p
      ensures s.role[p] == Table(e, i)
    {
      assert PdeOk(s.role, s.pt, e, i);
    }
    forall e: nat | e in s.pt.envs && s.pt.envs[e].dir == p ensures s.role[p] == Dir(e) {
      assert EnvOk(s.role, s.pt, s.asids, e);
    }
    match s.role[p]
    case Kernel =>
    case Plain =>
      assert PdeRefs(s.pt, p) == {} && DirRefs(s.pt, p) == {};
    case Dir(e) =>
      assert Refs(s.pt, p) == {} && PdeRefs(s.pt, p) == {} && DirRefs(s.pt, p) == {e};
    case Table(e, i) =>
      assert e in s.pt.envs;
      assert Refs(s.pt, p) == {} && PdeRefs(s.pt, p) == {(e, i)} && DirRefs(s.pt, p) == {};
    case Stray =>
      assert Refs(s.pt, p) == {} && PdeRefs(s.pt, p) == {} && DirRefs(s.pt, p) == {};
  }

  /** Pages on the free list are distinct, uncounted and unreachable. */
  lemma FreePagesUnused(s: Mem, p: nat)
    requires Inv(s) && p in s.free
    ensures p < |s.ref| && s.ref[p] == 0 && p !in s.pt.kern
    ensures Refs(s.pt, p) == {} && PdeRefs(s.pt, p) == {} && DirRefs(s.pt, p) == {}
  {
    assert FreeOk(s.ref, s.role, p) && FrameOk(s.ref, s.role, s.pt, p, 0, 0);
    RefCountExact(s, p);
  }

  /** A TLB entry for a user page is the current entry of the one live env that has its ASID. */
  lemma TlbExact(s: Mem, a: nat, v: Va)
    requires Sound(s) && (a, v) in s.tlb && User(v)
    ensures exists e :: e in s.pt.envs && s.pt.envs[e].asid == a && s.tlb[(a, v)] == Pt(s.pt, e, v)
    ensures forall e, e' :: e in s.pt.envs && e' in s.pt.envs && s.pt.envs[e].asid == a && s.pt.envs[e'].asid == a
              ==> e == e'
  {
    assert DeadOk(s, a, v);
    var e :| e in s.pt.envs && s.pt.envs[e].asid == a;
    assert LiveOk(s, a, v, e);
  }

  // ----- what becomes of frames that nobody holds

  lemma EnterLeaks(s: Mem, e: nat, p: nat, v: Va, perm: Perm)
    requires Inv(s) && e in s.pt.envs && User(v) && Valid(Pde(s.pt, e, v.pdx)) && !Valid(Pt(s.pt, e, v))
    requires Held(s, p) && G !in perm && s.ref[p] < 65535
    ensures Leaked(Enter(s, e, p, v, perm)) == Leaked(s) - {p} && Strays(Enter(s, e, p, v, perm)) == Strays(s)
  {}

  /** A held page stops being at risk once page_insert succeeds; a failing call changes nothing. */
  lemma InsertLeaks(s: Mem, e: nat, p: nat, v: Va, perm: Perm)
    requires Inv(s) && e in s.pt.envs && User(v) && Held(s, p) && G !in perm && s.ref[p] < 65535
    ensures var (s', ok) := Insert(s, e, p, v, perm);
      Strays(s') == Strays(s) && Leaked(s') == if ok then Leaked(s) - {p} else Leaked(s)
  {
    if Maps(s.pt, e, v, p) {
      EntryCounted(s, 0, e, v);
    } else {
      var s1 := Cleared(s, e, v);
      ClearedKeeps(s, e, v, p);
      UnmapKeeps(s, e, v);
      assert SameLost(s, s1);
      if Valid(Pde(s1.pt, e, v.pdx)) {
        EnterLeaks(s1, e, p, v, perm);
      } else if s1.free != [] {
        TableLeaks(s1, e, p, v, perm);
      }
    }
  }

  lemma TableLeaks(s: Mem, e: nat, p: nat, v: Va, perm: Perm)
    requires Inv(s) && e in s.pt.envs && User(v) && !Valid(Pde(s.pt, e, v.pdx)) && s.free != []
    requires Held(s, p) && G !in perm && s.ref[p] < 65535
    ensures var s' := Enter(AddTable(s, e, v.pdx), e, p, v, perm); Leaked(s') == Leaked(s) - {p} && Strays(s') == Strays(s)
  {
    var s1 := AddTable(s, e, v.pdx);
    AddTableKeeps(s, e, v.pdx);
    AddTableEffect(s, e, v.pdx, e, v);
    assert s.free[0] in s.free;
    assert SameLost(s, s1);
    EnterLeaks(s1, e, p, v, perm);
  }

  // ----- system calls and faults

  predicate TableRoom(s: Mem, e: nat, v: Va, spare: nat) {
    |s.free| > spare || Valid(Pde(s.pt, e, v.pdx))
  }

  lemma AllocHeld(s: Mem, e: nat, v: Va)
    requires Sound(s) && e in s.pt.envs && s.free != []
    ensures var s1, p := PageAlloc(s), s.free[0];
      && Sound(s1) && Held(s1, p) && s1.ref[p] == 0 && Leaked(s1) == Leaked(s) + {p} && |s1.free| == |s.free| - 1
      && Valid(Pde(s1.pt, e, v.pdx)) == Valid(Pde(s.pt, e, v.pdx)) && p in s.free && p !in Leaked(s)
  {
    PageAllocSound(s, e);
    PageAllocKeeps(s);
    AllocWalk(s, e, v);
    assert s.free == [s.free[0]] + s.free[1..];
  }

  /** sys_mem_alloc: `try` drops the page it allocated when the insertion fails.  Its page leaks
      exactly when the last free frame went to it and the page table is still missing. */
  lemma MemAllocSound(s: Mem, e: nat, v: Va, perm: Perm)
    requires Sound(s) && e in s.pt.envs && User(v) && G !in perm
    ensures var (s', ok) := MemAlloc(s, e, v, perm);
      && Sound(s')
      && (ok <==> s.free != [] && TableRoom(s, e, v, 1))
      && Strays(s') == Strays(s) && Leaked(s') == Leaked(s) + (if !ok && s.free != [] then {s.free[0]} else {})
      && (ok ==> s.free != [] && Pt(s'.pt, e, v) == Pte(s.free[0], perm + {V}))
  {
    if s.free != [] {
      var s1, p := PageAlloc(s), s.free[0];
      AllocHeld(s, e, v);
      InsertSound(s1, e, p, v, perm);
      InsertLeaks(s1, e, p, v, perm);
      InsertEffect(s1, e, p, v, perm, e, v);
      InsertOk(s1, e, p, v, perm);
    }
  }

  lemma InsertOk(s: Mem, e: nat, p: nat, v: Va, perm: Perm)
    requires Inv(s) && e in s.pt.envs && User(v) && Held(s, p)
    ensures Insert(s, e, p, v, perm).1 <==> TableRoom(s, e, v, 0)
  {
    if !Maps(s.pt, e, v, p) {
      ClearedKeeps(s, e, v, p);
    }
  }

  /** The u_short count of frame p can grow. */
  predicate CanCount(s: Mem, p: nat) {
    p < |s.ref| && s.ref[p] < 65535
  }

  lemma MemMapSound(s: Mem, src: nat, sv: Va, dst: nat, dv: Va, perm: Perm)
    requires Sound(s) && src in s.pt.envs && dst in s.pt.envs && User(sv) && User(dv) && G !in perm
    requires Valid(Pt(s.pt, src, sv)) ==> CanCount(s, Pt(s.pt, src, sv).ppn)
    ensures var (s', ok) := MemMap(s, src, sv, dst, dv, perm);
      && Sound(s') && SameLost(s, s')
      && (ok <==> Valid(Pt(s.pt, src, sv)) && TableRoom(s, dst, dv, 0))
      && (ok ==> Pt(s'.pt, dst, dv) == Pte(Pt(s.pt, src, sv).ppn, perm + {V}))
  {
    if Valid(Pt(s.pt, src, sv)) {
      var p := Pt(s.pt, src, sv).ppn;
      EntryCounted(s, 0, src, sv);
      InsertSound(s, dst, p, dv, perm);
      InsertLeaks(s, dst, p, dv, perm);
      InsertEffect(s, dst, p, dv, perm, dst, dv);
      InsertOk(s, dst, p, dv, perm);
    }
  }

  /** The frame that passive_alloc stores in a directory word nobody will clear. */
  function Strayed(s: Mem, v: Va): set<nat> {
    if Far(v) && s.free != [] then {s.free[0]} else {}
  }

  lemma PassiveAllocSound(s: Mem, e: nat, v: Va)
    requires Sound(s) && e in s.pt.envs && Fillable(v) && v.ptx < NPTE && !Valid(Pt(s.pt, e, v))
    ensures var (s', ok) := PassiveAlloc(s, e, v);
      && Sound(s') && s'.pt.envs == s.pt.envs && s'.asids == s.asids && Strays(s') == Strays(s) + Strayed(s, v)
      && (ok ==> Valid(Pt(s'.pt, e, v)) && Leaked(s') == Leaked(s))
  {
    if v.pdx == PDX_UVPT {
      TableAllocSound(s, e, v.ptx);
    } else {
      MemAllocSound(s, e, v, {D});
      if s.free != [] {
        AllocHeld(s, e, v);
        InsertEffect(PageAlloc(s), e, s.free[0], v, {D}, e, v);
      }
    }
  }

  /** A read through the self-map of a directory word that is empty fills the word: with a page table below
      PDX(UTOP), with a stray frame above PDX(UVPT). */
  lemma TableAllocSound(s: Mem, e: nat, i: nat)
    requires Sound(s) && e in s.pt.envs && i < NPTE && !Valid(Pt(s.pt, e, Va(PDX_UVPT, i)))
    ensures var (s', ok) := PassiveAlloc(s, e, Va(PDX_UVPT, i));
      && Sound(s') && s'.pt.envs == s.pt.envs && s'.asids == s.asids && Leaked(s') == Leaked(s)
      && Strays(s') == Strays(s) + Strayed(s, Va(PDX_UVPT, i))
      && (ok <==> s.free != []) && (ok ==> Valid(Pt(s'.pt, e, Va(PDX_UVPT, i))))
  {
    SelfMap(s, e, i);
    assert EnvOk(s.role, s.pt, s.asids, e);
    if s.free != [] {
      var s1 := Flush(s, e, Va(PDX_UVPT, i));
      FlushSound(s, e, Va(PDX_UVPT, i));
      AddTableSound(s1, e, i);
      AddTableKeeps(s1, e, i);
      AddTableEffect(s1, e, i, e, Va(i, 0));
      assert s1.free[0] in s1.free;
      assert Leaked(AddTable(s1, e, i)) == Leaked(s);
    }
  }

  lemma CacheSound(s: Mem, e: nat, v: Va, evict: set<TlbKey>)
    requires Sound(s) && e in s.pt.envs && Known(v) && Valid(Pt(s.pt, e, v))
    ensures Sound(s.(tlb := (s.tlb - evict)[(Asid(s, e), v) := Pt(s.pt, e, v)]))
  {
    var a := Asid(s, e);
    var s' := s.(tlb := (s.tlb - evict)[(a, v) := Pt(s.pt, e, v)]);
    assert EnvOk(s.role, s.pt, s.asids, e);
    forall b: nat, u: Va ensures EntryOk(s', b, u) && DeadOk(s', b, u) {
      assert EntryOk(s, b, u) && DeadOk(s, b, u);
    }
    forall b: nat, u: Va, e': nat ensures LiveOk(s', b, u, e') {
      assert LiveOk(s, b, u, e');
    }
  }

  /** A refill of any page passive_alloc accepts, with whatever entry it evicts. */
  lemma RefillSound(s: Mem, e: nat, v: Va, evict: set<TlbKey>)
    requires Sound(s) && e in s.pt.envs && Known(v) && (Valid(Pt(s.pt, e, v)) || Fillable(v))
    ensures Sound(Refill(s, e, v, evict))
    ensures Strays(Refill(s, e, v, evict)) == Strays(s) + if Valid(Pt(s.pt, e, v)) then {} else Strayed(s, v)
  {
    var s1 := if Valid(Pt(s.pt, e, v)) then s else PassiveAlloc(s, e, v).0;
    if !Valid(Pt(s.pt, e, v)) { PassiveAllocSound(s, e, v); }
    if Valid(Pt(s1.pt, e, v)) { CacheSound(s1, e, v, evict); }
  }

  /** A refill that does not panic serves the fault: the page is mapped, and the TLB translates it. */
  lemma RefillServes(s: Mem, e: nat, v: Va, evict: set<TlbKey>)
    requires Sound(s) && e in s.pt.envs && Known(v) && (Valid(Pt(s.pt, e, v)) || Fillable(v))
    requires Valid(Pt(s.pt, e, v)) || PassiveAlloc(s, e, v).1
    ensures var s' := Refill(s, e, v, evict); var k := (Asid(s, e), v);
      && Valid(Pt(s'.pt, e, v)) && k in s'.tlb && s'.tlb[k] == Pt(s'.pt, e, v)
      && (Valid(Pt(s.pt, e, v)) ==> Pt(s'.pt, e, v) == Pt(s.pt, e, v))
  {
    if !Valid(Pt(s.pt, e, v)) { PassiveAllocSound(s, e, v); }
  }

  // ----- runs

  /** One kernel entry; `e` is the address space it changes. */
  datatype Op =
    | Alloc(e: nat, v: Va, perm: Perm)
    | Map(src: nat, sv: Va, e: nat, v: Va, perm: Perm)
    | Drop(e: nat, v: Va)
    | Fault(e: nat, v: Va, evict: set<TlbKey>)
    | Create(e: nat, asid: nat)
    | Destroy(e: nat)

  function Step(s: Mem, op: Op): Mem {
    match op
    case Alloc(e, v, perm) => MemAlloc(s, e, v, perm).0
    case Map(src, sv, e, v, perm) => MemMap(s, src, sv, e, v, perm).0
    case Drop(e, v) => Unmap(s, e, v)
    case Fault(e, v, evict) => Refill(s, e, v, evict)
    case Create(e, asid) => EnvAlloc(s, e, asid)
    case Destroy(e) => EnvFree(s, e)
  }

  /** What the callers guarantee: envs exist, pages passed is_illegal_va, PTE_G is not asked for, a
      faulting page is one passive_alloc accepts, the ASID is unused, and a mapped frame's u_short
      count has room (nothing checks the last one). */
  predicate Legal(s: Mem, op: Op) {
    match op
    case Alloc(e, v, perm) => e in s.pt.envs && User(v) && G !in perm
    case Map(src, sv, e, v, perm) =>
      && src in s.pt.envs && e in s.pt.envs && User(sv) && User(v) && G !in perm
      && (Valid(Pt(s.pt, src, sv)) ==> CanCount(s, Pt(s.pt, src, sv).ppn))
    case Drop(e, v) => e in s.pt.envs && User(v)
    case Fault(e, v, evict) => e in s.pt.envs && Known(v) && (Valid(Pt(s.pt, e, v)) || Fillable(v))
    case Create(e, asid) => e !in s.pt.envs && asid < NASID && asid !in s.asids && s.free != []
    case Destroy(e) => e in s.pt.envs
  }

  function Run(s: Mem, ops: seq<Op>): Mem
    decreases |ops|
  {
    if ops == [] then s else Run(Step(s, ops[0]), ops[1..])
  }

  predicate LegalRun(s: Mem, ops: seq<Op>)
    decreases |ops|
  {
    ops == [] || (Legal(s, ops[0]) && LegalRun(Step(s, ops[0]), ops[1..]))
  }

  lemma StepSound(s: Mem, op: Op)
    requires Sound(s) && Legal(s, op)
    ensures Sound(Step(s, op))
  {
    match op
    case Alloc(e, v, perm) => MemAllocSound(s, e, v, perm);
    case Map(src, sv, e, v, perm) =>
      if Valid(Pt(s.pt, src, sv)) { EntryCounted(s, 0, src, sv); }
      MemMapSound(s, src, sv, e, v, perm);
    case Drop(e, v) => UnmapSound(s, e, v);
    case Fault(e, v, evict) => RefillSound(s, e, v, evict);
    case Create(e, asid) => EnvAllocSound(s, e, asid);
    case Destroy(e) => EnvFreeSound(s, e);
  }

  /** Books and TLB stay sound through every run of system calls, faults, creations and exits. */
  lemma {:induction false} RunSound(s: Mem, ops: seq<Op>)
    requires Sound(s) && LegalRun(s, ops)
    ensures Sound(Run(s, ops))
    decreases |ops|
  {
    if ops != [] {
      StepSound(s, ops[0]);
      RunSound(Step(s, ops[0]), ops[1..]);
    }
  }

  // ----- stray frames

  /** The frame that this entry loses to a directory word above PDX(UVPT). */
  function Taken(s: Mem, op: Op): set<nat> {
    if op.Fault? && !Valid(Pt(s.pt, op.e, op.v)) then Strayed(s, op.v) else {}
  }

  function TakenRun(s: Mem, ops: seq<Op>): set<nat>
    decreases |ops|
  {
    if ops == [] then {} else Taken(s, ops[0]) + TakenRun(Step(s, ops[0]), ops[1..])
  }

  lemma StepStrays(s: Mem, op: Op)
    requires Sound(s) && Legal(s, op)
    ensures Strays(Step(s, op)) == Strays(s) + Taken(s, op) && Taken(s, op) !! Strays(s)
  {
    forall p | p in Taken(s, op) ensures p !in Strays(s) { assert FreeOk(s.ref, s.role, p); }
    match op
    case Alloc(e, v, perm) => MemAllocSound(s, e, v, perm);
    case Map(src, sv, e, v, perm) =>
      if Valid(Pt(s.pt, src, sv)) { EntryCounted(s, 0, src, sv); }
      MemMapSound(s, src, sv, e, v, perm);
    case Drop(e, v) => UnmapKeeps(s, e, v);
    case Fault(e, v, evict) => RefillSound(s, e, v, evict);
    case Create(e, asid) =>
      EnvAllocKeeps(s, e, asid);
    case Destroy(e) => EnvFreeSound(s, e);
  }

  /** Stray frames only ever come from refills of UVPT pages above the window's own, and stay for good. */
  lemma {:induction false} RunStrays(s: Mem, ops: seq<Op>)
    requires Sound(s) && LegalRun(s, ops)
    ensures Strays(Run(s, ops)) == Strays(s) + TakenRun(s, ops)
    decreases |ops|
  {
    if ops != [] {
      StepSound(s, ops[0]);
      StepStrays(s, ops[0]);
      RunStrays(Step(s, ops[0]), ops[1..]);
    }
  }

  lemma {:induction false} TakenNew(s: Mem, ops: seq<Op>)
    requires Sound(s) && LegalRun(s, ops)
    ensures TakenRun(s, ops) !! Strays(s)
    decreases |ops|
  {
    if ops != [] {
      StepSound(s, ops[0]);
      StepStrays(s, ops[0]);
      TakenNew(Step(s, ops[0]), ops[1..]);
    }
  }

  /** The counts are what the design asks for. */
  ghost predicate BooksExact(s: Mem) {
    forall p: nat :: Counted(s, p)
  }

  lemma BooksNoStrays(s: Mem)
    requires Inv(s)
    ensures BooksExact(s) <==> Strays(s) == {}
  {
    forall p: nat ensures Counted(s, p) <==> p !in Strays(s) {
      assert p < |s.ref| ==> FrameOk(s.ref, s.role, s.pt, p, 0, 0);
      if p < |s.ref| && p !in s.pt.kern { RefCountExact(s, p); }
    }
    if BooksExact(s) {
      forall p: nat ensures p !in Strays(s) { assert Counted(s, p); }
    }
  }

  /** passive_alloc does not ask whether a UVPT page belongs to user memory: one refill keeps the counts
      exact unless it allocates for a UVPT page above the window's own. */
  lemma RefillExact(s: Mem, e: nat, v: Va, evict: set<TlbKey>)
    requires Sound(s) && BooksExact(s) && e in s.pt.envs && Known(v) && (Valid(Pt(s.pt, e, v)) || Fillable(v))
    ensures BooksExact(Refill(s, e, v, evict)) <==>
      Valid(Pt(s.pt, e, v)) || s.free == [] || v.pdx != PDX_UVPT || v.ptx <= PDX_UVPT
  {
    RefillSound(s, e, v, evict);
    BooksNoStrays(s);
    BooksNoStrays(Refill(s, e, v, evict));
  }

  /** Over whole runs the counts stay exact exactly when no such refill happens. */
  lemma RunExact(s: Mem, ops: seq<Op>)
    requires Sound(s) && BooksExact(s) && LegalRun(s, ops)
    ensures BooksExact(Run(s, ops)) <==> TakenRun(s, ops) == {}
  {
    RunSound(s, ops);
    RunStrays(s, ops);
    BooksNoStrays(s);
    BooksNoStrays(Run(s, ops));
  }

  /** The failing case to its end: after env_free the frame is still counted, named by nothing and not on
      the free list, and the entry is still cached under an ASID that may now be handed out. */
  lemma StrayOutlives(s: Mem, e: nat, i: nat, evict: set<TlbKey>)
    requires Sound(s) && e in s.pt.envs && PDX_UVPT < i < NPTE && !Valid(Pde(s.pt, e, i)) && s.free != []
    ensures var v, p, a := Va(PDX_UVPT, i), s.free[0], s.pt.envs[e].asid;
      var s' := EnvFree(Refill(s, e, v, evict), e);
      && p < |s'.ref| && s'.ref[p] == 1 && p !in s'.free && p !in s'.pt.kern
      && Refs(s'.pt, p) == {} && PdeRefs(s'.pt, p) == {} && DirRefs(s'.pt, p) == {}
      && (a, v) in s'.tlb && a !in s'.asids
  {
    var v, p, a := Va(PDX_UVPT, i), s.free[0], s.pt.envs[e].asid;
    SelfMap(s, e, i);
    PassiveAllocSound(s, e, v);
    RefillSound(s, e, v, evict);
    var s1 := Refill(s, e, v, evict);
    var s' := EnvFree(s1, e);
    EnvFreeSound(s1, e);
    EnvFreeFar(s1, e, (a, v));
    assert p in Strays(s');
    assert FrameOk(s'.ref, s'.role, s'.pt, p, 0, 0);
    RefCountExact(s', p);
    assert p in s'.free ==> FreeOk(s'.ref, s'.role, p);
  }

  /** The next env that gets the ASID finds a translation there that its own page directory does not have. */
  lemma StaleAsid(s: Mem, e: nat, i: nat, evict: set<TlbKey>, e2: nat)
    requires Sound(s) && e in s.pt.envs && PDX_UVPT < i < NPTE && !Valid(Pde(s.pt, e, i)) && s.free != []
    requires e2 !in s.pt.envs
    ensures var v, a := Va(PDX_UVPT, i), s.pt.envs[e].asid;
      var s' := EnvFree(Refill(s, e, v, evict), e);
      var s2 := EnvAlloc(s', e2, a);
      s'.free != [] && Sound(s2) && (a, v) in s2.tlb && s2.pt.envs[e2].asid == a && !Valid(Pt(s2.pt, e2, v))
  {
    var v, a := Va(PDX_UVPT, i), s.pt.envs[e].asid;
    SelfMap(s, e, i);
    PassiveAllocSound(s, e, v);
    RefillSound(s, e, v, evict);
    var s1 := Refill(s, e, v, evict);
    var s' := EnvFree(s1, e);
    EnvFreeSound(s1, e);
    StrayOutlives(s, e, i, evict);
    assert EnvOk(s.role, s.pt, s.asids, e);
    ClearSpaceSound(s1, e, 0);
    DropEnvKeeps(ClearSpace(s1, e, 0), e);
    EnvAllocSound(s', e2, a);
    EnvAllocKeeps(s', e2, a);
    SelfMap(EnvAlloc(s', e2, a), e2, i);
    NewWordEmpty(s', e2, a, i);
  }

  lemma NewWordEmpty(s: Mem, e: nat, a: nat, i: nat)
    requires Inv(s) && s.free != [] && e !in s.pt.envs && PDX_UVPT < i < NPTE
    ensures !Valid(Pde(EnvAlloc(s, e, a).pt, e, i))
  {
    assert s.free[0] in s.free && FreeOk(s.ref, s.role, s.free[0]);
    PageAllocKeeps(s);
  }

  /** After page_init and env_init: no spaces, an empty TLB, and every frame either kept by boot or free. */
  ghost predicate Booted(s: Mem) {
    && |s.ref| == |s.role| == |s.pt.word|
    && s.pt.envs == map[] && s.asids == {} && s.tlb == map[] && Distinct(s.free) && TmplOk(s.role, s.pt)
    && (forall p: nat :: p < |s.ref| ==> BootFrame(s, p))
    && (forall p: nat :: p in s.free ==> p < |s.ref| && p !in s.pt.kern)
  }

  predicate BootFrame(s: Mem, p: nat)
    requires p < |s.ref| == |s.role| == |s.pt.word|
  {
    && |s.pt.word[p]| == NPTE
    && (p in s.pt.kern ==> s.role[p] == Kernel && s.ref[p] == s.pt.kern[p] < 65536)
    && (p !in s.pt.kern ==> s.role[p] == Plain && s.ref[p] == 0 && p in s.free)
  }

  lemma BootSound(s: Mem)
    requires Booted(s)
    ensures Sound(s) && Leaked(s) <= s.pt.kern.Keys
  {
    forall p: nat | p < |s.ref| ensures FrameOk(s.ref, s.role, s.pt, p, 0, 0) {
      assert BootFrame(s, p);
      assert Refs(s.pt, p) == {};
    }
    forall p: nat | p in s.free ensures FreeOk(s.ref, s.role, p) {
      assert BootFrame(s, p);
    }
    forall p: nat | p in Leaked(s) ensures p in s.pt.kern {
      assert BootFrame(s, p);
    }
    forall e: nat ensures EnvOk(s.role, s.pt, s.asids, e) {}
    forall e: nat, i: nat ensures PdeOk(s.role, s.pt, e, i) {}
    forall e: nat, v: Va ensures PteOk(s.role, s.pt, e, v) {}
    forall a: nat, v: Va ensures EntryOk(s, a, v) && DeadOk(s, a, v) {}
    forall a: nat, v: Va, e: nat ensures LiveOk(s, a, v, e) {}
  }

  // ----- one address space's whole life

  lemma EnterShape(s: Mem, e: nat, p: nat, v: Va, perm: Perm)
    ensures var s' := Enter(s, e, p, v, perm);
      |s'.ref| == |s.ref| && s'.pt.kern == s.pt.kern && s'.pt.tmpl == s.pt.tmpl
  {}

  lemma AddTableShape(s: Mem, e: nat, i: nat)
    ensures var s' := AddTable(s, e, i);
      |s'.ref| == |s.ref| && s'.pt.kern == s.pt.kern && s'.pt.tmpl == s.pt.tmpl
  {}

  lemma InsertShape(s: Mem, e: nat, p: nat, v: Va, perm: Perm)
    ensures var s' := Insert(s, e, p, v, perm).0;
      |s'.ref| == |s.ref| && s'.pt.kern == s.pt.kern && s'.pt.tmpl == s.pt.tmpl
  {
    if !Maps(s.pt, e, v, p) {
      var s1 := Cleared(s, e, v);
      assert |s1.ref| == |s.ref| && s1.pt.kern == s.pt.kern && s1.pt.tmpl == s.pt.tmpl;
      AddTableShape(s1, e, v.pdx);
      EnterShape(s1, e, p, v, perm);
      EnterShape(AddTable(s1, e, v.pdx), e, p, v, perm);
    }
  }

  lemma InsertOthers(s: Mem, e: nat, p: nat, v: Va, perm: Perm)
    requires Inv(s) && e in s.pt.envs && User(v) && Held(s, p) && G !in perm
    ensures OthersKept(s, Insert(s, e, p, v, perm).0, e)
  {
    var s' := Insert(s, e, p, v, perm).0;
    forall e': nat, v': Va | e' != e && Known(v') ensures Agree(s.pt, s'.pt, e', v') {
      InsertEffect(s, e, p, v, perm, e', v');
    }
    InsertEffect(s, e, p, v, perm, e, v);
    InsertShape(s, e, p, v, perm);
  }

  lemma MemAllocOthers(s: Mem, e: nat, v: Va, perm: Perm)
    requires Sound(s) && e in s.pt.envs && User(v) && G !in perm
    ensures OthersKept(s, MemAlloc(s, e, v, perm).0, e)
  {
    if s.free != [] {
      var s1 := PageAlloc(s);
      AllocHeld(s, e, v);
      forall e': nat, v': Va | e' != e && Known(v') ensures Agree(s.pt, s1.pt, e', v') {
        AllocWalk(s, e', v');
      }
      InsertOthers(s1, e, s.free[0], v, perm);
      OthersTrans(s, s1, MemAlloc(s, e, v, perm).0, e);
    }
  }

  lemma PassiveAllocOthers(s: Mem, e: nat, v: Va)
    requires Sound(s) && e in s.pt.envs && Fillable(v) && v.ptx < NPTE && !Valid(Pt(s.pt, e, v))
    ensures OthersKept(s, PassiveAlloc(s, e, v).0, e)
  {
    if v.pdx == PDX_UVPT {
      SelfMap(s, e, v.ptx);
      assert EnvOk(s.role, s.pt, s.asids, e);
      if s.free != [] {
        var s1 := Flush(s, e, v);
        FlushSound(s, e, v);
        AddTableKeeps(s1, e, v.ptx);
        AddTableEffect(s1, e, v.ptx, e, Va(0, 0));
        forall e': nat, v': Va | e' != e && Known(v') ensures Agree(s.pt, AddTable(s1, e, v.ptx).pt, e', v') {
          AddTableEffect(s1, e, v.ptx, e', v');
        }
      }
    } else {
      MemAllocOthers(s, e, v, {D});
    }
  }

  lemma EnvAllocOthers(s: Mem, e: nat, asid: nat)
    requires Inv(s) && e !in s.pt.envs && asid < NASID && asid !in s.asids && s.free != []
    ensures OthersKept(s, EnvAlloc(s, e, asid), e)
  {
    EnvAllocKeeps(s, e, asid);
    EnvAllocEffect(s, e, asid, e, Va(0, 0));
    forall e': nat, v': Va | e' != e && Known(v') ensures Agree(s.pt, EnvAlloc(s, e, asid).pt, e', v') {
      EnvAllocEffect(s, e, asid, e', v');
    }
  }

  /** Every entry changes one space only. */
  lemma StepOthers(s: Mem, op: Op)
    requires Sound(s) && Legal(s, op)
    ensures OthersKept(s, Step(s, op), op.e)
  {
    match op
    case Alloc(e, v, perm) => MemAllocOthers(s, e, v, perm);
    case Map(src, sv, e, v, perm) =>
      if Valid(Pt(s.pt, src, sv)) {
        EntryCounted(s, 0, src, sv);
        InsertOthers(s, e, Pt(s.pt, src, sv).ppn, v, perm);
      }
    case Drop(e, v) =>
      forall e': nat, v': Va | e' != e && Known(v') ensures Agree(s.pt, Unmap(s, e, v).pt, e', v') {
        UnmapEffect(s, e, v, e', v');
      }
      UnmapKeeps(s, e, v);
      UnmapEffect(s, e, v, e, v);
    case Fault(e, v, evict) =>
      if !Valid(Pt(s.pt, e, v)) { PassiveAllocOthers(s, e, v); }
    case Create(e, asid) => EnvAllocOthers(s, e, asid);
    case Destroy(e) => EnvFreeSound(s, e);
  }

  /** The call finds the memory it needs: no -E_NO_MEM and no panic. */
  predicate Succeeds(s: Mem, op: Op) {
    match op
    case Alloc(e, v, perm) => MemAlloc(s, e, v, perm).1
    case Fault(e, v, evict) => Valid(Pt(s.pt, e, v)) || PassiveAlloc(s, e, v).1
    case _ => true
  }

  /** Calls that run inside the life of space e and change only that space. */
  predicate Inside(op: Op, e: nat) {
    op.e == e && !op.Create? && !op.Destroy?
  }

  predicate InsideRun(s: Mem, e: nat, ops: seq<Op>)
    decreases |ops|
  {
    ops == [] || (Legal(s, ops[0]) && Succeeds(s, ops[0]) && Inside(ops[0], e) && InsideRun(Step(s, ops[0]), e, ops[1..]))
  }

  lemma InsideStep(s: Mem, e: nat, op: Op)
    requires Sound(s) && Legal(s, op) && Succeeds(s, op) && Inside(op, e)
    ensures var s' := Step(s, op);
      && Sound(s') && OthersKept(s, s', e) && s'.asids == s.asids && s'.pt.envs == s.pt.envs
      && Leaked(s') == Leaked(s)
  {
    StepSound(s, op);
    StepOthers(s, op);
    match op
    case Alloc(_, v, perm) =>
      MemAllocSound(s, e, v, perm);
      AllocHeld(s, e, v);
      InsertEffect(PageAlloc(s), e, s.free[0], v, perm, e, v);
    case Map(src, sv, _, v, perm) =>
      if Valid(Pt(s.pt, src, sv)) {
        EntryCounted(s, 0, src, sv);
        InsertEffect(s, e, Pt(s.pt, src, sv).ppn, v, perm, e, v);
      }
      MemMapSound(s, src, sv, e, v, perm);
    case Drop(_, v) =>
      UnmapKeeps(s, e, v);
      UnmapEffect(s, e, v, e, v);
    case Fault(_, v, evict) =>
      if !Valid(Pt(s.pt, e, v)) { PassiveAllocSound(s, e, v); }
  }

  lemma {:induction false} InsideLegal(s: Mem, e: nat, ops: seq<Op>)
    requires InsideRun(s, e, ops)
    ensures LegalRun(s, ops)
    decreases |ops|
  {
    if ops != [] { InsideLegal(Step(s, ops[0]), e, ops[1..]); }
  }

  lemma InsideStrays(s: Mem, e: nat, ops: seq<Op>)
    requires Sound(s) && InsideRun(s, e, ops)
    ensures Strays(Run(s, ops)) == Strays(s) + TakenRun(s, ops) && TakenRun(s, ops) !! Strays(s)
  {
    InsideLegal(s, e, ops);
    RunStrays(s, ops);
    TakenNew(s, ops);
  }

  lemma {:induction false} InsideRunKeeps(s: Mem, e: nat, ops: seq<Op>)
    requires Sound(s) && InsideRun(s, e, ops)
    ensures var s' := Run(s, ops);
      && Sound(s') && OthersKept(s, s', e) && s'.asids == s.asids && s'.pt.envs == s.pt.envs
      && Leaked(s') == Leaked(s)
    decreases |ops|
  {
    if ops != [] {
      var s1 := Step(s, ops[0]);
      InsideStep(s, e, ops[0]);
      InsideRunKeeps(s1, e, ops[1..]);
      OthersTrans(s, s1, Run(s, ops), e);
    }
  }

  lemma SameUse(s: Mem, s': Mem, e: nat, p: nat)
    requires Inv(s) && Inv(s') && OthersKept(s, s', e) && e !in s.pt.envs && s'.pt.envs == s.pt.envs && p < |s.ref|
    ensures Refs(s'.pt, p) == Refs(s.pt, p) && PdeRefs(s'.pt, p) == PdeRefs(s.pt, p) && DirRefs(s'.pt, p) == DirRefs(s.pt, p)
  {
    forall e': nat, v: Va | User(v) ensures Maps(s'.pt, e', v, p) <==> Maps(s.pt, e', v, p) {
      assert e' != e ==> Agree(s.pt, s'.pt, e', v);
    }
    RefsSame(s.pt, s'.pt, p);
    forall e': nat, i: nat | e' in s.pt.envs && i < PDX_UTOP
      ensures Valid(Pde(s'.pt, e', i)) == Valid(Pde(s.pt, e', i))
      ensures Valid(Pde(s.pt, e', i)) ==> Pde(s'.pt, e', i) == Pde(s.pt, e', i)
    {
      SelfMap(s, e', i);
      SelfMap(s', e', i);
      assert Agree(s.pt, s'.pt, e', Va(PDX_UVPT, i));
    }
  }

  /** The count of frame p when only stray frames were added: a new stray frame was free before. */
  lemma SameCount(s: Mem, s': Mem, e: nat, p: nat)
    requires Inv(s) && Inv(s') && OthersKept(s, s', e) && e !in s.pt.envs && s'.pt.envs == s.pt.envs && p < |s.ref|
    requires Leaked(s') == Leaked(s) && Strays(s) <= Strays(s')
    ensures s'.ref[p] == (if p in Strays(s') - Strays(s) then 1 else s.ref[p])
    ensures p in Strays(s') - Strays(s) ==> p in s.free
  {
    assert FrameOk(s.ref, s.role, s.pt, p, 0, 0) && FrameOk(s'.ref, s'.role, s'.pt, p, 0, 0);
    if p !in s.pt.kern {
      RefCountExact(s, p);
      RefCountExact(s', p);
      SameUse(s, s', e, p);
      assert p in Leaked(s) <==> p in Leaked(s');
    }
  }

  lemma Birth(s: Mem, e: nat, a: nat)
    requires Sound(s) && Legal(s, Create(e, a))
    ensures var s1 := Step(s, Create(e, a));
      && Sound(s1) && OthersKept(s, s1, e) && Leaked(s1) == Leaked(s)
      && s1.asids == s.asids + {a} && e in s1.pt.envs && s1.pt.envs[e].asid == a && s1.pt.envs - {e} == s.pt.envs
  {
    StepSound(s, Create(e, a));
    StepOthers(s, Create(e, a));
    EnvAllocKeeps(s, e, a);
    assert s.free[0] in s.free && FreeOk(s.ref, s.role, s.free[0]);
    assert Step(s, Create(e, a)).pt.envs - {e} == s.pt.envs;
  }

  lemma Life(s: Mem, e: nat, a: nat, ops: seq<Op>)
    requires Sound(s) && Legal(s, Create(e, a)) && InsideRun(Step(s, Create(e, a)), e, ops)
    ensures var s' := EnvFree(Run(Step(s, Create(e, a)), ops), e);
      && Sound(s') && s'.asids == s.asids && s'.pt.envs == s.pt.envs && OthersKept(s, s', e)
      && Leaked(s') == Leaked(s) && (forall v: Va :: User(v) ==> (a, v) !in s'.tlb)
  {
    var s1 := Step(s, Create(e, a));
    var s2 := Run(s1, ops);
    Birth(s, e, a);
    InsideRunKeeps(s1, e, ops);
    EnvFreeSound(s2, e);
    OthersTrans(s, s1, s2, e);
    OthersTrans(s, s2, EnvFree(s2, e), e);
  }

  lemma LifeStrays(s: Mem, e: nat, a: nat, ops: seq<Op>)
    requires Sound(s) && Legal(s, Create(e, a)) && InsideRun(Step(s, Create(e, a)), e, ops)
    ensures var s1 := Step(s, Create(e, a)); var s' := EnvFree(Run(s1, ops), e);
      Strays(s') == Strays(s) + TakenRun(s1, ops) && TakenRun(s1, ops) !! Strays(s)
  {
    Birth(s, e, a);
    StepStrays(s, Create(e, a));
    UseStrays(Step(s, Create(e, a)), e, ops);
  }

  lemma UseStrays(s: Mem, e: nat, ops: seq<Op>)
    requires Sound(s) && e in s.pt.envs && InsideRun(s, e, ops)
    ensures Strays(EnvFree(Run(s, ops), e)) == Strays(s) + TakenRun(s, ops) && TakenRun(s, ops) !! Strays(s)
  {
    InsideRunKeeps(s, e, ops);
    InsideStrays(s, e, ops);
    EnvFreeSound(Run(s, ops), e);
  }

  /** An address space that is created, used and destroyed leaves no trace but the stray frames its refills
      took: every other count, the free pages, the ASIDs and the translations of every other space are what
      they were, and the TLB holds no user page under the returned ASID. */
  lemma LifeConserves(s: Mem, e: nat, a: nat, ops: seq<Op>)
    requires Sound(s) && Legal(s, Create(e, a)) && InsideRun(Step(s, Create(e, a)), e, ops)
    ensures var s' := Run(s, [Create(e, a)] + ops + [Destroy(e)]); var lost := TakenRun(Step(s, Create(e, a)), ops);
      && Sound(s') && s'.asids == s.asids && s'.pt.envs == s.pt.envs && |s'.ref| == |s.ref|
      && (forall p: nat :: p < |s.ref| ==> s'.ref[p] == if p in lost then 1 else s.ref[p])
      && (forall p: nat :: p in s'.free <==> p in s.free && p !in lost)
      && (forall p: nat :: p in lost ==> p in s.free)
      && OthersKept(s, s', e)
      && (forall v: Va :: User(v) ==> (a, v) !in s'.tlb)
  {
    var s1 := Step(s, Create(e, a));
    var s3 := EnvFree(Run(s1, ops), e);
    Life(s, e, a, ops);
    LifeStrays(s, e, a, ops);
    SameBooks(s, s3, e);
    RunConcat(s, [Create(e, a)] + ops, [Destroy(e)]);
    RunConcat(s, [Create(e, a)], ops);
    RunOne(s, Create(e, a));
    RunOne(Run(s1, ops), Destroy(e));
  }

  /** It leaves no trace at all exactly when its refills took no stray frame. */
  lemma LifeExact(s: Mem, e: nat, a: nat, ops: seq<Op>)
    requires Sound(s) && Legal(s, Create(e, a)) && InsideRun(Step(s, Create(e, a)), e, ops)
    ensures var s' := Run(s, [Create(e, a)] + ops + [Destroy(e)]);
      s'.ref == s.ref && (forall p: nat :: p in s'.free <==> p in s.free) <==> TakenRun(Step(s, Create(e, a)), ops) == {}
  {
    LifeConserves(s, e, a, ops);
    var lost := TakenRun(Step(s, Create(e, a)), ops);
    if lost != {} { var p :| p in lost; }
  }

  lemma RunOne(s: Mem, op: Op)
    ensures Run(s, [op]) == Step(s, op)
  {}

  lemma SameBooks(s: Mem, s': Mem, e: nat)
    requires Inv(s) && Inv(s') && OthersKept(s, s', e) && e !in s.pt.envs && s'.pt.envs == s.pt.envs
    requires Leaked(s') == Leaked(s) && Strays(s) <= Strays(s')
    ensures forall p: nat :: p < |s.ref| ==> s'.ref[p] == if p in Strays(s') - Strays(s) then 1 else s.ref[p]
    ensures forall p: nat :: p in s'.free <==> p in s.free && p !in Strays(s') - Strays(s)
    ensures forall p: nat :: p in Strays(s') - Strays(s) ==> p in s.free
  {
    forall p: nat | p < |s.ref|
      ensures s'.ref[p] == if p in Strays(s') - Strays(s) then 1 else s.ref[p]
      ensures p in Strays(s') - Strays(s) ==> p in s.free
    {
      SameCount(s, s', e, p);
    }
    forall p: nat ensures p in s'.free <==> p in s.free && p !in Strays(s') - Strays(s) {
      assert p in s.free ==> FreeOk(s.ref, s.role, p);
      assert p in s'.free ==> FreeOk(s'.ref, s'.role, p);
      assert p in Leaked(s) <==> p in Leaked(s');
    }
  }

  lemma {:induction false} RunConcat(s: Mem, xs: seq<Op>, ys: seq<Op>)
    ensures Run(s, xs + ys) == Run(Run(s, xs), ys)
    decreases |xs|
  {
    if xs == [] {
      assert xs + ys == ys;
    } else {
      assert (xs + ys)[0] == xs[0] && (xs + ys)[1..] == xs[1..] + ys;
      RunConcat(Step(s, xs[0]), xs[1..], ys);
    }
  }

  /** env_free in isolation, for every frame boot did not keep: it loses exactly the references that came
      from e, as a page, a table or the directory, and goes to the free list exactly when no other is left;
      stray frames keep their count. */
  lemma EnvFreeCounts(s: Mem, e: nat, p: nat)
    requires Sound(s) && e in s.pt.envs && p < |s.ref| && p !in s.pt.kern
    ensures var s' := EnvFree(s, e);
      var rest := |set x | x in Refs(s.pt, p) && x.0 != e| + |set x | x in PdeRefs(s.pt, p) && x.0 != e| + |DirRefs(s.pt, p) - {e}|;
      && p < |s'.ref| && s'.ref[p] == (if p in Strays(s) then 1 else rest)
      && (p in s'.free <==> s'.ref[p] == 0 && p !in Leaked(s))
  {
    var s' := EnvFree(s, e);
    EnvFreeSound(s, e);
    RefCountExact(s', p);
    OthersUse(s, s', e, p);
    assert p in s'.free ==> FreeOk(s'.ref, s'.role, p);
    assert p in Leaked(s) <==> p in Leaked(s');
  }

  /** What names frame p once space e is gone. */
  lemma OthersUse(s: Mem, s': Mem, e: nat, p: nat)
    requires Inv(s) && Inv(s') && OthersKept(s, s', e) && e in s.pt.envs && s'.pt.envs == s.pt.envs - {e}
    ensures Refs(s'.pt, p) == set x | x in Refs(s.pt, p) && x.0 != e
    ensures PdeRefs(s'.pt, p) == set x | x in PdeRefs(s.pt, p) && x.0 != e
    ensures DirRefs(s'.pt, p) == DirRefs(s.pt, p) - {e}
  {
    forall e': nat, v: Va | User(v) ensures Maps(s'.pt, e', v, p) <==> e' != e && Maps(s.pt, e', v, p) {
      assert e' != e ==> Agree(s.pt, s'.pt, e', v);
    }
    forall e': nat, i: nat | e' in s'.pt.envs && i < PDX_UTOP
      ensures Valid(Pde(s'.pt, e', i)) == Valid(Pde(s.pt, e', i))
      ensures Valid(Pde(s.pt, e', i)) ==> Pde(s'.pt, e', i) == Pde(s.pt, e', i)
    {
      SelfMap(s, e', i);
      SelfMap(s', e', i);
      assert Agree(s.pt, s'.pt, e', Va(PDX_UVPT, i));
    }
  }
}
