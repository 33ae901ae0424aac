/** Runs from boot that reach the states in which page_insert and sys_mem_alloc fail. */
module MemoryWitness {
  import opened Mmu
  import opened Memory
  import opened MemoryInv
  import opened MemoryOps
  import opened Tlb
  import opened MemoryRuns
  import opened MemoryTheorems

  /** A machine of n frames after boot: base_pgdir and its two tables are kept. */
  function Boot(n: nat): Mem
    requires n >= 3
  {
    Mem(seq(n, p => if p < 3 then 1 else 0), seq(n - 3, k requires 0 <= k => 3 + k),
        Tables(seq(n, _ => BlankPage()), map[], [Pte(0, {V}), Pte(1, {V})], map[0 := 1, 1 := 1, 2 := 1]),
        {}, map[], seq(n, p => if p < 3 then Kernel else Plain))
  }

  lemma BootOk(n: nat)
    requires n >= 3
    ensures Booted(Boot(n)) && Sound(Boot(n)) && Strays(Boot(n)) == {} && Leaked(Boot(n)) == {}
  {
    var s := Boot(n);
    forall p: nat | p < |s.ref| ensures BootFrame(s, p) {
      if p >= 3 { assert s.free[p - 3] == p; }
    }
    BootSound(s);
  }

  /** Env 0 after its creation: an empty user space and one frame fewer. */
  lemma Born(n: nat)
    requires n >= 4
    ensures var s := Boot(n); Legal(s, Create(0, 0)) && Sound(Step(s, Create(0, 0)))
    ensures var s1 := Step(Boot(n), Create(0, 0));
      0 in s1.pt.envs && |s1.free| == n - 4 && forall v: Va :: User(v) ==> !Valid(Pde(s1.pt, 0, v.pdx)) && !Valid(Pt(s1.pt, 0, v))
  {
    BootOk(n);
    StepSound(Boot(n), Create(0, 0));
    EnvMemory.EnvAllocKeeps(Boot(n), 0, 0);
    forall v: Va | User(v)
      ensures !Valid(Pde(Step(Boot(n), Create(0, 0)).pt, 0, v.pdx)) && !Valid(Pt(Step(Boot(n), Create(0, 0)).pt, 0, v))
    {
      EnvMemory.EnvAllocEffect(Boot(n), 0, 0, 0, v);
    }
  }

  lemma LastFrameLost(s: Mem, e: nat, v: Va)
    requires Sound(s) && e in s.pt.envs && User(v) && |s.free| == 1 && !Valid(Pde(s.pt, e, v.pdx)) && Leaked(s) == {}
    ensures var (s', ok) := MemAlloc(s, e, v, {D}); !ok && Leaked(s') != {}
  {
    MemAllocSound(s, e, v, {D});
    assert s.free[0] in Leaked(MemAlloc(s, e, v, {D}).0);
  }

  /** sys_mem_alloc with one frame left and no page table: it fails and the frame is lost. */
  lemma AllocLeakReached()
    ensures var ops := [Create(0, 0)]; var s := Run(Boot(5), ops); var (s', ok) := MemAlloc(s, 0, Va(1, 0), {D});
      LegalRun(Boot(5), ops) && !ok && Leaked(s) == {} && Leaked(s') != {}
  {
    var s := Step(Boot(5), Create(0, 0));
    Born(5);
    BootOk(5);
    Birth(Boot(5), 0, 0);
    LastFrameLost(s, 0, Va(1, 0));
    RunOne(Boot(5), Create(0, 0));
    assert LegalRun(s, []);
  }

  /** One read of UVPT page 600 by a fresh process, and the counts are no longer exact. */
  lemma StrayReached()
    ensures var ops := [Create(0, 0)]; var s := Run(Boot(5), ops); var op := Fault(0, Va(PDX_UVPT, 600), {});
      LegalRun(Boot(5), ops) && Legal(s, op) && BooksExact(s) && !BooksExact(Step(s, op))
  {
    var s, v := Step(Boot(5), Create(0, 0)), Va(PDX_UVPT, 600);
    Born(5);
    BootOk(5);
    StepStrays(Boot(5), Create(0, 0));
    RunOne(Boot(5), Create(0, 0));
    assert LegalRun(s, []);
    NewWordEmpty(Boot(5), 0, 0, 600);
    SelfMap(s, 0, 600);
    BooksNoStrays(s);
    RefillExact(s, 0, v, {});
  }

  // ----- a frame mapped 65535 times

  /** User page number k. */
  function Page(k: nat): Va {
    Va(k / NPTE, k % NPTE)
  }

  /** Frame p is mapped at the first k user pages of env 0 and nowhere after them. */
  ghost predicate Spread(s: Mem, p: nat, k: nat) {
    && Sound(s) && 0 in s.pt.envs && 1 <= k && p < |s.ref| && s.ref[p] == k
    && Maps(s.pt, 0, Page(0), p) && (k > 1 ==> Maps(s.pt, 0, Page(k - 1), p))
    && (forall j: nat :: Vacant(s, k, j))
    && |s.free| >= 64 - (k + 1023) / 1024
  }

  predicate Vacant(s: Mem, k: nat, j: nat) {
    k <= j <= 65535 ==> !Valid(Pt(s.pt, 0, Page(j)))
  }

  lemma PageUser(k: nat)
    requires k <= 65535
    ensures User(Page(k)) && Known(Page(k))
  {}

  lemma SpreadStep(s: Mem, p: nat, k: nat)
    requires Spread(s, p, k) && k < 65535
    ensures var op := Map(0, Page(0), 0, Page(k), {}); Legal(s, op) && Spread(Step(s, op), p, k + 1)
  {
    var v, op := Page(k), Map(0, Page(0), 0, Page(k), {});
    PageUser(0);
    PageUser(k);
    EntryCounted(s, 0, 0, Page(0));
    assert Vacant(s, k, k);
    StepSound(s, op);
    SpreadRoom(s, p, k);
    SpreadMapped(s, p, k);
    SpreadFree(s, p, k);
    var next := k + 1;
    forall j: nat ensures Vacant(Step(s, op), next, j) { SpreadVacant(s, p, k, next, j); }
  }

  lemma SpreadMapped(s: Mem, p: nat, k: nat)
    requires Spread(s, p, k) && k < 65535 && Held(s, p) && !Valid(Pt(s.pt, 0, Page(k))) && TableRoom(s, 0, Page(k), 0)
    ensures var s' := Insert(s, 0, p, Page(k), {}).0;
      && 0 in s'.pt.envs && |s'.ref| == |s.ref| && s'.ref[p] == k + 1
      && Maps(s'.pt, 0, Page(0), p) && Maps(s'.pt, 0, Page(k), p)
  {
    var v := Page(k);
    PageUser(0);
    PageUser(k);
    InsertCounts(s, 0, p, v, {}, p);
    InsertOk(s, 0, p, v, {});
    assert s.free != [] ==> s.free[0] in s.free;
    InsertEffect(s, 0, p, v, {}, 0, Page(0));
  }

  lemma SpreadVacant(s: Mem, p: nat, k: nat, next: nat, j: nat)
    requires Spread(s, p, k) && k < 65535 && next == k + 1
    ensures Vacant(Insert(s, 0, p, Page(k), {}).0, next, j)
  {
    if next <= j <= 65535 {
      PageUser(k);
      PageUser(j);
      PageUser(0);
      EntryCounted(s, 0, 0, Page(0));
      assert Vacant(s, k, j) && Page(j) != Page(k);
      InsertEffect(s, 0, p, Page(k), {}, 0, Page(j));
    }
  }

  lemma SpreadRoom(s: Mem, p: nat, k: nat)
    requires Spread(s, p, k) && k < 65535
    ensures TableRoom(s, 0, Page(k), 0)
  {
    if k % NPTE != 0 {
      assert Page(k).pdx == Page(k - 1).pdx;
    }
  }

  lemma SpreadFree(s: Mem, p: nat, k: nat)
    requires Spread(s, p, k) && k < 65535 && TableRoom(s, 0, Page(k), 0) && !Valid(Pt(s.pt, 0, Page(k)))
    ensures |Insert(s, 0, p, Page(k), {}).0.free| >= 64 - (k + 1024) / 1024
  {
    if k % NPTE != 0 {
      assert Page(k).pdx == Page(k - 1).pdx;
    }
  }

  /** The run is legal and ends with p mapped 65535 times. */
  ghost predicate Reaches(s: Mem, ops: seq<Op>, p: nat) {
    LegalRun(s, ops) && Spread(Run(s, ops), p, 65535)
  }

  lemma Prepend(s: Mem, op: Op, s1: Mem, ops: seq<Op>, p: nat)
    requires Legal(s, op) && s1 == Step(s, op) && Reaches(s1, ops, p)
    ensures Reaches(s, [op] + ops, p)
  {
    assert ([op] + ops)[1..] == ops;
  }

  /** Map the frame of page 0 at page k. */
  function MapAt(k: nat): Op {
    Map(0, Page(0), 0, Page(k), {})
  }

  function SpreadOps(k: nat): seq<Op>
    decreases 65535 - k
  {
    if k >= 65535 then [] else [MapAt(k)] + SpreadOps(k + 1)
  }

  lemma {:induction false} SpreadRun(s: Mem, p: nat, k: nat)
    requires Spread(s, p, k) && k <= 65535
    ensures Reaches(s, SpreadOps(k), p)
    decreases 65535 - k, 0
  {
    if k < 65535 {
      SpreadStep(s, p, k);
      SpreadAfter(s, MapAt(k), Step(s, MapAt(k)), p, k + 1);
    }
  }

  lemma {:induction false} SpreadAfter(s: Mem, op: Op, s1: Mem, p: nat, k: nat)
    requires Legal(s, op) && s1 == Step(s, op) && Spread(s1, p, k) && k <= 65535
    ensures Reaches(s, [op] + SpreadOps(k), p)
    decreases 65535 - k, 1
  {
    SpreadRun(s1, p, k);
    Prepend(s, op, s1, SpreadOps(k), p);
  }

  /** Create env 0, allocate page 0 and map it at the next 65534 pages. */
  function WrapOps(): seq<Op> {
    [Create(0, 0)] + ([Alloc(0, Page(0), {D})] + SpreadOps(1))
  }

  /** One process can map one page 65535 times, and the next sys_mem_map wraps its count to 0. */
  lemma WrapReached(n: nat)
    requires n >= 80
    ensures LegalRun(Boot(n), WrapOps()) && exists p: nat :: Wraps(Run(Boot(n), WrapOps()), p)
  {
    Born(n);
    WrapAfter(Boot(n), Create(0, 0), Step(Boot(n), Create(0, 0)));
  }

  lemma WrapAfter(s: Mem, op: Op, s1: Mem)
    requires Legal(s, op) && s1 == Step(s, op) && Sound(s1) && 0 in s1.pt.envs && |s1.free| >= 66
    requires forall v: Va :: User(v) ==> !Valid(Pde(s1.pt, 0, v.pdx)) && !Valid(Pt(s1.pt, 0, v))
    ensures var ops := [op] + ([Alloc(0, Page(0), {D})] + SpreadOps(1));
      LegalRun(s, ops) && Wraps(Run(s, ops), s1.free[0])
  {
    var alloc, p := Alloc(0, Page(0), {D}), s1.free[0];
    FirstMapped(s1);
    SpreadAfter(s1, alloc, Step(s1, alloc), p, 1);
    WrapEnd(s, op, s1, [alloc] + SpreadOps(1), p);
  }

  lemma WrapEnd(s: Mem, op: Op, s1: Mem, ops: seq<Op>, p: nat)
    requires Legal(s, op) && s1 == Step(s, op) && Reaches(s1, ops, p)
    ensures LegalRun(s, [op] + ops) && Wraps(Run(s, [op] + ops), p)
  {
    Prepend(s, op, s1, ops, p);
    WrapAt(Run(s, [op] + ops), p);
  }

  /** Page p is mapped and counted 65535 times, and one more sys_mem_map sets its count to 0. */
  ghost predicate Wraps(s: Mem, p: nat) {
    var s' := Step(s, Map(0, Page(0), 0, Page(65535), {}));
    && Sound(s) && Maps(s.pt, 0, Page(0), p) && p < |s.ref| && s.ref[p] == 65535
    && !Inv(s') && |s'.ref| == |s.ref| && s'.ref[p] == 0
  }

  lemma WrapAt(s: Mem, p: nat)
    requires Spread(s, p, 65535)
    ensures Wraps(s, p)
  {
    PageUser(0);
    PageUser(65535);
    EntryCounted(s, 0, 0, Page(0));
    assert Vacant(s, 65535, 65535);
    assert Page(65535).pdx == Page(65534).pdx;
    InsertExact(s, 0, p, Page(65535), {});
  }

  lemma FirstMapped(s: Mem)
    requires Sound(s) && 0 in s.pt.envs && |s.free| >= 66
    requires forall v: Va :: User(v) ==> !Valid(Pde(s.pt, 0, v.pdx)) && !Valid(Pt(s.pt, 0, v))
    ensures Legal(s, Alloc(0, Page(0), {D})) && Spread(Step(s, Alloc(0, Page(0), {D})), s.free[0], 1)
  {
    var v, p := Page(0), s.free[0];
    PageUser(0);
    AllocHeld(s, 0, v);
    AllocWalk(s, 0, v);
    PageAllocKeeps(s);
    var s1, s' := PageAlloc(s), Step(s, Alloc(0, v, {D}));
    MemAllocSound(s, 0, v, {D});
    InsertCounts(s1, 0, p, v, {D}, p);
    assert s1.free[0] in s1.free;
    forall j: nat ensures Vacant(s', 1, j) {
      if 1 <= j <= 65535 {
        PageUser(j);
        AllocWalk(s, 0, Page(j));
        InsertEffect(s1, 0, p, v, {D}, 0, Page(j));
      }
    }
  }
}
