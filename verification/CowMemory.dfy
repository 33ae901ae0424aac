/** Copy-on-write over the real page tables: every event of Cow is at most one entry into the kernel of
    Memory, and the page tables show the pages of Cow throughout. */
module CowMemory {
  import opened Mmu
  import opened MemoryInv
  import opened MemoryOps
  import opened EnvMemory
  import opened Tlb
  import opened MemoryRuns
  import opened Cow
  import opened CowProofs
  import M = Memory
  import T = MemoryTheorems
  import W = MemoryWords

  function PageOf(v: nat): Va {
    Va(v / NPTE, v % NPTE)
  }

  function Num(v: Va): nat {
    v.pdx * NPTE + v.ptx
  }

  // ----- the page tables show a set of pages

  predicate Shows(s: M.Mem, space: map<Key, Pte>, k: Key) {
    && (k in space <==> User(PageOf(k.1)) && Valid(M.Pt(s.pt, k.0, PageOf(k.1))))
    && (k in space ==> space[k] == M.Pt(s.pt, k.0, PageOf(k.1)))
  }

  ghost predicate Projects(s: M.Mem, space: map<Key, Pte>) {
    forall k: Key :: Shows(s, space, k)
  }

  lemma InsertProjects(s: M.Mem, space: map<Key, Pte>, e: nat, p: nat, v: Va, perm: Perm)
    requires Inv(s) && e in s.pt.envs && User(v) && Held(s, p) && G !in perm && Projects(s, space)
    ensures var (s', ok) := M.Insert(s, e, p, v, perm);
      Projects(s', if ok then space[(e, Num(v)) := Pte(p, perm + {V})] else space)
  {
    var (s', ok) := M.Insert(s, e, p, v, perm);
    var space' := if ok then space[(e, Num(v)) := Pte(p, perm + {V})] else space;
    forall k: Key ensures Shows(s', space', k) {
      assert Shows(s, space, k) && k == (k.0, k.1);
      InsertEffect(s, e, p, v, perm, k.0, PageOf(k.1));
      assert PageOf(k.1) == v <==> k.1 == Num(v);
    }
  }

  lemma AllocProjects(s: M.Mem, space: map<Key, Pte>, e: nat, v: Va, perm: Perm)
    requires Sound(s) && e in s.pt.envs && User(v) && G !in perm && Projects(s, space)
    ensures var (s', ok) := M.MemAlloc(s, e, v, perm);
      (ok ==> s.free != []) && Projects(s', if ok then space[(e, Num(v)) := Pte(s.free[0], perm + {V})] else space)
  {
    if s.free != [] {
      var s1 := M.PageAlloc(s);
      T.AllocHeld(s, e, v);
      forall k: Key ensures Shows(s1, space, k) {
        assert Shows(s, space, k);
        AllocWalk(s, k.0, PageOf(k.1));
      }
      InsertProjects(s1, space, e, s.free[0], v, perm);
    }
  }

  lemma MapProjects(s: M.Mem, space: map<Key, Pte>, src: nat, sv: Va, e: nat, v: Va, perm: Perm)
    requires Sound(s) && T.Legal(s, T.Map(src, sv, e, v, perm)) && Projects(s, space)
    ensures var (s', ok) := M.MemMap(s, src, sv, e, v, perm);
      && (ok ==> (src, Num(sv)) in space)
      && Projects(s', if ok then space[(e, Num(v)) := Pte(space[(src, Num(sv))].ppn, perm + {V})] else space)
  {
    assert Shows(s, space, (src, Num(sv))) && PageOf(Num(sv)) == sv;
    if Valid(M.Pt(s.pt, src, sv)) {
      EntryCounted(s, 0, src, sv);
      InsertProjects(s, space, e, M.Pt(s.pt, src, sv).ppn, v, perm);
    }
  }

  lemma UnmapProjects(s: M.Mem, space: map<Key, Pte>, e: nat, v: Va)
    requires Sound(s) && e in s.pt.envs && User(v) && Projects(s, space)
    ensures Projects(M.Unmap(s, e, v), space - {(e, Num(v))})
  {
    forall k: Key ensures Shows(M.Unmap(s, e, v), space - {(e, Num(v))}, k) {
      assert Shows(s, space, k) && k == (k.0, k.1);
      UnmapEffect(s, e, v, k.0, PageOf(k.1));
      assert PageOf(k.1) == v <==> k.1 == Num(v);
    }
  }

  lemma CreateProjects(s: M.Mem, space: map<Key, Pte>, e: nat, asid: nat)
    requires Sound(s) && T.Legal(s, T.Create(e, asid)) && Projects(s, space)
    ensures Projects(M.EnvAlloc(s, e, asid), space) && forall v: nat :: (e, v) !in space
  {
    forall k: Key ensures Shows(M.EnvAlloc(s, e, asid), space, k) {
      assert Shows(s, space, k);
      EnvAllocEffect(s, e, asid, k.0, PageOf(k.1));
    }
    forall v: nat ensures (e, v) !in space { assert Shows(s, space, (e, v)); }
  }

  lemma DestroyProjects(s: M.Mem, space: map<Key, Pte>, e: nat)
    requires Sound(s) && e in s.pt.envs && Projects(s, space)
    ensures Projects(M.EnvFree(s, e), map k: Key | k in space && k.0 != e :: space[k])
  {
    EnvFreeSound(s, e);
    var space' := map k: Key | k in space && k.0 != e :: space[k];
    forall k: Key ensures Shows(M.EnvFree(s, e), space', k) {
      assert Shows(s, space, k);
      assert k.0 != e && User(PageOf(k.1)) ==> Agree(s.pt, M.EnvFree(s, e).pt, k.0, PageOf(k.1));
    }
  }

  /** Writing the TLB changes no page table. */
  lemma SamePt(s: M.Mem, e: nat, v: Va, evict: set<M.TlbKey>)
    requires Sound(s) && T.Legal(s, T.Fault(e, v, evict))
    ensures M.Refill(s, e, v, evict).pt == if Valid(M.Pt(s.pt, e, v)) then s.pt else M.PassiveAlloc(s, e, v).0.pt
  {}

  lemma UvptProjects(s: M.Mem, space: map<Key, Pte>, e: nat, v: Va)
    requires Sound(s) && e in s.pt.envs && M.Fillable(v) && v.pdx == PDX_UVPT && v.ptx < NPTE
    requires !Valid(M.Pt(s.pt, e, v)) && Projects(s, space)
    ensures Projects(M.PassiveAlloc(s, e, v).0, space)
  {
    var s' := M.PassiveAlloc(s, e, v).0;
    if s.free != [] {
      var s1 := M.Flush(s, e, v);
      SelfMap(s, e, v.ptx);
      assert EnvOk(s.role, s.pt, s.asids, e);
      FlushSound(s, e, v);
      forall k: Key ensures Shows(s', space, k) {
        assert Shows(s, space, k);
        if User(PageOf(k.1)) { AddTableEffect(s1, e, v.ptx, k.0, PageOf(k.1)); }
      }
    }
  }

  /** A TLB refill gives the faulting user page a frame if it had none, and moves no other. */
  lemma FaultProjects(s: M.Mem, space: map<Key, Pte>, e: nat, v: Va, evict: set<M.TlbKey>)
    requires Sound(s) && T.Legal(s, T.Fault(e, v, evict)) && Projects(s, space)
    ensures var s' := M.Refill(s, e, v, evict);
      if Filled(s, e, v) then s.free != [] && Projects(s', space[(e, Num(v)) := Pte(s.free[0], {D} + {V})])
      else Projects(s', space)
  {
    var s' := M.Refill(s, e, v, evict);
    SamePt(s, e, v, evict);
    if Valid(M.Pt(s.pt, e, v)) {
      ProjectsPt(s, s', space);
    } else if v.pdx == PDX_UVPT {
      UvptProjects(s, space, e, v);
      ProjectsPt(M.PassiveAlloc(s, e, v).0, s', space);
    } else {
      AllocProjects(s, space, e, v, {D});
      ProjectsPt(M.PassiveAlloc(s, e, v).0, s', if Filled(s, e, v) then space[(e, Num(v)) := Pte(s.free[0], {D} + {V})] else space);
    }
  }

  /** The refill maps a new user page. */
  predicate Filled(s: M.Mem, e: nat, v: Va) {
    !Valid(M.Pt(s.pt, e, v)) && v.pdx != PDX_UVPT && M.MemAlloc(s, e, v, {D}).1
  }

  lemma ProjectsPt(s: M.Mem, s': M.Mem, space: map<Key, Pte>)
    requires Projects(s, space) && s'.pt == s.pt
    ensures Projects(s', space)
  {
    forall k: Key ensures Shows(s', space, k) { assert Shows(s, space, k); }
  }

  // ----- both machines together

  /** An event the kernel takes part in, an event in user memory alone, or a kernel entry that is no event:
      a refill of a mapped page or of a UVPT page, a call that fails, env_create. */
  datatype Act = Both(ev: Ev, op: T.Op) | Only(ev: Ev) | Kern(op: T.Op)

  /** No -E_NO_MEM and no -E_INVAL. */
  predicate Ok(s: M.Mem, op: T.Op) {
    match op
    case Alloc(e, v, perm) => M.MemAlloc(s, e, v, perm).1
    case Map(src, sv, e, v, perm) => M.MemMap(s, src, sv, e, v, perm).1
    case Fault(e, v, evict) => Filled(s, e, v)
    case _ => true
  }

  /** The kernel entry that ev makes, with the arguments user/lib/fork.c passes; new frames come from the
      head of page_free_list. */
  predicate Match(s: M.Mem, c: Lazy, ev: Ev, op: T.Op) {
    match ev
    case CowAlloc(e, f) =>
      PcOf(c, e).Trapped? && op == T.Alloc(e, PageOf(UCOW), PcOf(c, e).perm) && s.free != [] && f == s.free[0]
    case CowMap(e) =>
      PcOf(c, e).Copied? && op == T.Map(e, PageOf(UCOW), e, PageOf(PcOf(c, e).v), PcOf(c, e).perm)
    case CowUnmap(e) => op == T.Drop(e, PageOf(UCOW))
    case Alloc(e, v, perm, f) =>
      && (op == T.Alloc(e, PageOf(v), perm) || (op.Fault? && op.e == e && op.v == PageOf(v) && perm == {D}))
      && s.free != [] && f == s.free[0]
    case Unmap(e, v) => op == T.Drop(e, PageOf(v))
    case Exofork(p, x) => op.Create? && op.e == x
    case DupMap(p, x, v) => op == T.Map(p, PageOf(v), x, PageOf(v), DupPerm(PermOf(c, (p, v))))
    case DupRemap(p, x, v) =>
      && x in c.child && c.child[x].dup.Halfway?
      && op == T.Map(p, PageOf(v), p, PageOf(v), c.child[x].dup.perm)
    case Exit(e) => op == T.Destroy(e)
    case _ => false
  }

  /** What the programs must respect; that sys_mem_alloc hands out a frame nobody names and that a new env
      has no pages is the kernel's part. */
  ghost predicate Allowed(c: Lazy, ev: Ev) {
    match ev
    case CowAlloc(e, f) => PcOf(c, e).Trapped?
    case Alloc(e, v, perm, f) => Running(c, e) && (Settled(c, e) || (e, v) !in c.space) && v != UCOW && COW !in perm
    case Exofork(p, x) => Running(c, p) && Settled(c, p) && p != x && Running(c, x)
    case _ => Enabled(c, ev)
  }

  ghost predicate Fits(s: M.Mem, c: Lazy, act: Act) {
    match act
    case Both(ev, op) => Allowed(c, ev) && T.Legal(s, op) && Match(s, c, ev, op) && Ok(s, op)
    case Only(ev) => Enabled(c, ev) && (ev.Store? || ev.Trap? || ev.CowCopy? || ev.Wake?)
    case Kern(op) => T.Legal(s, op) && (op.Create? || ((op.Alloc? || op.Map? || op.Fault?) && !Ok(s, op)))
  }

  /** A store and memcpy write to the frames the page tables name. */
  function UserStep(s: M.Mem, c: Lazy, ev: Ev): M.Mem {
    match ev
    case Store(e, v, off, x) =>
      var f := M.Pt(s.pt, e, PageOf(v)).ppn;
      W.WriteFrame(s, f, Write(W.WordsOf(s, f), off, x))
    case CowCopy(e) =>
      if PcOf(c, e).Filled? then
        W.WriteFrame(s, M.Pt(s.pt, e, PageOf(UCOW)).ppn, W.WordsOf(s, M.Pt(s.pt, e, PageOf(PcOf(c, e).v)).ppn))
      else s
    case _ => s
  }

  function MemStep(s: M.Mem, c: Lazy, act: Act): M.Mem {
    if act.Only? then UserStep(s, c, act.ev) else T.Step(s, act.op)
  }

  function EvStep(c: Lazy, act: Act): Lazy {
    if act.Kern? then c else Step(c, act.ev)
  }

  /** The books of the kernel give what Cow asks of it. */
  lemma AllowedEnabled(s: M.Mem, c: Lazy, ev: Ev, op: T.Op)
    requires Sound(s) && Projects(s, c.space) && Fits(s, c, Both(ev, op))
    ensures Enabled(c, ev)
  {
    if ev.CowAlloc? || ev.Alloc? {
      T.FreePagesUnused(s, s.free[0]);
      forall k: Key | k in c.space ensures c.space[k].ppn != s.free[0] {
        assert Shows(s, c.space, k) && M.Maps(s.pt, k.0, PageOf(k.1), c.space[k].ppn);
        assert (k.0, PageOf(k.1)) in M.Refs(s.pt, c.space[k].ppn);
      }
    } else if ev.Exofork? {
      CreateProjects(s, c.space, op.e, op.asid);
    }
  }

  // ----- the words in the frames

  /** The frame that page k is in holds in memory what it holds in Cow. */
  predicate HoldsWords(s: M.Mem, c: Lazy, k: Key) {
    k in c.space ==>
      var f := c.space[k].ppn;
      f in c.content && f < |s.pt.word| && s.pt.word[f] == c.content[f]
  }

  ghost predicate Contents(s: M.Mem, c: Lazy) {
    forall k: Key :: HoldsWords(s, c, k)
  }

  /** A page of Cow lies in a frame that is in use and is no table. */
  lemma PageHeld(s: M.Mem, c: Lazy, k: Key)
    requires Sound(s) && Projects(s, c.space) && k in c.space
    ensures var f := c.space[k].ppn;
      && Held(s, f) && W.PlainAt(s, f) && |s.pt.word[f]| == NPTE && User(PageOf(k.1)) && k.0 in s.pt.envs
      && M.Pt(s.pt, k.0, PageOf(k.1)).ppn == f
  {
    assert Shows(s, c.space, k);
    EntryCounted(s, 0, k.0, PageOf(k.1));
    assert FrameOk(s.ref, s.role, s.pt, c.space[k].ppn, 0, 0);
  }

  /** The kernel leaves the words of every page alone. */
  lemma KernelContents(s: M.Mem, c: Lazy, op: T.Op, k: Key)
    requires Sound(s) && Projects(s, c.space) && Contents(s, c) && T.Legal(s, op)
    ensures HoldsWords(T.Step(s, op), c, k)
  {
    assert HoldsWords(s, c, k);
    if k in c.space {
      PageHeld(s, c, k);
      W.StepWords(s, op, c.space[k].ppn);
    }
  }

  /** A page that is handed out is zeroed, in memory as in Cow. */
  lemma AllocContents(s: M.Mem, c: Lazy, ev: Ev, op: T.Op, k: Key)
    requires Sound(s) && Projects(s, c.space) && Contents(s, c) && Fits(s, c, Both(ev, op))
    requires (ev.CowAlloc? || ev.Alloc?) && IsFree(c, ev.f)
    ensures HoldsWords(T.Step(s, op), Step(c, ev), k)
  {
    KernelContents(s, c, op, k);
    W.AllocWords(s, op.e, op.v, if op.Alloc? then op.perm else {D}, 0);
  }

  /** The page that an event maps at k was at j. */
  lemma MovedFrom(s: M.Mem, c: Lazy, ev: Ev, op: T.Op, k: Key) returns (j: Key)
    requires Sound(s) && Projects(s, c.space) && Fits(s, c, Both(ev, op)) && !ev.CowAlloc? && !ev.Alloc?
    requires k in Step(c, ev).space
    ensures j in c.space && c.space[j].ppn == Step(c, ev).space[k].ppn && Step(c, ev).content == c.content
  {
    if op.Map? {
      j := MappedFrom(s, c, ev, op, k);
    } else {
      j := k;
    }
  }

  /** The events that are sys_mem_map put the source's frame at the destination. */
  lemma MapEvent(s: M.Mem, c: Lazy, ev: Ev, op: T.Op)
    requires Match(s, c, ev, op) && op.Map?
    ensures var c', src, dst := Step(c, ev), (op.src, Num(op.sv)), (op.e, Num(op.v));
      c'.space == c.space[dst := Pte(Frame(c, src), op.perm + {V})] && c'.content == c.content
  {
    assert Num(PageOf(UCOW)) == UCOW && (ev.CowMap? ==> Num(PageOf(PcOf(c, ev.e).v)) == PcOf(c, ev.e).v);
    assert ev.DupMap? || ev.DupRemap? ==> Num(PageOf(ev.v)) == ev.v;
  }

  lemma MappedFrom(s: M.Mem, c: Lazy, ev: Ev, op: T.Op, k: Key) returns (j: Key)
    requires Sound(s) && Projects(s, c.space) && Fits(s, c, Both(ev, op)) && op.Map? && k in Step(c, ev).space
    ensures j in c.space && c.space[j].ppn == Step(c, ev).space[k].ppn && Step(c, ev).content == c.content
  {
    MapProjects(s, c.space, op.src, op.sv, op.e, op.v, op.perm);
    MapEvent(s, c, ev, op);
    j := if k == (op.e, Num(op.v)) then (op.src, Num(op.sv)) else k;
  }

  lemma BothContents(s: M.Mem, c: Lazy, ev: Ev, op: T.Op)
    requires Sound(s) && Projects(s, c.space) && Contents(s, c) && Fits(s, c, Both(ev, op))
    ensures Contents(T.Step(s, op), Step(c, ev))
  {
    forall k: Key ensures HoldsWords(T.Step(s, op), Step(c, ev), k) {
      if ev.CowAlloc? || ev.Alloc? {
        AllowedEnabled(s, c, ev, op);
        AllocContents(s, c, ev, op, k);
      } else if k in Step(c, ev).space {
        var j := MovedFrom(s, c, ev, op, k);
        KernelContents(s, c, op, j);
      }
    }
  }

  /** A program writes the words w to page k. */
  lemma WriteProjects(s: M.Mem, c: Lazy, c': Lazy, k: Key, w: seq<Pte>)
    requires Sound(s) && Projects(s, c.space) && Contents(s, c) && k in c.space && |w| == NPTE
    requires c'.space == c.space && c'.content == c.content[c.space[k].ppn := w]
    ensures var s' := W.WriteFrame(s, M.Pt(s.pt, k.0, PageOf(k.1)).ppn, w);
      Sound(s') && Projects(s', c'.space) && Contents(s', c')
  {
    var f := c.space[k].ppn;
    PageHeld(s, c, k);
    W.WriteSound(s, f, w);
    var s' := W.WriteFrame(s, f, w);
    forall j: Key ensures Shows(s', c'.space, j) {
      assert Shows(s, c.space, j);
      W.WriteWalk(s, f, w, j.0, PageOf(j.1));
    }
    forall j: Key ensures HoldsWords(s', c', j) { assert HoldsWords(s, c, j); }
  }

  lemma StoreProjects(s: M.Mem, c: Lazy, e: nat, v: nat, off: nat, x: Pte)
    requires Sound(s) && Projects(s, c.space) && Contents(s, c) && Enabled(c, Store(e, v, off, x))
    ensures var s', c' := UserStep(s, c, Store(e, v, off, x)), Step(c, Store(e, v, off, x));
      Sound(s') && Projects(s', c'.space) && Contents(s', c')
  {
    var ev := Store(e, v, off, x);
    var f := c.space[(e, v)].ppn;
    PageHeld(s, c, (e, v));
    assert HoldsWords(s, c, (e, v));
    WriteProjects(s, c, Step(c, ev), (e, v), Write(W.WordsOf(s, f), off, x));
  }

  lemma CopyProjects(s: M.Mem, c: Lazy, t: Eager, e: nat)
    requires Sound(s) && Projects(s, c.space) && Contents(s, c) && R(c, t) && Enabled(c, CowCopy(e))
    ensures var s', c' := UserStep(s, c, CowCopy(e)), Step(c, CowCopy(e));
      Sound(s') && Projects(s', c'.space) && Contents(s', c')
  {
    var v := PcOf(c, e).v;
    assert Window(c, e);
    PageHeld(s, c, (e, UCOW));
    PageHeld(s, c, (e, v));
    assert HoldsWords(s, c, (e, v));
    WriteProjects(s, c, Step(c, CowCopy(e)), (e, UCOW), W.WordsOf(s, c.space[(e, v)].ppn));
  }

  lemma OnlyProjects(s: M.Mem, c: Lazy, t: Eager, ev: Ev)
    requires Sound(s) && Projects(s, c.space) && Contents(s, c) && R(c, t) && Fits(s, c, Only(ev))
    ensures var s', c' := UserStep(s, c, ev), Step(c, ev);
      Sound(s') && Projects(s', c'.space) && Contents(s', c')
  {
    if ev.Store? {
      StoreProjects(s, c, ev.e, ev.v, ev.off, ev.x);
    } else if ev.CowCopy? {
      CopyProjects(s, c, t, ev.e);
    } else {
      forall k: Key ensures HoldsWords(s, Step(c, ev), k) { assert HoldsWords(s, c, k); }
    }
  }

  /** Both machines take the step together. */
  lemma ActProjects(s: M.Mem, c: Lazy, t: Eager, act: Act)
    requires Sound(s) && Projects(s, c.space) && Contents(s, c) && R(c, t) && Fits(s, c, act)
    ensures var s', c' := MemStep(s, c, act), EvStep(c, act);
      Sound(s') && Projects(s', c'.space) && Contents(s', c') && R(c', EagerStep(t, act))
    ensures !act.Kern? ==> Enabled(c, act.ev)
  {
    match act
    case Only(ev) =>
      OnlyProjects(s, c, t, ev);
      StepR(c, t, ev);
    case Kern(op) =>
      T.StepSound(s, op);
      KernProjects(s, c, op);
      forall k: Key ensures HoldsWords(T.Step(s, op), c, k) { KernelContents(s, c, op, k); }
    case Both(ev, op) =>
      T.StepSound(s, op);
      AllowedEnabled(s, c, ev, op);
      BothProjects(s, c, ev, op);
      BothContents(s, c, ev, op);
      StepR(c, t, ev);
  }

  function EagerStep(t: Eager, act: Act): Eager {
    if act.Kern? then t else EStep(t, act.ev)
  }

  lemma KernProjects(s: M.Mem, c: Lazy, op: T.Op)
    requires Sound(s) && Projects(s, c.space) && Fits(s, c, Kern(op))
    ensures Projects(T.Step(s, op), c.space)
  {
    match op
    case Alloc(e, v, perm) => AllocProjects(s, c.space, e, v, perm);
    case Map(src, sv, e, v, perm) => MapProjects(s, c.space, src, sv, e, v, perm);
    case Fault(e, v, evict) => FaultProjects(s, c.space, e, v, evict);
    case Create(e, asid) => CreateProjects(s, c.space, e, asid);
  }

  lemma BothProjects(s: M.Mem, c: Lazy, ev: Ev, op: T.Op)
    requires Sound(s) && Projects(s, c.space) && Fits(s, c, Both(ev, op))
    ensures Projects(T.Step(s, op), Step(c, ev).space)
  {
    if op.Map? {
      MapBoth(s, c, ev, op);
    } else if op.Alloc? || op.Fault? {
      AllocBoth(s, c, ev, op);
    } else {
      OtherBoth(s, c, ev, op);
    }
  }

  lemma OtherBoth(s: M.Mem, c: Lazy, ev: Ev, op: T.Op)
    requires Sound(s) && Projects(s, c.space) && Fits(s, c, Both(ev, op)) && (op.Drop? || op.Create? || op.Destroy?)
    ensures Projects(T.Step(s, op), Step(c, ev).space)
  {
    match op
    case Drop(e, v) =>
      UnmapProjects(s, c.space, e, v);
      assert Num(PageOf(UCOW)) == UCOW && (ev.Unmap? ==> Num(PageOf(ev.v)) == ev.v);
    case Create(e, asid) => CreateProjects(s, c.space, e, asid);
    case Destroy(e) => DestroyProjects(s, c.space, e);
  }

  lemma MapBoth(s: M.Mem, c: Lazy, ev: Ev, op: T.Op)
    requires Sound(s) && Projects(s, c.space) && Fits(s, c, Both(ev, op)) && op.Map?
    ensures Projects(T.Step(s, op), Step(c, ev).space)
  {
    MapProjects(s, c.space, op.src, op.sv, op.e, op.v, op.perm);
    MapEvent(s, c, ev, op);
  }

  lemma AllocBoth(s: M.Mem, c: Lazy, ev: Ev, op: T.Op)
    requires Sound(s) && Projects(s, c.space) && Fits(s, c, Both(ev, op)) && (op.Alloc? || op.Fault?)
    ensures Projects(T.Step(s, op), Step(c, ev).space)
  {
    if op.Alloc? {
      AllocProjects(s, c.space, op.e, op.v, op.perm);
    } else {
      FaultProjects(s, c.space, op.e, op.v, op.evict);
    }
    assert Num(PageOf(UCOW)) == UCOW && (ev.Alloc? ==> Num(PageOf(ev.v)) == ev.v);
  }

  // ----- runs

  function MemRun(s: M.Mem, c: Lazy, acts: seq<Act>): M.Mem
    decreases |acts|
  {
    if acts == [] then s else MemRun(MemStep(s, c, acts[0]), EvStep(c, acts[0]), acts[1..])
  }

  function Evs(acts: seq<Act>): seq<Ev>
    decreases |acts|
  {
    if acts == [] then [] else (if acts[0].Kern? then [] else [acts[0].ev]) + Evs(acts[1..])
  }

  ghost predicate FitsRun(s: M.Mem, c: Lazy, acts: seq<Act>)
    decreases |acts|
  {
    acts == [] || (Fits(s, c, acts[0]) && FitsRun(MemStep(s, c, acts[0]), EvStep(c, acts[0]), acts[1..]))
  }

  lemma EvsStep(c: Lazy, t: Eager, acts: seq<Act>)
    requires acts != []
    ensures Run(c, Evs(acts)) == Run(EvStep(c, acts[0]), Evs(acts[1..]))
    ensures ERun(t, Evs(acts)) == ERun(EagerStep(t, acts[0]), Evs(acts[1..]))
    ensures EnabledRun(c, Evs(acts)) <==>
      (acts[0].Kern? || Enabled(c, acts[0].ev)) && EnabledRun(EvStep(c, acts[0]), Evs(acts[1..]))
  {
    if acts[0].Kern? {
      assert Evs(acts) == Evs(acts[1..]);
    } else {
      assert Evs(acts)[0] == acts[0].ev && Evs(acts)[1..] == Evs(acts[1..]);
    }
  }

  lemma {:induction false} RunProjects(s: M.Mem, c: Lazy, t: Eager, acts: seq<Act>)
    requires Sound(s) && Projects(s, c.space) && Contents(s, c) && R(c, t) && FitsRun(s, c, acts)
    ensures var s', c' := MemRun(s, c, acts), Run(c, Evs(acts));
      Sound(s') && EnabledRun(c, Evs(acts)) && Projects(s', c'.space) && Contents(s', c')
    decreases |acts|
  {
    if acts != [] {
      ActProjects(s, c, t, acts[0]);
      RunProjects(MemStep(s, c, acts[0]), EvStep(c, acts[0]), EagerStep(t, acts[0]), acts[1..]);
      EvsStep(c, t, acts);
    }
  }

  /** Main result.  Run the kernel from a boot without envs, under any programs that fork, store, fault,
      allocate, unmap and die.  Then a page table entry is valid exactly where the env has a page in the
      machine whose forks copy, the words of physical memory in the frame it names are the words of that
      page, and it is writable, at once or after a copy-on-write fault, exactly if that page is. */
  lemma KernelForkCopies(s: M.Mem, acts: seq<Act>, e: nat, v: nat)
    requires Sound(s) && s.pt.envs == map[] && FitsRun(s, START, acts) && v != UCOW && User(PageOf(v))
    ensures var c, t := Run(START, Evs(acts)), ERun(Eager(map[], map[]), Evs(acts));
      var pt := MemRun(s, START, acts).pt;
      var w := M.Pt(pt, e, PageOf(v));
      && (Valid(w) <==> (e, v) in t.page)
      && (Valid(w) && !Pending(c, (e, v)) ==> w.ppn < |pt.word| && pt.word[w.ppn] == EWords(t, (e, v)))
      && (Valid(w) ==> (t.page[(e, v)].writable <==> D in w.perm || COW in w.perm))
  {
    forall k: Key ensures Shows(s, START.space, k) && HoldsWords(s, START, k) {}
    StartR();
    RunProjects(s, START, Eager(map[], map[]), acts);
    var c := Run(START, Evs(acts));
    assert Shows(MemRun(s, START, acts), c.space, (e, v)) && HoldsWords(MemRun(s, START, acts), c, (e, v));
    CowRefinesCopy(Evs(acts), (e, v));
  }
}
