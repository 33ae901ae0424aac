/** Copy-on-write fork (user/lib/fork.c): the lazy address spaces, step by step, and the eager copy they
    implement. */
module Cow {
  import opened Mmu

  type Page = seq<Pte>                // the words of a frame
  type Key = (nat, nat)               // an env and a virtual page number

  const UCOW := 0x3ff                 // the page cow_entry copies through
  const USTACKTOP := 0x7f3fe          // fork copies the pages below it

  /** How far cow_entry has come for the faulting page v; `perm` is what it read from vpt. */
  datatype Pc = Idle | Trapped(v: nat, perm: Perm) | Filled(v: nat, perm: Perm) | Copied(v: nat, perm: Perm) | Mapped(v: nat)

  /** How far duppage has come: halfway, page v is mapped into the child with `perm` and not yet remapped. */
  datatype Dup = Between | Halfway(v: nat, perm: Perm)

  /** An env that fork is still filling, which does not run; an orphan once the parent is gone. */
  datatype Child = Of(parent: nat, dup: Dup) | Orphan(dup: Dup)

  /** Frames, the valid page table entries of all envs, the handler of each env, and the unborn children. */
  datatype Lazy = Lazy(content: map<nat, Page>, space: map<Key, Pte>, pc: map<nat, Pc>, child: map<nat, Child>)

  const START := Lazy(map[], map[], map[], map[])

  function PcOf(s: Lazy, e: nat): Pc {
    if e in s.pc then s.pc[e] else Idle
  }

  function Frame(s: Lazy, k: Key): nat {
    if k in s.space then s.space[k].ppn else 0
  }

  function PermOf(s: Lazy, k: Key): Perm {
    if k in s.space then s.space[k].perm else {}
  }

  function Words(s: Lazy, f: nat): Page {
    if f in s.content then s.content[f] else []
  }

  // ----- the system calls, as the map updates that page_insert and page_remove refine

  function MemAlloc(s: Lazy, k: Key, perm: Perm, f: nat): Lazy {
    s.(content := s.content[f := BlankPage()], space := s.space[k := Pte(f, perm + {V})])
  }

  function MemMap(s: Lazy, src: Key, dst: Key, perm: Perm): Lazy {
    s.(space := s.space[dst := Pte(Frame(s, src), perm + {V})])
  }

  function MemUnmap(s: Lazy, k: Key): Lazy {
    s.(space := s.space - {k})
  }

  /** e executes its program: it is not in cow_entry and not an unborn child. */
  predicate Running(s: Lazy, e: nat) {
    PcOf(s, e) == Idle && e !in s.child
  }

  /** Page k of an unborn child, whose parent has yet to remap its side. */
  predicate Pending(s: Lazy, k: Key) {
    k.0 in s.child && s.child[k.0].dup.Halfway? && s.child[k.0].dup.v == k.1
  }

  // ----- duppage and fork

  /** The permission duppage gives to both sides of a page. */
  function DupPerm(perm: Perm): Perm {
    if D in perm && LIBRARY !in perm then perm - {D} + {COW} else perm
  }

  function Duppage(s: Lazy, p: nat, c: nat, v: nat): Lazy {
    var perm := PermOf(s, (p, v));
    var s1 := MemMap(s, (p, v), (c, v), DupPerm(perm));
    if DupPerm(perm) != perm then MemMap(s1, (p, v), (p, v), DupPerm(perm)) else s1
  }

  /** What fork does to the entry at k. */
  predicate ForkEntry(s: Lazy, s': Lazy, p: nat, c: nat, n: nat, k: Key) {
    var src := if k.0 == c then (p, k.1) else k;
    if k.1 < n && (k.0 == p || k.0 == c) && src in s.space then
      k in s'.space && s'.space[k].ppn == Frame(s, src) && s'.space[k].perm == DupPerm(PermOf(s, src))
    else
      (k in s'.space <==> k in s.space) && (k in s.space ==> s'.space[k] == s.space[k])
  }

  /** s' is s after fork has dealt with every page of p below n, for the new env c. */
  ghost predicate Forked(s: Lazy, s': Lazy, p: nat, c: nat, n: nat) {
    s'.content == s.content && s'.pc == s.pc && s'.child == s.child && forall k: Key :: ForkEntry(s, s', p, c, n, k)
  }

  lemma ForkedUnique(s: Lazy, a: Lazy, b: Lazy, p: nat, c: nat, n: nat)
    requires Forked(s, a, p, c, n) && Forked(s, b, p, c, n)
    ensures a == b
  {
    forall k: Key ensures (k in a.space <==> k in b.space) && (k in a.space ==> a.space[k] == b.space[k]) {
      assert ForkEntry(s, a, p, c, n, k) && ForkEntry(s, b, p, c, n, k);
    }
    assert a.space == b.space;
  }

  ghost predicate NoPages(s: Lazy, c: nat) {
    forall v: nat :: (c, v) !in s.space
  }

  /** Every valid entry has PTE_V. */
  ghost predicate AllValid(s: Lazy) {
    forall k: Key :: k in s.space ==> V in s.space[k].perm
  }

  /** Directory slot base / 1024 of p maps something; vpd tells. */
  predicate HasPage(space: map<Key, Pte>, p: nat, base: nat) {
    exists k: Key :: k in space && k.0 == p && base <= k.1 < base + 1024
  }

  /** The address spaces in place, with the loops of fork over them. */
  class Machine {
    var content: map<nat, Page>
    var space: map<Key, Pte>
    ghost var pc: map<nat, Pc>
    ghost var child: map<nat, Child>

    constructor ()
      ensures S() == START
    {
      content, space, pc, child := map[], map[], map[], map[];
    }

    ghost function S(): Lazy
      reads this
    {
      Lazy(content, space, pc, child)
    }

    method SysMemMap(src: Key, dst: Key, perm: Perm)
      requires src in space
      modifies this`space
      ensures S() == MemMap(old(S()), src, dst, perm)
    {
      space := space[dst := Pte(space[src].ppn, perm + {V})];
    }

    method SysMemAlloc(k: Key, perm: Perm, f: nat)
      modifies this`space, this`content
      ensures S() == MemAlloc(old(S()), k, perm, f)
    {
      content := content[f := BlankPage()];
      space := space[k := Pte(f, perm + {V})];
    }

    method SysMemUnmap(k: Key)
      modifies this`space
      ensures S() == MemUnmap(old(S()), k)
    {
      space := space - {k};
    }

    /** cow_entry without interruption, for a fault of e at page v; f is the frame sys_mem_alloc picks. */
    method CowEntry(e: nat, v: nat, f: nat)
      requires Enabled(S(), Trap(e, v)) && IsFree(S(), f) && Frame(S(), (e, v)) in content
      modifies this`content, this`space, this`pc
      ensures S() == Handled(old(S()), e, v, f)
    {
      ghost var s := S();
      var perm := space[(e, v)].perm;
      perm := perm - {COW};
      perm := perm + {D};
      pc := pc[e := Trapped(v, perm)];
      assert S() == Step(s, Trap(e, v));
      FillWindow(e, v, perm, f);
      SysMemMap((e, UCOW), (e, v), perm);
      pc := pc[e := Mapped(v)];
      SysMemUnmap((e, UCOW));
      pc := pc[e := Idle];
    }

    /** A new frame at UCOW with the words of page v. */
    method FillWindow(e: nat, v: nat, perm: Perm, f: nat)
      requires PcOf(S(), e) == Trapped(v, perm) && (e, v) in space && v != UCOW && space[(e, v)].ppn in content
      requires space[(e, v)].ppn != f
      modifies this`content, this`space, this`pc
      ensures S() == Step(Step(old(S()), CowAlloc(e, f)), CowCopy(e))
    {
      SysMemAlloc((e, UCOW), perm, f);
      pc := pc[e := Filled(v, perm)];
      content := content[space[(e, UCOW)].ppn := content[space[(e, v)].ppn]];
      pc := pc[e := Copied(v, perm)];
    }

    method DoDuppage(p: nat, c: nat, vpn: nat)
      requires (p, vpn) in space
      modifies this`space
      ensures S() == Duppage(old(S()), p, c, vpn)
    {
      var perm := space[(p, vpn)].perm;
      var remap := false;
      if D in perm && LIBRARY !in perm {
        perm := perm - {D};
        perm := perm + {COW};
        remap := true;
      }
      SysMemMap((p, vpn), (c, vpn), perm);
      if remap {
        SysMemMap((p, vpn), (p, vpn), perm);
      }
    }

    /** The page loop of fork; a directory slot that holds no page is skipped. */
    method Fork(p: nat, c: nat)
      requires p != c && NoPages(S(), c) && AllValid(S())
      modifies this`space
      ensures S() == ForkSpace(old(S()), p, c)
    {
      ghost var s := S();
      ForkStart(s, p, c);
      ForkSpaceForked(s, p, c);
      var i := 0;
      while i < USTACKTOP
        invariant i % 1024 == 0
        invariant Forked(s, S(), p, c, if i < USTACKTOP then i else USTACKTOP)
      {
        if HasPage(space, p, i) {
          var j := 0;
          while j < 1024 && i + j < USTACKTOP
            invariant 0 <= j <= 1024 && i + j <= USTACKTOP
            invariant Forked(s, S(), p, c, i + j)
          {
            if (p, i + j) in space {
              ForkOne(s, S(), p, c, i + j);
              DoDuppage(p, c, i + j);
            } else {
              ForkSkip(s, S(), p, c, i + j, i + j + 1);
            }
            j := j + 1;
          }
        } else {
          ForkSkip(s, S(), p, c, i, if i + 1024 < USTACKTOP then i + 1024 else USTACKTOP);
        }
        i := i + 1024;
      }
      ForkedUnique(s, S(), ForkSpace(s, p, c), p, c, USTACKTOP);
    }
  }

  lemma ForkStart(s: Lazy, p: nat, c: nat)
    requires p != c && NoPages(s, c)
    ensures Forked(s, s, p, c, 0)
  {}

  lemma ForkOne(s: Lazy, s1: Lazy, p: nat, c: nat, v: nat)
    requires p != c && NoPages(s, c) && AllValid(s) && Forked(s, s1, p, c, v) && (p, v) in s1.space
    ensures Forked(s, Duppage(s1, p, c, v), p, c, v + 1)
  {
    var s2, n := Duppage(s1, p, c, v), v + 1;
    assert ForkEntry(s, s1, p, c, v, (p, v));
    forall k: Key ensures ForkEntry(s, s2, p, c, n, k) {
      assert ForkEntry(s, s1, p, c, v, k);
      DupValid(PermOf(s, (p, v)));
    }
  }

  /** duppage takes PTE_D away and adds PTE_COW where a private page is writable, and keeps every other bit. */
  lemma DupBits(perm: Perm, x: Flag)
    ensures x != D && x != COW ==> (x in DupPerm(perm) <==> x in perm)
    ensures D in DupPerm(perm) <==> D in perm && LIBRARY in perm
    ensures COW in DupPerm(perm) <==> COW in perm || (D in perm && LIBRARY !in perm)
  {}

  lemma DupValid(perm: Perm)
    ensures V in perm ==> DupPerm(perm) + {V} == DupPerm(perm)
  {}

  lemma ForkSkip(s: Lazy, s1: Lazy, p: nat, c: nat, m: nat, n: nat)
    requires p != c && NoPages(s, c) && Forked(s, s1, p, c, m) && m <= n
    requires forall k: Key :: k in s1.space && k.0 == p ==> !(m <= k.1 < n)
    ensures Forked(s, s1, p, c, n)
  {
    forall k: Key ensures ForkEntry(s, s1, p, c, n, k) {
      assert ForkEntry(s, s1, p, c, m, k);
      if m <= k.1 < n {
        assert ForkEntry(s, s1, p, c, m, (p, k.1));
        assert (p, k.1) !in s1.space;
      }
    }
  }

  // ----- the handler, one system call at a time

  predicate IsFree(s: Lazy, f: nat) {
    forall k: Key :: k in s.space ==> s.space[k].ppn != f
  }

  predicate Writable(s: Lazy, k: Key) {
    k in s.space && D in s.space[k].perm
  }

  datatype Ev =
    | Store(e: nat, v: nat, off: nat, x: Pte)        // of word off of a page with PTE_D
    | Trap(e: nat, v: nat)                           // a store without PTE_D enters cow_entry
    | CowAlloc(e: nat, f: nat) | CowCopy(e: nat) | CowMap(e: nat) | CowUnmap(e: nat)
    | Alloc(e: nat, v: nat, perm: Perm, f: nat)      // sys_mem_alloc or passive_alloc
    | Unmap(e: nat, v: nat)
    | Exofork(p: nat, c: nat)
    | DupMap(p: nat, c: nat, v: nat)                 // duppage: the page goes to the child,
    | DupRemap(p: nat, c: nat, v: nat)               // and a private writable one is remapped in the parent
    | Wake(p: nat, c: nat)
    | Exit(e: nat)                                   // at any point

  /** fork is given as the unique state its loops end in. */
  function ForkSpace(s: Lazy, p: nat, c: nat): Lazy {
    s.(space := map k: Key | k in s.space.Keys + (set j: Key | j in s.space && j.0 == p && j.1 < USTACKTOP :: (c, j.1)) ::
         var src := if k.0 == c && (p, k.1) in s.space && k.1 < USTACKTOP then (p, k.1) else k;
         if k.1 < USTACKTOP && (k.0 == p || src != k) then Pte(Frame(s, src), DupPerm(PermOf(s, src)))
         else s.space[k])
  }

  lemma ForkSpaceForked(s: Lazy, p: nat, c: nat)
    requires p != c && NoPages(s, c)
    ensures Forked(s, ForkSpace(s, p, c), p, c, USTACKTOP)
  {
    var s' := ForkSpace(s, p, c);
    forall k: Key ensures ForkEntry(s, s', p, c, USTACKTOP, k) {
      assert k.0 == c ==> k !in s.space by { assert (c, k.1) !in s.space; }
      assert k == (k.0, k.1);
    }
  }

  function Write(b: Page, off: nat, x: Pte): Page {
    if off < |b| then b[off := x] else b
  }

  function Orphaned(x: Child, e: nat): Child {
    if x.Of? && x.parent == e then Orphan(x.dup) else x
  }

  function Step(s: Lazy, ev: Ev): Lazy {
    match ev
    case Store(e, v, off, x) =>
      var f := Frame(s, (e, v));
      s.(content := s.content[f := Write(Words(s, f), off, x)])
    case Trap(e, v) => s.(pc := s.pc[e := Trapped(v, PermOf(s, (e, v)) - {COW} + {D})])
    case CowAlloc(e, f) =>
      var pc := PcOf(s, e);
      if pc.Trapped? then MemAlloc(s, (e, UCOW), pc.perm, f).(pc := s.pc[e := Filled(pc.v, pc.perm)]) else s
    case CowCopy(e) =>
      var pc := PcOf(s, e);
      if pc.Filled? then
        s.(content := s.content[Frame(s, (e, UCOW)) := Words(s, Frame(s, (e, pc.v)))], pc := s.pc[e := Copied(pc.v, pc.perm)])
      else s
    case CowMap(e) =>
      var pc := PcOf(s, e);
      if pc.Copied? then MemMap(s, (e, UCOW), (e, pc.v), pc.perm).(pc := s.pc[e := Mapped(pc.v)]) else s
    case CowUnmap(e) => MemUnmap(s, (e, UCOW)).(pc := s.pc[e := Idle])
    case Alloc(e, v, perm, f) => MemAlloc(s, (e, v), perm, f)
    case Unmap(e, v) => MemUnmap(s, (e, v))
    case Exofork(p, c) => s.(child := s.child[c := Of(p, Between)])
    case DupMap(p, c, v) =>
      var perm := PermOf(s, (p, v));
      MemMap(s, (p, v), (c, v), DupPerm(perm)).(
        child := s.child[c := Of(p, if DupPerm(perm) != perm then Halfway(v, DupPerm(perm)) else Between)])
    case DupRemap(p, c, v) =>
      if c in s.child && s.child[c].dup.Halfway? then
        MemMap(s, (p, v), (p, v), s.child[c].dup.perm).(child := s.child[c := Of(p, Between)])
      else s
    case Wake(p, c) => s.(child := s.child - {c})
    case Exit(e) => s.(space := map k: Key | k in s.space && k.0 != e :: s.space[k], pc := s.pc[e := Idle],
                       child := map c: nat | c in s.child && c != e :: Orphaned(s.child[c], e))
  }

  predicate Done(s: Lazy, p: nat, c: nat) {
    c in s.child && s.child[c].Of? && s.child[c].parent == p ==> s.child[c].dup == Between
  }

  /** p is not in the middle of duppage. */
  ghost predicate Settled(s: Lazy, p: nat) {
    forall c: nat :: Done(s, p, c)
  }

  /** p has mapped page v into c and comes to remap it. */
  ghost predicate InDuppage(s: Lazy, p: nat, c: nat, v: nat) {
    && c in s.child && s.child[c].Of? && s.child[c].parent == p && s.child[c].dup.Halfway? && s.child[c].dup.v == v
    && forall a: nat :: a != c ==> Done(s, p, a)
  }

  /** A program does not use the UCOW page and asks for no PTE_COW; inside duppage it makes no other system
      call, though it stores, faults and gets pages on demand; sys_mem_alloc hands out a frame no entry
      names; cow_entry panics unless the page is PTE_COW; sys_exofork gives a new env. */
  ghost predicate Enabled(s: Lazy, ev: Ev) {
    match ev
    case Store(e, v, off, x) => Running(s, e) && v != UCOW && Writable(s, (e, v))
    case Trap(e, v) => Running(s, e) && v != UCOW && (e, v) in s.space && D !in PermOf(s, (e, v)) && COW in PermOf(s, (e, v))
    case CowAlloc(e, f) => PcOf(s, e).Trapped? && IsFree(s, f)
    case CowCopy(e) => PcOf(s, e).Filled?
    case CowMap(e) => PcOf(s, e).Copied?
    case CowUnmap(e) => PcOf(s, e).Mapped?
    case Alloc(e, v, perm, f) =>
      Running(s, e) && (Settled(s, e) || (e, v) !in s.space) && v != UCOW && COW !in perm && IsFree(s, f)
    case Unmap(e, v) => Running(s, e) && Settled(s, e) && v != UCOW
    case Exofork(p, c) => Running(s, p) && Settled(s, p) && p != c && Running(s, c) && NoPages(s, c)
    case DupMap(p, c, v) =>
      Running(s, p) && Settled(s, p) && c in s.child && s.child[c] == Of(p, Between) && (p, v) in s.space && v < USTACKTOP
    case DupRemap(p, c, v) => Running(s, p) && InDuppage(s, p, c, v)
    case Wake(p, c) => Running(s, p) && Settled(s, p) && c in s.child && s.child[c] == Of(p, Between)
    case Exit(e) => true
  }

  /** The state after cow_entry has run for a fault of e at page v. */
  function Handled(s: Lazy, e: nat, v: nat, f: nat): Lazy {
    Step(Step(Step(Step(Step(s, Trap(e, v)), CowAlloc(e, f)), CowCopy(e)), CowMap(e)), CowUnmap(e))
  }

  // ----- the eager machine

  /** A page of an eager address space: its own words, or a page shared between parent and children. */
  datatype EPage = Own(words: Page, writable: bool) | Share(obj: nat, writable: bool)

  datatype Eager = Eager(page: map<Key, EPage>, store: map<nat, Page>)

  function EWords(t: Eager, k: Key): Page {
    if k !in t.page then []
    else match t.page[k]
      case Own(b, _) => b
      case Share(o, _) => if o in t.store then t.store[o] else []
  }

  /** The child gets the parent's page: its own copy of a private page, or the same PTE_LIBRARY page. */
  function EagerDup(t: Eager, p: nat, c: nat, v: nat): Eager {
    if (p, v) in t.page then t.(page := t.page[(c, v) := t.page[(p, v)]]) else t
  }

  /** fork at once: every page below USTACKTOP. */
  function EagerFork(t: Eager, p: nat, c: nat): Eager {
    t.(page := map k: Key | k in t.page.Keys + (set j: Key | j in t.page && j.0 == p && j.1 < USTACKTOP :: (c, j.1)) ::
         if k.0 == c && (p, k.1) in t.page && k.1 < USTACKTOP then t.page[(p, k.1)] else t.page[k])
  }

  /** The handler steps do nothing here. */
  function EStep(t: Eager, ev: Ev): Eager {
    match ev
    case Store(e, v, off, x) =>
      if (e, v) !in t.page then t else
      (match t.page[(e, v)]
       case Own(b, w) => t.(page := t.page[(e, v) := Own(Write(b, off, x), w)])
       case Share(o, _) => t.(store := t.store[o := Write(EWords(t, (e, v)), off, x)]))
    case Alloc(e, v, perm, f) =>
      if LIBRARY in perm then
        t.(page := t.page[(e, v) := Share(f, D in perm)], store := t.store[f := BlankPage()])
      else t.(page := t.page[(e, v) := Own(BlankPage(), D in perm)])
    case Unmap(e, v) => t.(page := t.page - {(e, v)})
    case DupMap(p, c, v) => EagerDup(t, p, c, v)
    case DupRemap(p, c, v) => EagerDup(t, p, c, v)
    case Exit(e) => t.(page := map k: Key | k in t.page && k.0 != e :: t.page[k])
    case _ => t
  }

  // ----- the relation

  /** Outside the UCOW window the two machines have the same pages, with the same rights, and except on a
      page halfway through duppage with the same words. */
  predicate Same(s: Lazy, t: Eager, k: Key) {
    if k.1 == UCOW then k !in t.page
    else
      && (k in s.space <==> k in t.page)
      && (k in s.space ==>
            var w := s.space[k];
            && w.ppn in s.content
            && if LIBRARY in w.perm then
                 && t.page[k] == Share(w.ppn, D in w.perm) && COW !in w.perm
                 && w.ppn in t.store && t.store[w.ppn] == s.content[w.ppn]
               else
                 && t.page[k].Own? && (t.page[k].writable <==> D in w.perm || COW in w.perm)
                 && (!Pending(s, k) ==> t.page[k].words == s.content[w.ppn]))
  }

  /** A frame mapped PTE_D without PTE_LIBRARY has no other mapping outside the UCOW window, unless
      duppage is halfway there, and a library frame is a library frame everywhere. */
  predicate Apart(s: Lazy, k: Key, j: Key) {
    k != j && k.1 != UCOW && j.1 != UCOW && k in s.space && j in s.space && s.space[k].ppn == s.space[j].ppn ==>
      && (LIBRARY in s.space[k].perm <==> LIBRARY in s.space[j].perm)
      && (LIBRARY !in s.space[k].perm && !Pending(s, j) ==> D !in s.space[k].perm)
  }

  /** Halfway through duppage the parent still has the page writable, in the frame the child got. */
  predicate Half(s: Lazy, p: nat, c: nat, v: nat, perm: Perm) {
    && p !in s.child && (p, v) in s.space && D in PermOf(s, (p, v)) && LIBRARY !in PermOf(s, (p, v))
    && perm == DupPerm(PermOf(s, (p, v))) && (c, v) in s.space && s.space[(c, v)] == Pte(Frame(s, (p, v)), perm + {V})
  }

  predicate ChildOk(s: Lazy, c: nat) {
    c in s.child ==>
      && PcOf(s, c) == Idle
      && match s.child[c].dup
         case Between => true
         case Halfway(v, perm) =>
           && v != UCOW && (c, v) in s.space && D !in PermOf(s, (c, v)) && LIBRARY !in PermOf(s, (c, v))
           && (s.child[c].Of? ==> Half(s, s.child[c].parent, c, v, perm))
  }

  /** The page the handler of e is about to replace still waits unchanged. */
  predicate Source(s: Lazy, e: nat, v: nat, perm: Perm) {
    v != UCOW && (e, v) in s.space && D !in PermOf(s, (e, v)) && COW in PermOf(s, (e, v))
    && perm == PermOf(s, (e, v)) - {COW} + {D}
  }

  predicate Window(s: Lazy, e: nat) {
    var u := (e, UCOW);
    match PcOf(s, e)
    case Idle => u !in s.space
    case Trapped(v, perm) => u !in s.space && Source(s, e, v, perm)
    case Filled(v, perm) => u in s.space && Frame(s, u) in s.content && Source(s, e, v, perm)
    case Copied(v, perm) => u in s.space && Source(s, e, v, perm) && Frame(s, u) in s.content
                            && Words(s, Frame(s, u)) == Words(s, Frame(s, (e, v)))
    case Mapped(v) => v != UCOW && u in s.space && (e, v) in s.space && Frame(s, (e, v)) == Frame(s, u)
  }

  /** The frame in the window is seen nowhere else, except where cow_entry has just mapped it. */
  predicate WindowApart(s: Lazy, e: nat, k: Key) {
    (e, UCOW) in s.space && k in s.space && k != (e, UCOW) && s.space[k].ppn == Frame(s, (e, UCOW)) ==>
      PcOf(s, e).Mapped? && k == (e, PcOf(s, e).v)
  }

  ghost predicate R(s: Lazy, t: Eager) {
    && AllValid(s)
    && (forall k: Key :: Same(s, t, k))
    && (forall k: Key, j: Key :: Apart(s, k, j))
    && (forall e: nat :: Window(s, e))
    && (forall e: nat, k: Key :: WindowApart(s, e, k))
    && (forall c: nat :: ChildOk(s, c))
  }

  /** Related machines let each env read the same words of the same pages, and a store that the eager
      machine allows is either direct or a copy-on-write fault. */
  lemma SameView(s: Lazy, t: Eager, k: Key)
    requires R(s, t) && k.1 != UCOW
    ensures k in s.space <==> k in t.page
    ensures k in s.space && !Pending(s, k) ==> Words(s, Frame(s, k)) == EWords(t, k)
    ensures k in s.space ==> (t.page[k].writable <==> D in PermOf(s, k) || COW in PermOf(s, k))
  {
    assert Same(s, t, k);
  }
}
