/** kern/pmap.c and the memory half of kern/env.c and kern/tlbex.c, in place: counts and page words in
    arrays, the free list threaded through pp_link.  Each method is tied to the operation of the same
    name in Memory, about which the results are proved. */
module Pmap {
  import opened Common
  import opened Mmu
  import opened Memory
  import opened MemoryInv
  import opened MemoryOps
  import opened EnvMemory
  import opened Tlb
  import opened MemoryRuns
  import opened MemoryTheorems
  import opened Queue
  import opened Bits

  /** Pte*: a word of a frame, or NULL. */
  datatype PtePtr = NoPte | PteAt(frame: nat, index: nat)

  class Machine {
    const ref: array<nat>             // pages[i].pp_ref
    const word: array<seq<Pte>>       // physical memory, one frame per slot
    const list: List                  // page_free_list and the pp_link fields
    const asidBitmap: array<Word>     // asid_bitmap
    var tlb: map<TlbKey, Pte>
    var envs: map<nat, Space>         // env_pgdir and env_asid of the live envs
    const tmpl: seq<Pte>              // base_pgdir[PDX(UTOP)..PDX(UVPT)]
    ghost const kern: map<nat, nat>
    ghost var free: seq<nat>          // what page_free_list holds
    ghost var role: seq<Role>

    ghost function S(): Mem
      reads this, ref, word, list, list.next, list.prev, asidBitmap
    {
      Mem(ref[..], free, Tables(word[..], envs, tmpl, kern), Asids(asidBitmap[..]), tlb, role)
    }

    /** The arrays belong together and the free list is well formed. */
    ghost predicate Shape()
      reads this, ref, word, list, list.next, list.prev, asidBitmap
    {
      && ref as object != word && ref as object != list.next && ref as object != list.prev
      && word as object != list.next && word as object != list.prev && list.next as object != list.prev
      && asidBitmap as object != ref && asidBitmap as object != word
      && asidBitmap as object != list.next && asidBitmap as object != list.prev
      && asidBitmap.Length == 2
      && |list.Mem().next| == ref.Length == word.Length
      && Linked(list.Mem(), free)
      && (forall p :: p in free ==> p < ref.Length)
    }

    /** mips_vm_init: the zeroed pages array, over frames that hold zeros. */
    constructor VmInit(npage: nat, used: nat, tmpl: seq<Pte>)
      ensures Shape() && ref.Length == npage && free == [] && this.tmpl == tmpl && kern == Kept(used)
      ensures envs == map[] && tlb == map[] && asidBitmap[..] == [{}, {}]
      ensures word[..] == seq(npage, _ => BlankPage())
      ensures role == seq(npage, p => if p < used then Kernel else Plain)
      ensures fresh(ref) && fresh(word) && fresh(list) && fresh(list.next) && fresh(list.prev) && fresh(asidBitmap)
    {
      ref := new nat[npage](_ => 0);
      word := new seq<Pte>[npage](_ => BlankPage());
      list := new List(npage);
      asidBitmap := new Word[2](_ => {});
      tlb, envs, this.tmpl := map[], map[], tmpl;
      kern := Kept(used);
      free := [];
      role := seq(npage, p => if p < used then Kernel else Plain);
      new;
      assert word[..] == seq(npage, _ => BlankPage());
    }

    /** page_init: frames below `used` keep count 1, the others are put on the free list one by one.
        base_pgdir and its tables are among the kept frames. */
    method PageInit(used: nat)
      requires Shape() && used <= ref.Length && free == [] && |tmpl| == 2 && kern == Kept(used)
      requires forall i :: 0 <= i < 2 ==> Valid(tmpl[i]) && tmpl[i].ppn < used
      requires envs == map[] && tlb == map[] && asidBitmap[..] == [{}, {}]
      requires forall p :: 0 <= p < word.Length ==> |word[p]| == NPTE
      requires role == seq(ref.Length, p => if p < used then Kernel else Plain)
      modifies this`free, ref, list, list.next, list.prev
      ensures Shape() && Sound(S())
      ensures |free| == ref.Length - used && forall k :: 0 <= k < |free| ==> free[k] == ref.Length - 1 - k
      ensures forall p :: 0 <= p < ref.Length ==> ref[p] == if p < used then 1 else 0
    {
      var i := 0;
      while i < used
        invariant 0 <= i <= used
        invariant forall p :: 0 <= p < i ==> ref[p] == 1
        modifies ref
      {
        ref[i] := 1;
        i := i + 1;
      }
      while i < ref.Length
        invariant used <= i <= ref.Length
        invariant forall p :: 0 <= p < i ==> ref[p] == if p < used then 1 else 0
        invariant Shape()
        invariant |free| == i - used && forall k :: 0 <= k < |free| ==> free[k] == i - 1 - k
        modifies this`free, ref, list, list.next, list.prev
      {
        InsertHeadKeeps(list.Mem(), free, i);
        if free != [] { assert Cell(list.Mem(), free, 0); }
        list.ListInsertHead(i);
        ref[i] := 0;
        free := [i] + free;
        i := i + 1;
      }
      NoAsids(asidBitmap[..]);
      BootState(S(), ref.Length, used);
    }

    // ----- page_alloc, page_free, page_decref

    method PageAllocate() returns (ok: bool, pp: nat)
      requires Shape()
      modifies this`free, word, list, list.next, list.prev
      ensures Shape()
      ensures ok <==> old(free) != []
      ensures ok ==> pp == old(free)[0] && S() == PageAlloc(old(S()))
      ensures !ok ==> S() == old(S())
    {
      if list.first.Null? {
        assert free == [];
        return false, 0;
      }
      pp := list.first.elm;
      TakeFirst(list.Mem(), free);
      list.ListRemove(pp);
      ghost var was := free;
      free := free[1..];
      forall p | p in free ensures p in was {}
      word[pp] := BlankPage();
      ok := true;
    }

    method PageFree(pp: nat)
      requires Shape() && pp < ref.Length && pp !in free && ref[pp] == 0
      modifies this`free, list, list.next, list.prev
      ensures Shape()
      ensures free == [pp] + old(free) && S() == old(S()).(free := free)
    {
      InsertHeadKeeps(list.Mem(), free, pp);
      if free != [] { assert Cell(list.Mem(), free, 0); }
      list.ListInsertHead(pp);
      free := [pp] + free;
    }

    method PageDecref(pp: nat)
      requires Shape() && pp < ref.Length && ref[pp] > 0 && pp !in free
      modifies this`free, ref, list, list.next, list.prev
      ensures Shape()
      ensures S() == Decref(old(S()), pp)
    {
      ref[pp] := ref[pp] - 1;
      if ref[pp] == 0 {
        PageFree(pp);
      }
    }

    method TlbInvalidate(asid: nat, v: Va)
      modifies this`tlb
      ensures tlb == old(tlb) - {(asid, v)}
    {
      tlb := tlb - {(asid, v)};
    }

    ghost predicate Live(e: nat, pgdir: nat, asid: nat)
      reads this`envs
    {
      e in envs && envs[e] == Space(pgdir, asid)
    }

    // ----- pgdir_walk

    /** Follow pgdir to the word that translates v; rc is 0, 1 (no table) or -E_NO_MEM. */
    method PgdirWalk(pgdir: nat, v: Va, create: bool, ghost e: nat, ghost asid: nat) returns (rc: int, pte: PtePtr)
      requires Shape() && Inv(S()) && Live(e, pgdir, asid) && v.pdx < NPTE
      requires create ==> v.pdx < PDX_UTOP || Valid(Pde(S().pt, e, v.pdx))
      modifies this`free, this`role, ref, word, list, list.next, list.prev
      ensures Shape()
      ensures S() == if !create || Valid(Pde(old(S()).pt, e, v.pdx)) then old(S()) else AddTable(old(S()), e, v.pdx)
      ensures rc == 0 <==> Valid(Pde(S().pt, e, v.pdx))
      ensures rc == 0 ==> pte == PteAt(Pde(S().pt, e, v.pdx).ppn, v.ptx)
      ensures rc != 0 ==> pte == NoPte && rc == if create then -E_NO_MEM else 1
    {
      Bounds(S(), e);
      if !Valid(word[pgdir][v.pdx]) {
        if !create {
          return 1, NoPte;
        }
        ghost var s := S();
        var ok, pp := PageAllocate();
        if !ok {
          return -E_NO_MEM, NoPte;
        }
        AddTableKeeps(s, e, v.pdx);
        AddTableEffect(s, e, v.pdx, e, v);
        assert pp in s.free && FreeOk(s.ref, s.role, pp) && EnvOk(s.role, s.pt, s.asids, e);
        ref[pp] := (ref[pp] + 1) % 65536;
        word[pgdir] := word[pgdir][v.pdx := Pte(pp, {D, V})];
        role := role[pp := WordRole(e, v.pdx)];
      }
      pte := PteAt(word[pgdir][v.pdx].ppn, v.ptx);
      rc := 0;
    }

    // ----- page_lookup, page_remove, page_insert

    method PageLookup(pgdir: nat, v: Va, ghost e: nat, ghost asid: nat) returns (found: bool, pp: nat, pte: PtePtr)
      requires Shape() && Inv(S()) && Live(e, pgdir, asid) && Known(v)
      modifies this`free, this`role, ref, word, list, list.next, list.prev
      ensures Shape() && S() == old(S())
      ensures found <==> Valid(Pt(S().pt, e, v))
      ensures found ==> pp == Pt(S().pt, e, v).ppn && pte == PteAt(Pde(S().pt, e, v.pdx).ppn, v.ptx)
    {
      var rc;
      rc, pte := PgdirWalk(pgdir, v, false, e, asid);
      if pte.NoPte? {
        return false, 0, NoPte;
      }
      TableBounds(S(), e, v);
      if !Valid(word[pte.frame][pte.index]) {
        return false, 0, NoPte;
      }
      return true, word[pte.frame][pte.index].ppn, pte;
    }

    method StorePte(pte: PtePtr, x: Pte)
      requires pte.PteAt? && pte.frame < word.Length && pte.index < |word[pte.frame]|
      modifies word
      ensures word[..] == old(word[..])[pte.frame := old(word[pte.frame])[pte.index := x]]
    {
      word[pte.frame] := word[pte.frame][pte.index := x];
    }

    method PageRemove(pgdir: nat, asid: nat, v: Va, ghost e: nat)
      requires Shape() && Inv(S()) && Live(e, pgdir, asid) && User(v)
      modifies this`free, this`role, this`tlb, ref, word, list, list.next, list.prev
      ensures Shape() && S() == Unmap(old(S()), e, v)
    {
      var found, pp, pte := PageLookup(pgdir, v, e, asid);
      if !found {
        return;
      }
      EntryCounted(S(), 0, e, v);
      TableBounds(S(), e, v);
      PageDecref(pp);
      StorePte(pte, Zero);
      TlbInvalidate(asid, v);
    }

    method PageInsert(pgdir: nat, asid: nat, pp: nat, v: Va, perm: Perm, ghost e: nat) returns (rc: int)
      requires Shape() && Inv(S()) && Live(e, pgdir, asid) && User(v)
      requires Held(S(), pp) && G !in perm
      modifies this`free, this`role, this`tlb, ref, word, list, list.next, list.prev
      ensures Shape() && S() == Insert(old(S()), e, pp, v, perm).0
      ensures rc == if Insert(old(S()), e, pp, v, perm).1 then 0 else -E_NO_MEM
    {
      ghost var s := S();
      var pte;
      rc, pte := PgdirWalk(pgdir, v, false, e, asid);
      if pte.PteAt? {
        TableBounds(s, e, v);
        if Valid(word[pte.frame][pte.index]) {
          if word[pte.frame][pte.index].ppn != pp {
            UnmapTlb(s, e, v);
            PageRemove(pgdir, asid, v, e);
          } else {
            TlbInvalidate(asid, v);
            StorePte(pte, Pte(pp, perm + {V}));
            return 0;
          }
        }
      }
      ClearedKeeps(s, e, v, pp);
      TlbInvalidate(asid, v);
      assert S() == Cleared(s, e, v);
      rc := PageEnter(pgdir, asid, pp, v, perm, e);
    }

    /** Steps 3 and 4 of page_insert: find or create the table, store the entry, count the page. */
    method PageEnter(pgdir: nat, asid: nat, pp: nat, v: Va, perm: Perm, ghost e: nat) returns (rc: int)
      requires Shape() && Inv(S()) && Live(e, pgdir, asid) && User(v) && !Valid(Pt(S().pt, e, v))
      requires Held(S(), pp) && G !in perm
      modifies this`free, this`role, ref, word, list, list.next, list.prev
      ensures Shape()
      ensures rc == 0 || rc == -E_NO_MEM
      ensures rc == 0 <==> Valid(Pde(old(S()).pt, e, v.pdx)) || old(free) != []
      ensures rc != 0 ==> S() == old(S())
      ensures rc == 0 ==> S() == Enter(if Valid(Pde(old(S()).pt, e, v.pdx)) then old(S())
                                       else AddTable(old(S()), e, v.pdx), e, pp, v, perm)
    {
      ghost var s := S();
      if !Valid(Pde(s.pt, e, v.pdx)) && s.free != [] {
        AddTableKeeps(s, e, v.pdx);
        AddTableEffect(s, e, v.pdx, e, v);
      }
      var pte;
      rc, pte := PgdirWalk(pgdir, v, true, e, asid);
      if rc != 0 {
        return -E_NO_MEM;
      }
      StoreCounted(pte, pp, v, perm, e);
    }

    /** `*pte = page2pa(pp) | perm | PTE_V; pp->pp_ref++` */
    method StoreCounted(pte: PtePtr, pp: nat, v: Va, perm: Perm, ghost e: nat)
      requires Shape() && Inv(S()) && e in envs && User(v) && Valid(Pde(S().pt, e, v.pdx)) && pp < ref.Length
      requires pte == PteAt(Pde(S().pt, e, v.pdx).ppn, v.ptx)
      modifies ref, word
      ensures Shape() && S() == Enter(old(S()), e, pp, v, perm)
    {
      TableBounds(S(), e, v);
      StorePte(pte, Pte(pp, perm + {V}));
      ref[pp] := (ref[pp] + 1) % 65536;
    }

    // ----- sys_mem_alloc, sys_mem_map, sys_mem_unmap on envs that envid2env has found

    method SysMemAlloc(e: nat, v: Va, perm: Perm) returns (rc: int)
      requires Shape() && Sound(S()) && e in envs && v.ptx < NPTE && G !in perm
      modifies this`free, this`role, this`tlb, ref, word, list, list.next, list.prev
      ensures Shape() && Sound(S())
      ensures IllegalVa(v) ==> rc == -E_INVAL && S() == old(S())
      ensures !IllegalVa(v) ==> S() == MemAlloc(old(S()), e, v, perm).0
                                && rc == if MemAlloc(old(S()), e, v, perm).1 then 0 else -E_NO_MEM
    {
      if IllegalVa(v) {
        return -E_INVAL;
      }
      MemAllocSound(S(), e, v, perm);
      if free != [] { AllocHeld(S(), e, v); }
      var ok, pp := PageAllocate();
      if !ok {
        return -E_NO_MEM;
      }
      rc := PageInsert(envs[e].dir, envs[e].asid, pp, v, perm, e);
    }

    method SysMemMap(src: nat, sv: Va, dst: nat, dv: Va, perm: Perm) returns (rc: int)
      requires Shape() && Sound(S()) && src in envs && dst in envs && sv.ptx < NPTE && dv.ptx < NPTE && G !in perm
      requires !IllegalVa(sv) && Valid(Pt(S().pt, src, sv)) ==> CanCount(S(), Pt(S().pt, src, sv).ppn)
      modifies this`free, this`role, this`tlb, ref, word, list, list.next, list.prev
      ensures Shape() && Sound(S())
      ensures IllegalVa(sv) || IllegalVa(dv) || !Valid(Pt(old(S()).pt, src, sv)) ==> rc == -E_INVAL && S() == old(S())
      ensures !IllegalVa(sv) && !IllegalVa(dv) && Valid(Pt(old(S()).pt, src, sv)) ==>
        S() == MemMap(old(S()), src, sv, dst, dv, perm).0
        && rc == if MemMap(old(S()), src, sv, dst, dv, perm).1 then 0 else -E_NO_MEM
    {
      if IllegalVa(sv) || IllegalVa(dv) {
        return -E_INVAL;
      }
      MemMapSound(S(), src, sv, dst, dv, perm);
      var found, pp, pte := PageLookup(envs[src].dir, sv, src, envs[src].asid);
      if !found {
        return -E_INVAL;
      }
      EntryCounted(S(), 0, src, sv);
      rc := PageInsert(envs[dst].dir, envs[dst].asid, pp, dv, perm, dst);
    }

    method SysMemUnmap(e: nat, v: Va) returns (rc: int)
      requires Shape() && Sound(S()) && e in envs && v.ptx < NPTE
      modifies this`free, this`role, this`tlb, ref, word, list, list.next, list.prev
      ensures Shape() && Sound(S())
      ensures rc == (if IllegalVa(v) then -E_INVAL else 0)
      ensures S() == if IllegalVa(v) then old(S()) else Unmap(old(S()), e, v)
    {
      if IllegalVa(v) {
        return -E_INVAL;
      }
      UnmapSound(S(), e, v);
      PageRemove(envs[e].dir, envs[e].asid, v, e);
      rc := 0;
    }

    // ----- the TLB refill

    method DoPassiveAlloc(v: Va, e: nat)
      requires Shape() && Sound(S()) && e in envs && Fillable(v) && v.ptx < NPTE && !Valid(Pt(S().pt, e, v))
      requires PassiveAlloc(S(), e, v).1
      modifies this`free, this`role, this`tlb, ref, word, list, list.next, list.prev
      ensures Shape() && S() == PassiveAlloc(old(S()), e, v).0
    {
      if v.pdx == PDX_UVPT {
        WindowInsert(v, e);
      } else {
        UserInsert(v, e);
      }
    }

    /** passive_alloc of a UVPT page. */
    method WindowInsert(v: Va, e: nat)
      requires Shape() && Sound(S()) && e in envs && v.pdx == PDX_UVPT && v.ptx < NPTE && !Valid(Pt(S().pt, e, v))
      requires free != []
      modifies this`free, this`role, this`tlb, ref, word, list, list.next, list.prev
      ensures Shape() && S() == PassiveAlloc(old(S()), e, v).0
    {
      ghost var s := S();
      AllocHeld(s, e, v);
      SelfMap(s, e, v.ptx);
      assert EnvOk(s.role, s.pt, s.asids, e);
      var ok, pp := PageAllocate();
      UvptInsert(pp, v, e, s);
    }

    /** passive_alloc of a user page. */
    method UserInsert(v: Va, e: nat)
      requires Shape() && Sound(S()) && e in envs && User(v) && free != []
      modifies this`free, this`role, this`tlb, ref, word, list, list.next, list.prev
      ensures Shape() && S() == MemAlloc(old(S()), e, v, {D}).0
    {
      AllocHeld(S(), e, v);
      var ok, pp := PageAllocate();
      var rc := PageInsert(envs[e].dir, envs[e].asid, pp, v, {D}, e);
    }

    /** page_insert at a UVPT page: the self-map makes the directory word itself the entry stored. */
    method UvptInsert(pp: nat, v: Va, e: nat, ghost s: Mem)
      requires Sound(s) && s.free != [] && pp == s.free[0] && S() == PageAlloc(s)
      requires Shape() && Inv(S()) && e in envs && v.pdx == PDX_UVPT && Linkable(v.ptx) && !Valid(Pt(s.pt, e, v))
      modifies this`role, this`tlb, this`free, ref, word, list, list.next, list.prev
      ensures Shape() && S() == PassiveAlloc(s, e, v).0
    {
      var pgdir, asid := envs[e].dir, envs[e].asid;
      UvptEntry(S(), e);
      var rc, pte := PgdirWalk(pgdir, v, false, e, asid);
      assert s.free[0] in s.free && FreeOk(s.ref, s.role, pp);
      TlbInvalidate(asid, v);
      StorePte(pte, Pte(pp, {D, V}));
      ref[pp] := (ref[pp] + 1) % 65536;
      role := role[pp := WordRole(e, v.ptx)];
    }

    /** _do_tlb_refill followed by tlbwr, which overwrites the entries `evict` names; `passes` is how
        often passive_alloc ran. */
    method DoTlbRefill(v: Va, e: nat, evict: set<TlbKey>) returns (pte: Pte, passes: nat)
      requires Shape() && Sound(S()) && e in envs && Known(v)
      requires Valid(Pt(S().pt, e, v)) || (Fillable(v) && PassiveAlloc(S(), e, v).1)
      modifies this`free, this`role, this`tlb, ref, word, list, list.next, list.prev
      ensures Shape() && Sound(S()) && S() == Refill(old(S()), e, v, evict)
      ensures passes == if Valid(Pt(old(S()).pt, e, v)) then 0 else 1
      ensures Valid(pte) && pte == Pt(S().pt, e, v) && tlb[(envs[e].asid, v)] == pte
    {
      RefillSound(S(), e, v, evict);
      var ppte;
      ppte, passes := LookupLoop(v, e);
      TableBounds(S(), e, v);
      pte := word[ppte.frame][ppte.index];
      tlb := (tlb - evict)[(envs[e].asid, v) := pte];
    }

    /** The loop of _do_tlb_refill. */
    method LookupLoop(v: Va, e: nat) returns (ppte: PtePtr, passes: nat)
      requires Shape() && Sound(S()) && e in envs && Known(v)
      requires Valid(Pt(S().pt, e, v)) || (Fillable(v) && PassiveAlloc(S(), e, v).1)
      modifies this`free, this`role, this`tlb, ref, word, list, list.next, list.prev
      ensures Shape() && Sound(S()) && envs == old(envs)
      ensures S() == if Valid(Pt(old(S()).pt, e, v)) then old(S()) else PassiveAlloc(old(S()), e, v).0
      ensures passes == if Valid(Pt(old(S()).pt, e, v)) then 0 else 1
      ensures Valid(Pt(S().pt, e, v)) && ppte == PteAt(Pde(S().pt, e, v.pdx).ppn, v.ptx)
    {
      ghost var s := S();
      if !Valid(Pt(s.pt, e, v)) { PassiveAllocSound(s, e, v); }
      passes := 0;
      var found, pp;
      found, pp, ppte := PageLookup(envs[e].dir, v, e, envs[e].asid);
      while !found
        invariant Shape() && Sound(S()) && envs == s.pt.envs
        invariant found <==> Valid(Pt(S().pt, e, v))
        invariant !found ==> passes == 0 && S() == s
        invariant found ==> passes == (if Valid(Pt(s.pt, e, v)) then 0 else 1)
        invariant found ==> S() == if Valid(Pt(s.pt, e, v)) then s else PassiveAlloc(s, e, v).0
        invariant found ==> ppte == PteAt(Pde(S().pt, e, v.pdx).ppn, v.ptx)
        decreases !found
      {
        passes := passes + 1;
        found, ppte := FillAndLook(v, e);
      }
    }

    /** One turn of that loop: passive_alloc, and the lookup again. */
    method FillAndLook(v: Va, e: nat) returns (found: bool, ppte: PtePtr)
      requires Shape() && Sound(S()) && e in envs && Fillable(v) && v.ptx < NPTE && !Valid(Pt(S().pt, e, v))
      requires PassiveAlloc(S(), e, v).1
      modifies this`free, this`role, this`tlb, ref, word, list, list.next, list.prev
      ensures Shape() && Sound(S()) && S() == PassiveAlloc(old(S()), e, v).0
      ensures found && Valid(Pt(S().pt, e, v)) && ppte == PteAt(Pde(S().pt, e, v.pdx).ppn, v.ptx)
    {
      PassiveAllocSound(S(), e, v);
      DoPassiveAlloc(v, e);
      var pp;
      found, pp, ppte := PageLookup(envs[e].dir, v, e, envs[e].asid);
    }

    // ----- asid_alloc, asid_free

    method AsidAlloc() returns (ok: bool, asid: nat)
      requires asidBitmap.Length == 2
      modifies asidBitmap
      ensures ok ==> asid < NASID && asid !in Asids(old(asidBitmap[..])) && forall b: nat :: b < asid ==> b in Asids(old(asidBitmap[..]))
      ensures ok ==> Asids(asidBitmap[..]) == Asids(old(asidBitmap[..])) + {asid}
      ensures !ok ==> asidBitmap[..] == old(asidBitmap[..]) && forall b: nat :: b < NASID ==> b in Asids(asidBitmap[..])
    {
      ghost var b := asidBitmap[..];
      asid := 0;
      while asid < NASID
        invariant 0 <= asid <= NASID && asidBitmap[..] == b
        invariant forall c: nat :: c < asid ==> c in Asids(b)
      {
        var index, inner := asid / 32, asid % 32;
        if inner !in asidBitmap[index] {
          asidBitmap[index] := asidBitmap[index] + {inner};
          assert asidBitmap[..] == Set(b, asid);
          AsidSet(b, asid);
          return true, asid;
        }
        asid := asid + 1;
      }
      ok := false;
    }

    method AsidFree(asid: nat)
      requires asidBitmap.Length == 2 && asid < NASID
      modifies asidBitmap
      ensures Asids(asidBitmap[..]) == Asids(old(asidBitmap[..])) - {asid}
    {
      ghost var b := asidBitmap[..];
      var index, inner := asid / 32, asid % 32;
      asidBitmap[index] := asidBitmap[index] - {inner};
      assert asidBitmap[..] == Clear(b, asid);
      AsidClear(b, asid);
    }

    // ----- env_alloc, env_free

    method EnvSetupVm(ghost e: nat) returns (rc: int, d: nat)
      requires Shape() && Inv(S())
      modifies this`free, this`role, ref, word, list, list.next, list.prev
      ensures Shape()
      ensures rc == if old(free) == [] then -E_NO_MEM else 0
      ensures rc != 0 ==> S() == old(S())
      ensures rc == 0 ==> d == old(free)[0] && S() == SetupVm(old(S()), e)
    {
      ghost var s := S();
      var ok;
      ok, d := PageAllocate();
      if !ok {
        return -E_NO_MEM, 0;
      }
      assert d in s.free && FreeOk(s.ref, s.role, d);
      ref[d] := (ref[d] + 1) % 65536;
      word[d] := word[d][509 := tmpl[0]];
      word[d] := word[d][510 := tmpl[1]];
      word[d] := word[d][PDX_UVPT := Pte(d, {V})];
      role := role[d := Dir(e)];
      rc := 0;
    }

    /** env_alloc for e, the head of env_free_list; running out of ASIDs panics. */
    method EnvAllocate(e: nat) returns (rc: int, asid: nat)
      requires Shape() && Sound(S()) && e !in envs
      requires exists a: nat :: a < NASID && a !in Asids(asidBitmap[..])
      modifies this`free, this`role, this`envs, ref, word, list, list.next, list.prev, asidBitmap
      ensures Shape()
      ensures rc == if old(free) == [] then -E_NO_MEM else 0
      ensures rc != 0 ==> S() == old(S())
      ensures rc == 0 ==> asid < NASID && asid !in Asids(old(asidBitmap[..]))
      ensures rc == 0 ==> S() == EnvAlloc(old(S()), e, asid) && Sound(S())
    {
      ghost var s := S();
      var d;
      rc, d := EnvSetupVm(e);
      if rc != 0 {
        return rc, 0;
      }
      var ok;
      ok, asid := AsidAlloc();
      envs := envs[e := Space(d, asid)];
      EnvAllocSound(s, e, asid);
    }

    /** The inner loop of env_free: unmap every page of one table. */
    method ClearTablePages(e: nat, i: nat)
      requires Shape() && Sound(S()) && e in envs && i < PDX_UTOP && Valid(Pde(S().pt, e, i))
      modifies this`free, this`role, this`tlb, ref, word, list, list.next, list.prev
      ensures Shape() && S() == ClearTable(old(S()), e, i, 0)
    {
      ghost var s := S();
      Bounds(s, e);
      var pt := word[envs[e].dir][i].ppn;
      var j := 0;
      while j < NPTE
        invariant 0 <= j <= NPTE && Shape() && Sound(S()) && envs == s.pt.envs
        invariant SameSlot(s, S(), e, i)
        invariant ClearTable(S(), e, i, j) == ClearTable(s, e, i, 0)
      {
        ghost var s1 := S();
        UnmapElsewhere(s1, e, i, j);
        ClearEntry(e, pt, Va(i, j));
        assert SameSlot(s1, S(), e, i);
        j := j + 1;
      }
    }

    method ClearEntry(e: nat, pt: nat, v: Va)
      requires Shape() && Inv(S()) && e in envs && User(v)
      requires Valid(Pde(S().pt, e, v.pdx)) && pt == Pde(S().pt, e, v.pdx).ppn
      modifies this`free, this`role, this`tlb, ref, word, list, list.next, list.prev
      ensures Shape() && S() == Unmap(old(S()), e, v)
    {
      TableBounds(S(), e, v);
      if Valid(word[pt][v.ptx]) {
        PageRemove(envs[e].dir, envs[e].asid, v, e);
      }
    }

    method DropPageTable(e: nat, i: nat)
      requires Shape() && Inv(S()) && e in envs && i < PDX_UTOP && Valid(Pde(S().pt, e, i)) && EmptyTable(S(), e, i)
      modifies this`free, this`role, this`tlb, ref, word, list, list.next, list.prev
      ensures Shape() && S() == DropTable(old(S()), e, i)
    {
      Bounds(S(), e);
      DropTableKeeps(S(), e, i);
      TableUnfree(S(), e, i);
      var pgdir := envs[e].dir;
      var pa := word[pgdir][i].ppn;
      word[pgdir] := word[pgdir][i := Zero];
      role := role[pa := Plain];
      PageDecref(pa);
      TlbInvalidate(envs[e].asid, Va(PDX_UVPT, i));
    }

    /** The body of the outer loop of env_free. */
    method FreeDirSlot(e: nat, i: nat)
      requires Shape() && Sound(S()) && e in envs && i < PDX_UTOP
      modifies this`free, this`role, this`tlb, ref, word, list, list.next, list.prev
      ensures Shape() && S() == FreeSlot(old(S()), e, i)
    {
      Bounds(S(), e);
      if !Valid(word[envs[e].dir][i]) {
        return;
      }
      ghost var s := S();
      ClearTableSound(s, e, i, 0);
      ClearTablePages(e, i);
      assert SameSlot(s, S(), e, i);
      DropPageTable(e, i);
    }

    method DropDirectory(e: nat)
      requires Shape() && Inv(S()) && e in envs && EmptySpace(S(), e)
      modifies this`free, this`role, this`tlb, this`envs, ref, list, list.next, list.prev, asidBitmap
      ensures Shape() && S() == DropEnv(old(S()), e)
    {
      DropEnvKeeps(S(), e);
      DirUnfree(S(), e);
      var d, asid := envs[e].dir, envs[e].asid;
      role := role[d := Plain];
      PageDecref(d);
      AsidFree(asid);
      TlbInvalidate(asid, Va(PDX_UVPT, PDX_UVPT));
      envs := envs - {e};
    }

    /** The outer loop of env_free. */
    method ClearTables(e: nat)
      requires Shape() && Sound(S()) && e in envs
      modifies this`free, this`role, this`tlb, ref, word, list, list.next, list.prev
      ensures Shape() && S() == ClearSpace(old(S()), e, 0)
    {
      ghost var s := S();
      var i := 0;
      while i < PDX_UTOP
        invariant 0 <= i <= PDX_UTOP && Shape() && Sound(S()) && envs == s.pt.envs
        invariant ClearSpace(S(), e, i) == ClearSpace(s, e, 0)
      {
        FreeSlotSound(S(), e, i);
        FreeDirSlot(e, i);
        i := i + 1;
      }
    }

    method DoEnvFree(e: nat)
      requires Shape() && Sound(S()) && e in envs
      modifies this`free, this`role, this`tlb, this`envs, ref, word, list, list.next, list.prev, asidBitmap
      ensures Shape() && Sound(S()) && S() == EnvFree(old(S()), e)
    {
      EnvFreeSound(S(), e);
      ClearSpaceSound(S(), e, 0);
      ClearTables(e);
      DropDirectory(e);
    }
  }

  /** The frames page_init keeps, each counted once. */
  ghost function Kept(used: nat): (r: map<nat, nat>)
    ensures forall p: nat :: p in r <==> p < used
    ensures forall p: nat :: p < used ==> r[p] == 1
  {
    if used == 0 then map[] else Kept(used - 1)[used - 1 := 1]
  }

  lemma BootState(s: Mem, npage: nat, used: nat)
    requires used <= npage && |s.ref| == npage && |s.pt.tmpl| == 2
    requires s.pt == Tables(s.pt.word, map[], s.pt.tmpl, Kept(used))
    requires |s.pt.word| == npage && forall p :: 0 <= p < npage ==> |s.pt.word[p]| == NPTE
    requires s.asids == {} && s.tlb == map[]
    requires s.role == seq(npage, p => if p < used then Kernel else Plain)
    requires forall i :: 0 <= i < 2 ==> Valid(s.pt.tmpl[i]) && s.pt.tmpl[i].ppn < used
    requires forall p :: 0 <= p < npage ==> s.ref[p] == if p < used then 1 else 0
    requires |s.free| == npage - used && forall k :: 0 <= k < |s.free| ==> s.free[k] == npage - 1 - k
    ensures Sound(s)
  {
    forall p: nat | p < |s.ref| ensures BootFrame(s, p) {
      if used <= p { assert s.free[npage - 1 - p] == p; }
    }
    BootSound(s);
  }

  /** The bounds every access to page words relies on. */
  lemma Bounds(s: Mem, e: nat)
    requires Inv(s) && e in s.pt.envs
    ensures |s.ref| == |s.role| == |s.pt.word|
    ensures s.pt.envs[e].dir < |s.pt.word| && |s.pt.word[s.pt.envs[e].dir]| == NPTE
    ensures forall i :: 0 <= i < NPTE ==> Pde(s.pt, e, i) == s.pt.word[s.pt.envs[e].dir][i]
  {
    assert EnvOk(s.role, s.pt, s.asids, e);
    assert FrameOk(s.ref, s.role, s.pt, s.pt.envs[e].dir, 0, 0);
  }

  lemma TableBounds(s: Mem, e: nat, v: Va)
    requires Inv(s) && e in s.pt.envs && Known(v) && Valid(Pde(s.pt, e, v.pdx))
    ensures var p := Pde(s.pt, e, v.pdx).ppn;
      p < |s.pt.word| && |s.pt.word[p]| == NPTE && Pt(s.pt, e, v) == s.pt.word[p][v.ptx]
  {
    WalkRole(s, 0, 0, e, v);
    assert FrameOk(s.ref, s.role, s.pt, Pde(s.pt, e, v.pdx).ppn, 0, 0);
  }

  lemma UvptEntry(s: Mem, e: nat)
    requires Inv(s) && e in s.pt.envs
    ensures var d := s.pt.envs[e].dir;
      Pde(s.pt, e, PDX_UVPT) == Pte(d, {V}) && d < |s.pt.word| == |s.ref| == |s.role| && |s.pt.word[d]| == NPTE
  {
    assert EnvOk(s.role, s.pt, s.asids, e);
    assert FrameOk(s.ref, s.role, s.pt, s.pt.envs[e].dir, 0, 0);
  }

  lemma TableUnfree(s: Mem, e: nat, i: nat)
    requires Inv(s) && i < PDX_UTOP && Valid(Pde(s.pt, e, i))
    ensures Pde(s.pt, e, i).ppn < |s.ref| && Pde(s.pt, e, i).ppn !in s.free
  {
    var t := Pde(s.pt, e, i).ppn;
    assert PdeOk(s.role, s.pt, e, i);
    assert t in s.free ==> FreeOk(s.ref, s.role, t);
  }

  lemma DirUnfree(s: Mem, e: nat)
    requires Inv(s) && e in s.pt.envs
    ensures s.pt.envs[e].asid < NASID && s.pt.envs[e].dir !in s.free
  {
    var d := s.pt.envs[e].dir;
    assert EnvOk(s.role, s.pt, s.asids, e);
    assert d in s.free ==> FreeOk(s.ref, s.role, d);
  }

  lemma AsidSet(b: seq<Word>, a: nat)
    requires |b| == 2 && a < NASID
    ensures Asids(Set(b, a)) == Asids(b) + {a}
  {
    forall c: nat | c < NASID ensures In(Set(b, a), c) <==> a == c || In(b, c) {
      SetIn(b, a, c);
    }
  }

  lemma AsidClear(b: seq<Word>, a: nat)
    requires |b| == 2 && a < NASID
    ensures Asids(Clear(b, a)) == Asids(b) - {a}
  {
    forall c: nat | c < NASID ensures In(Clear(b, a), c) <==> a != c && In(b, c) {
      ClearIn(b, a, c);
    }
  }

  lemma NoAsids(b: seq<Word>)
    requires b == [{}, {}]
    ensures Asids(b) == {}
  {}

  /** The ASIDs whose bit is set. */
  function Asids(b: seq<Word>): set<nat> {
    set a: nat | a < NASID && In(b, a)
  }
}
