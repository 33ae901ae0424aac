/** Physical pages, two-level page tables and the TLB as one value, and what the operations of
    kern/pmap.c, kern/env.c and kern/tlbex.c do to it. */
module Memory {
  import opened Mmu

  /** A live address space: the frame of its page directory and its ASID. */
  datatype Space = Space(dir: nat, asid: nat)

  /** Physical memory seen as words, the live spaces, the two directory words of the kernel template
      base_pgdir for [UENVS, UVPT), and the frames in use since boot with their fixed counts. */
  datatype Tables = Tables(word: seq<seq<Pte>>, envs: map<nat, Space>, tmpl: seq<Pte>, kern: map<nat, nat>)

  /** What a frame is used for; an auxiliary variable that no operation reads.  A stray frame was counted
      for a directory word above PDX(UVPT), which nothing ever clears. */
  datatype Role = Kernel | Plain | Dir(env: nat) | Table(env: nat, pdx: nat) | Stray

  /** The use that naming a frame in directory word i of e gives it. */
  function WordRole(e: nat, i: nat): Role {
    if i < PDX_UTOP then Table(e, i) else Stray
  }

  type TlbKey = (nat, Va)

  datatype Mem = Mem(
    ref: seq<nat>,            // pages[i].pp_ref, a u_short
    free: seq<nat>,           // page_free_list, front first
    pt: Tables,
    asids: set<nat>,          // asid_bitmap
    tlb: map<TlbKey, Pte>,
    role: seq<Role>)

  // ----- reading

  function Rd(t: Tables, p: nat, i: nat): Pte {
    if p < |t.word| && i < |t.word[p]| then t.word[p][i] else Zero
  }

  function Pde(t: Tables, e: nat, i: nat): Pte {
    if e in t.envs then Rd(t, t.envs[e].dir, i) else Zero
  }

  /** The word the two-level walk reaches, Zero when the table is missing. */
  function Pt(t: Tables, e: nat, v: Va): Pte {
    var d := Pde(t, e, v.pdx);
    if Valid(d) then Rd(t, d.ppn, v.ptx) else Zero
  }

  predicate Maps(t: Tables, e: nat, v: Va, p: nat) {
    var w := Pt(t, e, v);
    Valid(w) && w.ppn == p
  }

  /** The user page table entries that name frame p. */
  function Refs(t: Tables, p: nat): set<(nat, Va)> {
    set e, v | e in t.envs.Keys && v in UserPages() && Maps(t, e, v, p) :: (e, v)
  }

  // ----- the steps the operations are made of

  function Wr(t: Tables, p: nat, i: nat, x: Pte): Tables {
    if p < |t.word| && i < |t.word[p]| then t.(word := t.word[p := t.word[p][i := x]]) else t
  }

  /** page_alloc when the free list is not empty. */
  function PageAlloc(s: Mem): Mem {
    if s.free == [] || s.free[0] >= |s.pt.word| then s else
    s.(free := s.free[1..], pt := s.pt.(word := s.pt.word[s.free[0] := BlankPage()]))
  }

  /** pp_ref++ on a u_short. */
  function Incref(s: Mem, p: nat): Mem {
    if p >= |s.ref| then s else s.(ref := s.ref[p := (s.ref[p] + 1) % 65536])
  }

  /** page_decref, which puts the page on the free list when the last reference goes. */
  function Decref(s: Mem, p: nat): Mem {
    if p >= |s.ref| || s.ref[p] == 0 then s
    else if s.ref[p] == 1 then s.(ref := s.ref[p := 0], free := [p] + s.free)
    else s.(ref := s.ref[p := s.ref[p] - 1])
  }

  function Asid(s: Mem, e: nat): nat {
    if e in s.pt.envs then s.pt.envs[e].asid else 0
  }

  function DirOf(s: Mem, e: nat): nat {
    if e in s.pt.envs then s.pt.envs[e].dir else 0
  }

  /** tlb_invalidate. */
  function Flush(s: Mem, e: nat, v: Va): Mem {
    s.(tlb := s.tlb - {(Asid(s, e), v)})
  }

  /** Store the page table entry of v in its table. */
  function SetPt(s: Mem, e: nat, v: Va, x: Pte): Mem {
    s.(pt := Wr(s.pt, Pde(s.pt, e, v.pdx).ppn, v.ptx, x))
  }

  /** Store directory word i. */
  function SetPde(s: Mem, e: nat, i: nat, x: Pte): Mem {
    s.(pt := Wr(s.pt, DirOf(s, e), i, x))
  }

  function SetRole(s: Mem, p: nat, r: Role): Mem {
    if p < |s.role| then s.(role := s.role[p := r]) else s
  }

  // ----- kern/pmap.c

  /** page_remove. */
  function Unmap(s: Mem, e: nat, v: Va): Mem {
    var w := Pt(s.pt, e, v);
    if Valid(w) then Flush(SetPt(Decref(s, w.ppn), e, v, Zero), e, v) else s
  }

  /** The create branch of pgdir_walk: a zeroed frame is stored in directory slot i and counted. */
  function AddTable(s: Mem, e: nat, i: nat): Mem {
    if s.free == [] then s else
    var t := s.free[0];
    SetRole(SetPde(Incref(PageAlloc(s), t), e, i, Pte(t, {D, V})), t, WordRole(e, i))
  }

  /** Store an entry for frame p where none was, and count it. */
  function Enter(s: Mem, e: nat, p: nat, v: Va, perm: Perm): Mem {
    Incref(SetPt(s, e, v, Pte(p, perm + {V})), p)
  }

  /** page_insert; the flag is false for -E_NO_MEM. */
  function Insert(s: Mem, e: nat, p: nat, v: Va, perm: Perm): (Mem, bool) {
    if Maps(s.pt, e, v, p) then (SetPt(Flush(s, e, v), e, v, Pte(p, perm + {V})), true)
    else
      var s1 := Flush(Unmap(s, e, v), e, v);
      if Valid(Pde(s1.pt, e, v.pdx)) then (Enter(s1, e, p, v, perm), true)
      else if s1.free == [] then (s1, false)
      else (Enter(AddTable(s1, e, v.pdx), e, p, v, perm), true)
  }

  // ----- kern/syscall_all.c, on envs that exist and pages that are legal

  /** sys_mem_alloc; a page that cannot be inserted stays off the free list. */
  function MemAlloc(s: Mem, e: nat, v: Va, perm: Perm): (Mem, bool) {
    if s.free == [] then (s, false) else Insert(PageAlloc(s), e, s.free[0], v, perm)
  }

  /** sys_mem_map; the flag is false for -E_INVAL and -E_NO_MEM. */
  function MemMap(s: Mem, src: nat, sv: Va, dst: nat, dv: Va, perm: Perm): (Mem, bool) {
    var w := Pt(s.pt, src, sv);
    if Valid(w) then Insert(s, dst, w.ppn, dv, perm) else (s, false)
  }

  // ----- kern/tlbex.c

  /** The pages passive_alloc accepts, all of the UVPT window among them. */
  predicate Fillable(v: Va) {
    || (User(v) && !(v.pdx == 0 && v.ptx < 0x3fe) && v != Va(508, 0x3fe))
    || (v.pdx == PDX_UVPT && v.ptx < NPTE)
  }

  /** passive_alloc.  In the UVPT window the walk ends in the page directory itself, so the inserted page
      becomes a page table, or a stray frame when the directory word is above PDX(UVPT). */
  function PassiveAlloc(s: Mem, e: nat, v: Va): (Mem, bool) {
    if v.pdx == PDX_UVPT then
      if s.free == [] then (s, false) else (AddTable(Flush(s, e, v), e, v.ptx), true)
    else MemAlloc(s, e, v, {D})
  }

  /** A TLB refill: the entry is looked up, allocated on demand, and written over some old entry. */
  function Refill(s: Mem, e: nat, v: Va, evict: set<TlbKey>): Mem {
    var s1 := if Valid(Pt(s.pt, e, v)) then s else PassiveAlloc(s, e, v).0;
    if Valid(Pt(s1.pt, e, v)) then
      s1.(tlb := (s1.tlb - evict)[(Asid(s, e), v) := Pt(s1.pt, e, v)])
    else s1
  }

  // ----- kern/env.c

  /** env_setup_vm: a directory for e holding the kernel template and its own self-map. */
  function SetupVm(s: Mem, e: nat): Mem {
    if s.free == [] || |s.pt.tmpl| != 2 then s else
    var d := s.free[0];
    var s1 := Incref(PageAlloc(s), d);
    var t1 := Wr(Wr(s1.pt, d, 509, s.pt.tmpl[0]), d, 510, s.pt.tmpl[1]);
    SetRole(s1.(pt := Wr(t1, d, PDX_UVPT, Pte(d, {V}))), d, Dir(e))
  }

  /** env_alloc for the free env e that asid_alloc gives `asid`. */
  function EnvAlloc(s: Mem, e: nat, asid: nat): Mem {
    if s.free == [] || |s.pt.tmpl| != 2 then s else
    var s1 := SetupVm(s, e);
    s1.(pt := s1.pt.(envs := s1.pt.envs[e := Space(s.free[0], asid)]), asids := s.asids + {asid})
  }

  /** The inner loop of env_free from table slot j on. */
  function ClearTable(s: Mem, e: nat, i: nat, j: nat): Mem
    decreases NPTE - j
  {
    if j >= NPTE then s else ClearTable(Unmap(s, e, Va(i, j)), e, i, j + 1)
  }

  /** The rest of the outer loop body: free the emptied table of directory slot i. */
  function DropTable(s: Mem, e: nat, i: nat): Mem {
    var t := Pde(s.pt, e, i).ppn;
    Flush(Decref(SetRole(SetPde(s, e, i, Zero), t, Plain), t), e, Va(PDX_UVPT, i))
  }

  /** One round of the outer loop. */
  function FreeSlot(s: Mem, e: nat, i: nat): Mem {
    if Valid(Pde(s.pt, e, i)) then DropTable(ClearTable(s, e, i, 0), e, i) else s
  }

  function ClearSpace(s: Mem, e: nat, i: nat): Mem
    decreases PDX_UTOP - i
  {
    if i >= PDX_UTOP then s else ClearSpace(FreeSlot(s, e, i), e, i + 1)
  }

  /** The end of env_free: the directory and the ASID. */
  function DropEnv(s: Mem, e: nat): Mem {
    var d := DirOf(s, e);
    var s1 := Flush(Decref(SetRole(s, d, Plain), d), e, Va(PDX_UVPT, PDX_UVPT));
    s1.(asids := s1.asids - {Asid(s, e)}, pt := s1.pt.(envs := s1.pt.envs - {e}))
  }

  function EnvFree(s: Mem, e: nat): Mem {
    DropEnv(ClearSpace(s, e, 0), e)
  }
}
