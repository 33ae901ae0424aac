/** Each page operation keeps the books and changes only the translations it should. */
module MemoryOps {
  import opened Mmu
  import opened Memory
  import opened MemoryInv

  /** Two states give the same answer for page v of env e: unmapped in both or the same entry. */
  predicate Agree(t: Tables, t': Tables, e: nat, v: Va) {
    && Valid(Pt(t', e, v)) == Valid(Pt(t, e, v))
    && (Valid(Pt(t, e, v)) ==> Pt(t', e, v) == Pt(t, e, v))
  }

  // ----- page_remove

  /** The frame a user entry names is counted at least once. */
  lemma EntryCounted(s: Mem, q: nat, e: nat, v: Va)
    requires Balanced(s, q, 0) && e in s.pt.envs && User(v) && Valid(Pt(s.pt, e, v))
    ensures var p := Pt(s.pt, e, v).ppn;
      p < |s.ref| && s.role[p] == Plain && s.ref[p] == |Refs(s.pt, p)| > 0 && p !in s.free
  {
    var p := Pt(s.pt, e, v).ppn;
    assert PteOk(s.role, s.pt, e, v);
    assert FrameOk(s.ref, s.role, s.pt, p, q, 0);
    assert (e, v) in Refs(s.pt, p);
    assert p in s.free ==> FreeOk(s.ref, s.role, p);
  }

  lemma UnmapKeeps(s: Mem, e: nat, v: Va)
    requires Inv(s) && e in s.pt.envs && User(v)
    ensures Inv(Unmap(s, e, v))
    ensures Unmap(s, e, v).role == s.role && Unmap(s, e, v).asids == s.asids
    ensures |Unmap(s, e, v).ref| == |s.ref|
    ensures forall p: nat :: p < |s.ref| ==>
      Unmap(s, e, v).ref[p] + (if Maps(s.pt, e, v, p) then 1 else 0) == s.ref[p]
    ensures forall p: nat :: p in Unmap(s, e, v).free <==>
      p in s.free || (Maps(s.pt, e, v, p) && p < |s.ref| && s.ref[p] == 1)
  {
    var w := Pt(s.pt, e, v);
    if Valid(w) {
      EntryCounted(s, 0, e, v);
      Rebalance(s, 0, w.ppn);
      DecrefKeeps(s, w.ppn, 0);
      var s1 := Decref(s, w.ppn);
      SetPtKeeps(s1, w.ppn, -1, e, v, Zero);
      FlushKeeps(SetPt(s1, e, v, Zero), w.ppn, 0, e, v);
      Rebalance(Unmap(s, e, v), w.ppn, 0);
    }
  }

  lemma UnmapEffect(s: Mem, e: nat, v: Va, e': nat, v': Va)
    requires Inv(s) && e in s.pt.envs && User(v)
    ensures Unmap(s, e, v).pt.envs == s.pt.envs && Unmap(s, e, v).pt.tmpl == s.pt.tmpl
    ensures Pde(Unmap(s, e, v).pt, e', v'.pdx) == Pde(s.pt, e', v'.pdx)
    ensures (e', v') == (e, v) ==> !Valid(Pt(Unmap(s, e, v).pt, e', v'))
    ensures Known(v') && (e', v') != (e, v) ==> Agree(s.pt, Unmap(s, e, v).pt, e', v')
  {
    if Valid(Pt(s.pt, e, v)) {
      WriteTable(s, 0, 0, e, v, Zero, e', v');
    }
  }

  // ----- pgdir_walk with create

  lemma AddTableKeeps(s: Mem, e: nat, i: nat)
    requires Inv(s) && e in s.pt.envs && Linkable(i) && !Valid(Pde(s.pt, e, i)) && s.free != []
    ensures var s', t := AddTable(s, e, i), s.free[0];
      && Inv(s') && s'.free == s.free[1..] && s'.asids == s.asids && s'.tlb == s.tlb
      && t < |s.ref| && s'.ref == s.ref[t := 1] && s'.role == s.role[t := WordRole(e, i)] && s.role[t] == Plain
  {
    var t, s1 := s.free[0], PageAlloc(s);
    PageAllocKeeps(s);
    AllocWalk(s, e, Va(i, 0));
    IncrefKeeps(s1, t, 0);
    assert s1.role[t] == Plain;
    LinkTableKeeps(Incref(s1, t), e, i, t);
    Rebalance(AddTable(s, e, i), t, 0);
  }

  lemma AddTableEffect(s: Mem, e: nat, i: nat, e': nat, v': Va)
    requires Inv(s) && e in s.pt.envs && Linkable(i) && !Valid(Pde(s.pt, e, i)) && s.free != []
    ensures var t' := AddTable(s, e, i).pt;
      && t'.envs == s.pt.envs && t'.tmpl == s.pt.tmpl && Valid(Pde(t', e, i))
      && (Known(v') && (e', v') != (e, Va(PDX_UVPT, i)) ==> Agree(s.pt, t', e', v'))
      && Pt(t', e, Va(PDX_UVPT, i)) == Pte(s.free[0], {D, V})
  {
    var t, s1 := s.free[0], PageAlloc(s);
    PageAllocKeeps(s);
    AllocWalk(s, e', v');
    AllocWalk(s, e, Va(i, 0));
    IncrefKeeps(s1, t, 0);
    WriteDir(Incref(s1, t), t, 1, e, i, Pte(t, {D, V}), e', v');
    WriteDir(Incref(s1, t), t, 1, e, i, Pte(t, {D, V}), e, Va(i, 0));
    WriteDir(Incref(s1, t), t, 1, e, i, Pte(t, {D, V}), e, Va(PDX_UVPT, i));
    assert EnvOk(s.role, s.pt, s.asids, e);
  }

  // ----- page_insert

  /** page_insert is given a page that is allocated and is not itself a table. */
  predicate Held(s: Mem, p: nat) {
    p < |s.ref| && p < |s.role| && s.role[p] == Plain && p !in s.free
  }

  lemma EnterKeeps(s: Mem, e: nat, p: nat, v: Va, perm: Perm)
    requires Inv(s) && e in s.pt.envs && User(v) && Valid(Pde(s.pt, e, v.pdx)) && !Valid(Pt(s.pt, e, v))
    requires Held(s, p) && G !in perm
    ensures var s' := Enter(s, e, p, v, perm);
      && s'.free == s.free && s'.role == s.role && s'.tlb == s.tlb
      && (s.ref[p] < 65535 ==> Inv(s') && s'.ref == s.ref[p := s.ref[p] + 1])
      && (s.ref[p] >= 65535 ==> !Inv(s'))
  {
    var x, s' := Pte(p, perm + {V}), Enter(s, e, p, v, perm);
    Rebalance(s, 0, p);
    SetPtKeeps(s, p, 0, e, v, x);
    if s.ref[p] < 65535 {
      IncrefKeeps(SetPt(s, e, v, x), p, -1);
      Rebalance(s', p, 0);
    } else {
      assert FrameOk(s.ref, s.role, s.pt, p, p, 0);
      assert FrameOk(s.ref, s.role, SetPt(s, e, v, x).pt, p, p, -1);
      assert !FrameOk(s'.ref, s'.role, s'.pt, p, 0, 0);
    }
  }

  /** The state in which page_insert looks for the table. */
  function Cleared(s: Mem, e: nat, v: Va): Mem {
    Flush(Unmap(s, e, v), e, v)
  }

  lemma ClearedKeeps(s: Mem, e: nat, v: Va, p: nat)
    requires Inv(s) && e in s.pt.envs && User(v) && Held(s, p) && !Maps(s.pt, e, v, p)
    ensures var s1 := Cleared(s, e, v);
      && Inv(s1) && Held(s1, p) && s1.role == s.role && !Valid(Pt(s1.pt, e, v))
      && s1.pt.envs == s.pt.envs && s1.ref[p] == s.ref[p]
      && Valid(Pde(s1.pt, e, v.pdx)) == Valid(Pde(s.pt, e, v.pdx))
  {
    UnmapKeeps(s, e, v);
    UnmapEffect(s, e, v, e, v);
    FlushKeeps(Unmap(s, e, v), 0, 0, e, v);
  }

  /** page_insert increments a u_short without looking: the books balance afterwards exactly when the
      count can grow, or need not. */
  lemma InsertExact(s: Mem, e: nat, p: nat, v: Va, perm: Perm)
    requires Inv(s) && e in s.pt.envs && User(v) && Held(s, p) && G !in perm
    ensures Inv(Insert(s, e, p, v, perm).0) <==>
      s.ref[p] < 65535 || Maps(s.pt, e, v, p) || (!Valid(Pde(s.pt, e, v.pdx)) && s.free == [])
  {
    if Maps(s.pt, e, v, p) {
      var s1 := Flush(s, e, v);
      FlushKeeps(s, 0, 0, e, v);
      Rebalance(s1, 0, p);
      SetPtKeeps(s1, p, 0, e, v, Pte(p, perm + {V}));
      Rebalance(Insert(s, e, p, v, perm).0, p, 0);
    } else {
      var s1 := Cleared(s, e, v);
      ClearedKeeps(s, e, v, p);
      if Valid(Pde(s1.pt, e, v.pdx)) {
        EnterKeeps(s1, e, p, v, perm);
      } else if s1.free != [] {
        var s2 := AddTable(s1, e, v.pdx);
        AddTableKeeps(s1, e, v.pdx);
        AddTableEffect(s1, e, v.pdx, e, v);
        assert s1.free[0] in s1.free;
        EnterKeeps(s2, e, p, v, perm);
      }
      assert !Valid(Pt(s.pt, e, v)) ==> s1.free == s.free;
    }
  }

  lemma EnterEffect(s: Mem, e: nat, p: nat, v: Va, perm: Perm, e': nat, v': Va)
    requires Inv(s) && e in s.pt.envs && User(v) && Valid(Pde(s.pt, e, v.pdx)) && Known(v')
    ensures var s' := Enter(s, e, p, v, perm);
      && s'.pt.envs == s.pt.envs && s'.pt.tmpl == s.pt.tmpl && s'.asids == s.asids
      && Pt(s'.pt, e', v') == if (e', v') == (e, v) then Pte(p, perm + {V}) else Pt(s.pt, e', v')
  {
    WriteTable(s, 0, 0, e, v, Pte(p, perm + {V}), e', v');
  }

  /** The branch of page_insert that creates the table first. */
  lemma TableEnterEffect(s: Mem, e: nat, p: nat, v: Va, perm: Perm, e': nat, v': Va)
    requires Inv(s) && e in s.pt.envs && User(v) && !Valid(Pde(s.pt, e, v.pdx)) && s.free != [] && Known(v')
    ensures var s' := Enter(AddTable(s, e, v.pdx), e, p, v, perm);
      && s'.pt.envs == s.pt.envs && s'.pt.tmpl == s.pt.tmpl && s'.asids == s.asids
      && Pt(s'.pt, e, v) == Pte(p, perm + {V})
      && ((e', v') != (e, v) && (e', v') != (e, Va(PDX_UVPT, v.pdx)) ==> Agree(s.pt, s'.pt, e', v'))
  {
    AddTableKeeps(s, e, v.pdx);
    AddTableEffect(s, e, v.pdx, e', v');
    EnterEffect(AddTable(s, e, v.pdx), e, p, v, perm, e', v');
    EnterEffect(AddTable(s, e, v.pdx), e, p, v, perm, e, v);
  }

  /** page_insert refines a map update.  On success page v of e now names p with perm and PTE_V; on
      -E_NO_MEM nothing was mapped there.  No other user page moves; apart from those, the only word
      that can appear is the directory word of a new table, seen through the UVPT window. */
  lemma InsertEffect(s: Mem, e: nat, p: nat, v: Va, perm: Perm, e': nat, v': Va)
    requires Inv(s) && e in s.pt.envs && User(v) && Held(s, p) && G !in perm
    ensures var (s', ok) := Insert(s, e, p, v, perm);
      && s'.pt.envs == s.pt.envs && s'.pt.tmpl == s.pt.tmpl && s'.asids == s.asids
      && (ok ==> Pt(s'.pt, e, v) == Pte(p, perm + {V}))
      && (!ok ==> !Valid(Pt(s.pt, e, v)) && !Valid(Pt(s'.pt, e, v)))
      && (Known(v') && (e', v') != (e, v) && (e', v') != (e, Va(PDX_UVPT, v.pdx)) ==> Agree(s.pt, s'.pt, e', v'))
      && (Valid(Pt(s.pt, e, Va(PDX_UVPT, v.pdx))) ==> Agree(s.pt, s'.pt, e, Va(PDX_UVPT, v.pdx)))
  {
    var u := Va(PDX_UVPT, v.pdx);
    if Maps(s.pt, e, v, p) {
      var x := Pte(p, perm + {V});
      FlushKeeps(s, 0, 0, e, v);
      WriteTable(Flush(s, e, v), 0, 0, e, v, x, e', v');
      WriteTable(Flush(s, e, v), 0, 0, e, v, x, e, v);
      WriteTable(Flush(s, e, v), 0, 0, e, v, x, e, u);
    } else {
      var s1 := Cleared(s, e, v);
      ClearedKeeps(s, e, v, p);
      UnmapEffect(s, e, v, e', v');
      UnmapEffect(s, e, v, e, u);
      UnmapEffect(s, e, v, e, v);
      var w := if Known(v') then v' else v;
      if Valid(Pde(s1.pt, e, v.pdx)) {
        EnterEffect(s1, e, p, v, perm, e', w);
        EnterEffect(s1, e, p, v, perm, e, v);
        EnterEffect(s1, e, p, v, perm, e, u);
      } else {
        SelfMap(s1, e, v.pdx);
        if s1.free != [] { TableEnterEffect(s1, e, p, v, perm, e', w); }
      }
    }
  }

  /** The UVPT window shows the page directory: entry i there is directory word i. */
  lemma SelfMap(s: Mem, e: nat, i: nat)
    requires Inv(s) && e in s.pt.envs
    ensures Pt(s.pt, e, Va(PDX_UVPT, i)) == Pde(s.pt, e, i)
  {
    assert EnvOk(s.role, s.pt, s.asids, e);
  }

  /** x is the frame that page_insert takes for a missing page table. */
  predicate NewTable(s: Mem, e: nat, v: Va, x: nat) {
    !Valid(Pde(s.pt, e, v.pdx)) && s.free != [] && x == s.free[0]
  }

  /** What page_insert does to the counts: the page it replaces loses one, the new page gains one, a
      re-inserted page keeps its count, a page table it creates gains one, and a failed call changes none. */
  lemma InsertCounts(s: Mem, e: nat, p: nat, v: Va, perm: Perm, x: nat)
    requires Inv(s) && e in s.pt.envs && User(v) && Held(s, p) && s.ref[p] < 65535 && x < |s.ref| && G !in perm
    ensures var (s', ok) := Insert(s, e, p, v, perm);
      && |s'.ref| == |s.ref|
      && s'.ref[x] + (if Maps(s.pt, e, v, x) then 1 else 0) ==
         s.ref[x] + (if ok && x == p then 1 else 0) + (if NewTable(s, e, v, x) then 1 else 0)
  {
    if !Maps(s.pt, e, v, p) {
      var s1 := Cleared(s, e, v);
      ClearedKeeps(s, e, v, p);
      UnmapKeeps(s, e, v);
      if Valid(Pde(s1.pt, e, v.pdx)) {
        EnterKeeps(s1, e, p, v, perm);
      } else {
        assert !Valid(Pt(s.pt, e, v)) && s1.free == s.free && s1.ref == s.ref;
        if s1.free != [] { TableCounts(s1, e, p, v, perm); }
      }
    }
  }

  lemma TableCounts(s: Mem, e: nat, p: nat, v: Va, perm: Perm)
    requires Inv(s) && e in s.pt.envs && User(v) && !Valid(Pde(s.pt, e, v.pdx)) && s.free != []
    requires Held(s, p) && s.ref[p] < 65535 && G !in perm
    ensures s.free[0] < |s.ref| && s.ref[s.free[0]] == 0 && s.free[0] != p
    ensures Enter(AddTable(s, e, v.pdx), e, p, v, perm).ref == s.ref[s.free[0] := 1][p := s.ref[p] + 1]
  {
    var s1 := AddTable(s, e, v.pdx);
    assert s.free[0] in s.free && FreeOk(s.ref, s.role, s.free[0]);
    AddTableKeeps(s, e, v.pdx);
    AddTableEffect(s, e, v.pdx, e, v);
    EnterKeeps(s1, e, p, v, perm);
  }
}
