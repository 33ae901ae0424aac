/** Whole operations and whole runs: the system calls, the TLB refill and env_free keep the books and
    the TLB sound, and creating then destroying an address space gives everything back. */
module MemoryRuns {
  import opened Mmu
  import opened Memory
  import opened MemoryInv
  import opened MemoryOps
  import opened EnvMemory
  import opened Tlb

  /** Frames that nobody references and that are not on the free list either. */
  function Leaked(s: Mem): set<nat> {
    set p: nat | p < |s.ref| && s.ref[p] == 0 && p !in s.free
  }

  /** Frames counted for a directory word that env_free does not look at. */
  function Strays(s: Mem): set<nat> {
    set p: nat | p < |s.role| && s.role[p] == Stray
  }

  /** Neither kind of lost frame has changed. */
  predicate SameLost(s: Mem, s': Mem) {
    Leaked(s') == Leaked(s) && Strays(s') == Strays(s)
  }

  // ----- env_free

  ghost predicate Elsewhere(s: Mem, s': Mem, e: nat, i: nat) {
    && s'.pt.envs == s.pt.envs && s'.pt.kern == s.pt.kern && s'.pt.tmpl == s.pt.tmpl
    && s'.asids == s.asids && |s'.ref| == |s.ref| && SameLost(s, s')
    && (forall e': nat, v: Va :: Known(v) && (e' != e || (v.pdx != i && v.pdx != PDX_UVPT)) ==> Agree(s.pt, s'.pt, e', v))
    && (forall k: nat :: SameSlot(s, s', e, k))
  }

  predicate SameSlot(s: Mem, s': Mem, e: nat, k: nat) {
    Pde(s'.pt, e, k) == Pde(s.pt, e, k)
  }

  lemma UnmapElsewhere(s: Mem, e: nat, i: nat, j: nat)
    requires Sound(s) && e in s.pt.envs && i < PDX_UTOP && j < NPTE
    ensures Sound(Unmap(s, e, Va(i, j))) && Elsewhere(s, Unmap(s, e, Va(i, j)), e, i)
    ensures !Valid(Pt(Unmap(s, e, Va(i, j)).pt, e, Va(i, j)))
    ensures forall j': nat :: j' < NPTE && !Valid(Pt(s.pt, e, Va(i, j'))) ==> !Valid(Pt(Unmap(s, e, Va(i, j)).pt, e, Va(i, j')))
  {
    var v, s' := Va(i, j), Unmap(s, e, Va(i, j));
    UnmapSound(s, e, v);
    UnmapKeeps(s, e, v);
    UnmapEffect(s, e, v, e, v);
    forall e': nat, v': Va | Known(v') && (e', v') != (e, v) ensures Agree(s.pt, s'.pt, e', v') {
      UnmapEffect(s, e, v, e', v');
    }
    forall k: nat ensures SameSlot(s, s', e, k) {
      UnmapEffect(s, e, v, e, Va(k, 0));
    }
    forall j': nat | j' < NPTE && !Valid(Pt(s.pt, e, Va(i, j'))) ensures !Valid(Pt(s'.pt, e, Va(i, j'))) {
      assert j' != j ==> Agree(s.pt, s'.pt, e, Va(i, j'));
    }
  }

  lemma ElsewhereTrans(s: Mem, s1: Mem, s2: Mem, e: nat, i: nat)
    requires Elsewhere(s, s1, e, i) && Elsewhere(s1, s2, e, i)
    ensures Elsewhere(s, s2, e, i)
  {
    forall e': nat, v: Va | Known(v) && (e' != e || (v.pdx != i && v.pdx != PDX_UVPT)) ensures Agree(s.pt, s2.pt, e', v) {
      assert Agree(s.pt, s1.pt, e', v) && Agree(s1.pt, s2.pt, e', v);
    }
    forall k: nat ensures SameSlot(s, s2, e, k) {
      assert SameSlot(s, s1, e, k) && SameSlot(s1, s2, e, k);
    }
  }

  lemma {:induction false} ClearTableSound(s: Mem, e: nat, i: nat, j: nat)
    requires Sound(s) && e in s.pt.envs && i < PDX_UTOP && j <= NPTE
    requires forall j': nat :: j' < j ==> !Valid(Pt(s.pt, e, Va(i, j')))
    ensures var s' := ClearTable(s, e, i, j);
      Sound(s') && EmptyTable(s', e, i) && Elsewhere(s, s', e, i)
    decreases NPTE - j
  {
    if j < NPTE {
      var s1 := Unmap(s, e, Va(i, j));
      UnmapElsewhere(s, e, i, j);
      forall j': nat | j' < j + 1 ensures !Valid(Pt(s1.pt, e, Va(i, j'))) {
        assert j' < j ==> !Valid(Pt(s.pt, e, Va(i, j')));
      }
      ClearTableSound(s1, e, i, j + 1);
      ElsewhereTrans(s, s1, ClearTable(s, e, i, j), e, i);
    }
  }

  /** Between two states only space e, and free frames, may have changed. */
  ghost predicate OthersKept(s: Mem, s': Mem, e: nat) {
    && |s'.ref| == |s.ref| && s'.pt.kern == s.pt.kern && s'.pt.tmpl == s.pt.tmpl
    && s'.pt.envs - {e} == s.pt.envs - {e}
    && (forall e': nat, v: Va :: e' != e && Known(v) ==> Agree(s.pt, s'.pt, e', v))
  }

  lemma OthersTrans(s: Mem, s1: Mem, s2: Mem, e: nat)
    requires OthersKept(s, s1, e) && OthersKept(s1, s2, e)
    ensures OthersKept(s, s2, e)
  {
    forall e': nat, v: Va | e' != e && Known(v) ensures Agree(s.pt, s2.pt, e', v) {
      assert Agree(s.pt, s1.pt, e', v) && Agree(s1.pt, s2.pt, e', v);
    }
  }

  lemma FreeSlotSound(s: Mem, e: nat, i: nat)
    requires Sound(s) && e in s.pt.envs && i < PDX_UTOP
    ensures var s' := FreeSlot(s, e, i);
      && Sound(s') && OthersKept(s, s', e) && s'.pt.envs == s.pt.envs && s'.asids == s.asids
      && SameLost(s, s') && !Valid(Pde(s'.pt, e, i))
      && (forall k: nat :: !Valid(Pde(s.pt, e, k)) ==> !Valid(Pde(s'.pt, e, k)))
  {
    if Valid(Pde(s.pt, e, i)) {
      var s1, s' := ClearTable(s, e, i, 0), FreeSlot(s, e, i);
      ClearTableSound(s, e, i, 0);
      assert SameSlot(s, s1, e, i);
      DropTableSound(s1, e, i);
      DropTableKeeps(s1, e, i);
      DropTableEffect(s1, e, i, e, Va(i, 0));
      forall e': nat, v: Va | e' != e && Known(v) ensures Agree(s.pt, s'.pt, e', v) {
        DropTableEffect(s1, e, i, e', v);
        assert Agree(s.pt, s1.pt, e', v);
      }
      forall k: nat | !Valid(Pde(s.pt, e, k)) ensures !Valid(Pde(s'.pt, e, k)) {
        assert SameSlot(s, s1, e, k);
        DropTableEffect(s1, e, i, e, Va(k, 0));
      }
      assert SameLost(s1, s');
    }
  }

  lemma {:induction false} ClearSpaceSound(s: Mem, e: nat, i: nat)
    requires Sound(s) && e in s.pt.envs && i <= PDX_UTOP
    requires forall k: nat :: k < i ==> !Valid(Pde(s.pt, e, k))
    ensures var s' := ClearSpace(s, e, i);
      && Sound(s') && EmptySpace(s', e) && OthersKept(s, s', e)
      && s'.pt.envs == s.pt.envs && s'.asids == s.asids && SameLost(s, s')
    decreases PDX_UTOP - i
  {
    if i < PDX_UTOP {
      var s1 := FreeSlot(s, e, i);
      FreeSlotSound(s, e, i);
      ClearSpaceSound(s1, e, i + 1);
      OthersTrans(s, s1, ClearSpace(s, e, i), e);
    }
  }

  lemma DropEnvOthers(s: Mem, e: nat)
    requires Inv(s) && e in s.pt.envs && EmptySpace(s, e)
    ensures OthersKept(s, DropEnv(s, e), e) && SameLost(s, DropEnv(s, e))
  {
    DropEnvKeeps(s, e);
    forall e': nat, v: Va | e' != e && Known(v) ensures Agree(s.pt, DropEnv(s, e).pt, e', v) {}
  }

  /** env_free keeps the books and the TLB sound, returns the ASID with no user translation left under
      it, moves no page of any other space, and loses no frame. */
  lemma EnvFreeSound(s: Mem, e: nat)
    requires Sound(s) && e in s.pt.envs
    ensures var s' := EnvFree(s, e);
      && Sound(s') && OthersKept(s, s', e) && SameLost(s, s')
      && s'.pt.envs == s.pt.envs - {e} && s'.asids == s.asids - {s.pt.envs[e].asid}
      && (forall v: Va :: User(v) ==> (s.pt.envs[e].asid, v) !in s'.tlb)
  {
    var s1 := ClearSpace(s, e, 0);
    ClearSpaceSound(s, e, 0);
    DropEnvSound(s1, e);
    DropEnvKeeps(s1, e);
    DropEnvOthers(s1, e);
    OthersTrans(s, s1, EnvFree(s, e), e);
  }

  // ----- what env_free leaves in the TLB

  lemma {:induction false} ClearTableFar(s: Mem, e: nat, i: nat, j: nat, k: TlbKey)
    requires Far(k.1) && i < PDX_UTOP
    ensures var s' := ClearTable(s, e, i, j); (k in s'.tlb <==> k in s.tlb) && s'.pt.envs == s.pt.envs
    decreases NPTE - j
  {
    if j < NPTE {
      UnmapTlb(s, e, Va(i, j));
      ClearTableFar(Unmap(s, e, Va(i, j)), e, i, j + 1, k);
    }
  }

  lemma {:induction false} ClearSpaceFar(s: Mem, e: nat, i: nat, k: TlbKey)
    requires Far(k.1)
    ensures var s' := ClearSpace(s, e, i); (k in s'.tlb <==> k in s.tlb) && s'.pt.envs == s.pt.envs
    decreases PDX_UTOP - i
  {
    if i < PDX_UTOP {
      ClearTableFar(s, e, i, 0, k);
      ClearSpaceFar(FreeSlot(s, e, i), e, i + 1, k);
    }
  }

  /** env_free flushes no such entry. */
  lemma EnvFreeFar(s: Mem, e: nat, k: TlbKey)
    requires Far(k.1)
    ensures k in EnvFree(s, e).tlb <==> k in s.tlb
  {
    ClearSpaceFar(s, e, 0, k);
  }
}
