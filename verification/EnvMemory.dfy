/** Creating and destroying address spaces: env_setup_vm, asid_alloc and env_free. */
module EnvMemory {
  import opened Mmu
  import opened Memory
  import opened MemoryInv
  import opened MemoryOps

  // ----- env_alloc

  lemma EnvAllocEffect(s: Mem, e: nat, a: nat, e': nat, v: Va)
    requires Inv(s) && s.free != [] && e !in s.pt.envs
    ensures var t' := EnvAlloc(s, e, a).pt;
      && t'.envs == s.pt.envs[e := Space(s.free[0], a)] && t'.tmpl == s.pt.tmpl
      && (e' != e ==> Pde(t', e', v.pdx) == Pde(s.pt, e', v.pdx))
      && (e' != e && Known(v) ==> Pt(t', e', v) == Pt(s.pt, e', v))
      && (v.pdx < PDX_UTOP ==> !Valid(Pde(t', e, v.pdx)) && !Valid(Pt(t', e, v)))
      && Rd(t', s.free[0], 509) == s.pt.tmpl[0] && Rd(t', s.free[0], 510) == s.pt.tmpl[1]
      && Rd(t', s.free[0], PDX_UVPT) == Pte(s.free[0], {V})
  {
    var d, s1 := s.free[0], PageAlloc(s);
    PageAllocKeeps(s);
    AllocWalk(s, e', v);
    if e' in s1.pt.envs {
      assert EnvOk(s1.role, s1.pt, s1.asids, e');
      if Known(v) && Valid(Pde(s1.pt, e', v.pdx)) {
        WalkRole(s1, d, 0, e', v);
      }
    }
  }

  lemma EnvAllocFrame(s: Mem, e: nat, a: nat, y: nat)
    requires Inv(s) && s.free != [] && e !in s.pt.envs && y < |s.ref|
    ensures var s', d := EnvAlloc(s, e, a), s.free[0];
      && s'.free == s.free[1..] && s'.tlb == s.tlb && |s'.ref| == |s'.role| == |s'.pt.word| == |s.ref|
      && d < |s.ref| && s.role[d] == Plain && s'.ref == s.ref[d := 1] && s'.role == s.role[d := Dir(e)]
      && FrameOk(s'.ref, s'.role, s'.pt, y, 0, 0)
  {
    var d, s1, s' := s.free[0], PageAlloc(s), EnvAlloc(s, e, a);
    PageAllocKeeps(s);
    assert FrameOk(s1.ref, s1.role, s1.pt, y, d, 0) && FrameOk(s1.ref, s1.role, s1.pt, d, d, 0);
    EnvAllocEffect(s, e, a, e, Va(0, 0));
    forall e': nat, v: Va | User(v) ensures Maps(s'.pt, e', v, y) <==> Maps(s1.pt, e', v, y) {
      EnvAllocEffect(s, e, a, e', v);
      AllocWalk(s, e', v);
    }
    RefsSame(s1.pt, s'.pt, y);
    if s1.role[y].Table? {
      EnvAllocEffect(s, e, a, s1.role[y].env, Va(s1.role[y].pdx, 0));
      AllocWalk(s, s1.role[y].env, Va(s1.role[y].pdx, 0));
    }
  }

  lemma EnvAllocKeeps(s: Mem, e: nat, a: nat)
    requires Inv(s) && s.free != [] && e !in s.pt.envs && a < NASID && a !in s.asids
    ensures var s', d := EnvAlloc(s, e, a), s.free[0];
      && Inv(s') && s'.free == s.free[1..] && s'.tlb == s.tlb
      && s'.pt.envs == s.pt.envs[e := Space(d, a)] && s'.asids == s.asids + {a}
      && d < |s.ref| && s'.ref == s.ref[d := 1] && s'.role == s.role[d := Dir(e)] && s.role[d] == Plain
  {
    var d, s' := s.free[0], EnvAlloc(s, e, a);
    assert d in s.free && FreeOk(s.ref, s.role, d);
    EnvAllocFrame(s, e, a, d);
    EnvAllocEffect(s, e, a, e, Va(0, 0));
    forall y: nat | y < |s'.ref| ensures FrameOk(s'.ref, s'.role, s'.pt, y, 0, 0) {
      EnvAllocFrame(s, e, a, y);
    }
    forall e': nat ensures EnvOk(s'.role, s'.pt, s'.asids, e') {
      assert EnvOk(s.role, s.pt, s.asids, e');
      EnvAllocEffect(s, e, a, e', Va(PDX_UVPT, 0));
      EnvAllocEffect(s, e, a, e', Va(509, 0));
      EnvAllocEffect(s, e, a, e', Va(510, 0));
    }
    forall e': nat, i: nat ensures PdeOk(s'.role, s'.pt, e', i) {
      assert PdeOk(s.role, s.pt, e', i);
      EnvAllocEffect(s, e, a, e', Va(i, 0));
    }
    forall e': nat, v: Va ensures PteOk(s'.role, s'.pt, e', v) {
      assert PteOk(s.role, s.pt, e', v);
      EnvAllocEffect(s, e, a, e', v);
      if User(v) { NoRefs(s, 0, 0, d, e', v); }
    }
    forall y: nat | y in s'.free ensures FreeOk(s'.ref, s'.role, y) {
      assert FreeOk(s.ref, s.role, y);
    }
    AsidsAfterAlloc(s, e, a);
  }

  lemma AsidsAfterAlloc(s: Mem, e: nat, a: nat)
    requires Inv(s) && s.free != [] && e !in s.pt.envs && a !in s.asids
    ensures AsidsOk(EnvAlloc(s, e, a).pt, EnvAlloc(s, e, a).asids)
  {
    var s' := EnvAlloc(s, e, a);
    EnvAllocEffect(s, e, a, e, Va(0, 0));
    forall e' | e' in s.pt.envs ensures s.pt.envs[e'].asid in s.asids {
      assert EnvOk(s.role, s.pt, s.asids, e');
    }
    forall b | b in s'.asids ensures exists e' :: e' in s'.pt.envs && s'.pt.envs[e'].asid == b {
      if b == a {
        assert s'.pt.envs[e].asid == a;
      } else {
        var e' :| e' in s.pt.envs && s.pt.envs[e'].asid == b;
        assert s'.pt.envs[e'].asid == b;
      }
    }
  }

  // ----- env_free

  lemma DropTableKeeps(s: Mem, e: nat, i: nat)
    requires Inv(s) && e in s.pt.envs && i < PDX_UTOP && Valid(Pde(s.pt, e, i)) && EmptyTable(s, e, i)
    ensures var s', t := DropTable(s, e, i), Pde(s.pt, e, i).ppn;
      && Inv(s') && s'.free == [t] + s.free && s'.asids == s.asids
      && t < |s.ref| && s.ref[t] == 1 && s'.ref == s.ref[t := 0]
      && s.role[t] == Table(e, i) && s'.role == s.role[t := Plain]
  {
    var t := Pde(s.pt, e, i).ppn;
    assert PdeOk(s.role, s.pt, e, i);
    var s1 := SetRole(SetPde(s, e, i, Zero), t, Plain);
    UnlinkTableKeeps(s, e, i);
    DecrefKeeps(s1, t, 1);
    FlushKeeps(Decref(s1, t), t, 0, e, Va(PDX_UVPT, i));
    Rebalance(DropTable(s, e, i), t, 0);
  }

  lemma DropTableEffect(s: Mem, e: nat, i: nat, e': nat, v: Va)
    requires Inv(s) && e in s.pt.envs && i < PDX_UTOP && Valid(Pde(s.pt, e, i)) && EmptyTable(s, e, i)
    ensures var t' := DropTable(s, e, i).pt;
      && t'.envs == s.pt.envs && t'.tmpl == s.pt.tmpl
      && Pde(t', e', v.pdx) == (if e' == e && v.pdx == i then Zero else Pde(s.pt, e', v.pdx))
      && (Known(v) && (e', v) != (e, Va(PDX_UVPT, i)) ==> Agree(s.pt, t', e', v))
  {
    WriteDir(s, 0, 0, e, i, Zero, e', v);
    assert User(v) && e' == e && v.pdx == i ==> !Valid(Pt(s.pt, e, Va(i, v.ptx)));
  }

  predicate EmptySpace(s: Mem, e: nat) {
    forall i: nat :: i < PDX_UTOP ==> !Valid(Pde(s.pt, e, i))
  }

  lemma DropEnvKeeps(s: Mem, e: nat)
    requires Inv(s) && e in s.pt.envs && EmptySpace(s, e)
    ensures var s', d := DropEnv(s, e), s.pt.envs[e].dir;
      && Inv(s') && s'.free == [d] + s.free && s'.asids == s.asids - {s.pt.envs[e].asid}
      && s'.pt == s.pt.(envs := s.pt.envs - {e})
      && d < |s.ref| && s.ref[d] == 1 && s'.ref == s.ref[d := 0]
      && s.role[d] == Dir(e) && s'.role == s.role[d := Plain]
  {
    var s', d := DropEnv(s, e), s.pt.envs[e].dir;
    assert EnvOk(s.role, s.pt, s.asids, e);
    assert FrameOk(s.ref, s.role, s.pt, d, 0, 0);
    forall y: nat | y < |s'.ref| ensures FrameOk(s'.ref, s'.role, s'.pt, y, 0, 0) { DropEnvFrame(s, e, y); }
    forall e': nat ensures EnvOk(s'.role, s'.pt, s'.asids, e') {
      assert EnvOk(s.role, s.pt, s.asids, e');
    }
    forall e': nat, i: nat ensures PdeOk(s'.role, s'.pt, e', i) {
      assert PdeOk(s.role, s.pt, e', i);
    }
    forall e': nat, v: Va ensures PteOk(s'.role, s'.pt, e', v) {
      assert PteOk(s.role, s.pt, e', v);
    }
    assert d in s.free ==> FreeOk(s.ref, s.role, d);
    forall y: nat | y in s'.free ensures FreeOk(s'.ref, s'.role, y) {
      assert y != d ==> FreeOk(s.ref, s.role, y);
    }
    forall b | b in s'.asids ensures exists e' :: e' in s'.pt.envs && s'.pt.envs[e'].asid == b {
      var e' :| e' in s.pt.envs && s.pt.envs[e'].asid == b;
      assert s'.pt.envs[e'].asid == b;
    }
  }

  /** The count of frame y once the directory of an emptied env is gone. */
  lemma DropEnvFrame(s: Mem, e: nat, y: nat)
    requires Inv(s) && e in s.pt.envs && EmptySpace(s, e) && y < |s.ref|
    ensures var s' := DropEnv(s, e); y < |s'.ref| ==> FrameOk(s'.ref, s'.role, s'.pt, y, 0, 0)
  {
    var s', d := DropEnv(s, e), s.pt.envs[e].dir;
    assert EnvOk(s.role, s.pt, s.asids, e);
    assert FrameOk(s.ref, s.role, s.pt, d, 0, 0);
    assert FrameOk(s.ref, s.role, s.pt, y, 0, 0);
    forall e': nat, v: Va | v.pdx < PDX_UTOP
      ensures Pde(s'.pt, e', v.pdx) == Pde(s.pt, e', v.pdx) || (e' == e && !Valid(Pde(s.pt, e', v.pdx)))
      ensures e' == e ==> !Valid(Pt(s.pt, e', v)) && !Valid(Pt(s'.pt, e', v))
      ensures e' != e ==> Pt(s'.pt, e', v) == Pt(s.pt, e', v)
    {}
    RefsSame(s.pt, s'.pt, y);
    if y == d {
      forall e': nat, v: Va | User(v) ensures !Maps(s'.pt, e', v, d) { NoRefs(s, 0, 0, d, e', v); }
      assert Refs(s'.pt, d) == {};
    }
  }
}
