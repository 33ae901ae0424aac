/** The page accounting invariant, and the proof that every elementary step keeps it. */
module MemoryInv {
  import opened Common
  import opened Mmu
  import opened Memory

  // ----- the invariant

  /** The count of frame p; that of frame q may be off by k while an operation is half done. */
  predicate FrameOk(ref: seq<nat>, role: seq<Role>, t: Tables, p: nat, q: nat, k: int) {
    var off := if p == q then k else 0;
    && p < |ref| == |role| == |t.word|
    && |t.word[p]| == NPTE && ref[p] < 65536
    && (p in t.kern ==> role[p] == Kernel)
    && match role[p]
       case Kernel => p in t.kern && ref[p] == t.kern[p]
       case Plain => ref[p] == |Refs(t, p)| + off
       case Dir(e) => ref[p] == 1 + off && e in t.envs && t.envs[e].dir == p
       case Table(e, i) => ref[p] == 1 + off && i < PDX_UTOP && Valid(Pde(t, e, i)) && Pde(t, e, i).ppn == p
       case Stray => ref[p] == 1 + off
  }

  predicate EnvOk(role: seq<Role>, t: Tables, asids: set<nat>, e: nat) {
    e in t.envs ==>
      var d, a := t.envs[e].dir, t.envs[e].asid;
      && d < |role| && role[d] == Dir(e)
      && a < NASID && a in asids
      && Rd(t, d, PDX_UVPT) == Pte(d, {V})
      && |t.tmpl| == 2 && Rd(t, d, 509) == t.tmpl[0] && Rd(t, d, 510) == t.tmpl[1]
  }

  predicate PdeOk(role: seq<Role>, t: Tables, e: nat, i: nat) {
    i < PDX_UTOP && Valid(Pde(t, e, i)) ==>
      var p := Pde(t, e, i).ppn;
      p < |role| && role[p] == Table(e, i)
  }

  predicate PteOk(role: seq<Role>, t: Tables, e: nat, v: Va) {
    User(v) && Valid(Pt(t, e, v)) ==>
      var w := Pt(t, e, v);
      w.ppn < |role| && role[w.ppn] == Plain && G !in w.perm
  }

  predicate FreeOk(ref: seq<nat>, role: seq<Role>, p: nat) {
    p < |ref| && p < |role| && role[p] == Plain && ref[p] == 0
  }

  /** env_init maps both kernel arrays, so both words of the template are valid. */
  predicate TmplOk(role: seq<Role>, t: Tables) {
    && |t.tmpl| == 2
    && Valid(t.tmpl[0]) && t.tmpl[0].ppn < |role| && role[t.tmpl[0].ppn] == Kernel
    && Valid(t.tmpl[1]) && t.tmpl[1].ppn < |role| && role[t.tmpl[1].ppn] == Kernel
  }

  predicate AsidFree(t: Tables, e: nat, a: nat) {
    e in t.envs ==> t.envs[e].asid != a
  }

  ghost predicate AsidsOk(t: Tables, asids: set<nat>) {
    && (forall e, e' :: e in t.envs && e' in t.envs && e != e' ==> t.envs[e].asid != t.envs[e'].asid)
    && (forall a :: a in asids ==> exists e :: e in t.envs && t.envs[e].asid == a)
  }

  /** Every frame is accounted for, except that the count of frame q is off by k. */
  ghost predicate Balanced(s: Mem, q: nat, k: int) {
    && |s.ref| == |s.role| == |s.pt.word|
    && TmplOk(s.role, s.pt)
    && Distinct(s.free)
    && AsidsOk(s.pt, s.asids)
    && (forall p: nat :: p < |s.ref| ==> FrameOk(s.ref, s.role, s.pt, p, q, k))
    && (forall e: nat :: EnvOk(s.role, s.pt, s.asids, e))
    && (forall e: nat, i: nat :: PdeOk(s.role, s.pt, e, i))
    && (forall e: nat, v: Va :: PteOk(s.role, s.pt, e, v))
    && (forall p: nat :: p in s.free ==> FreeOk(s.ref, s.role, p))
  }

  ghost predicate Inv(s: Mem) {
    Balanced(s, 0, 0)
  }

  lemma Rebalance(s: Mem, q: nat, q': nat)
    requires Balanced(s, q, 0)
    ensures Balanced(s, q', 0)
  {
    forall p: nat | p < |s.ref| ensures FrameOk(s.ref, s.role, s.pt, p, q', 0) {
      assert FrameOk(s.ref, s.role, s.pt, p, q, 0);
    }
  }

  // ----- counting references

  lemma RefsSame(t: Tables, t': Tables, p: nat)
    requires forall e: nat, v: Va :: User(v) ==> (Maps(t', e, v, p) <==> Maps(t, e, v, p))
    ensures Refs(t', p) == Refs(t, p)
  {}

  /** One entry changes, so each count changes by that entry's contribution. */
  lemma RefsChange(t: Tables, t': Tables, e: nat, v: Va, p: nat)
    requires t'.envs.Keys == t.envs.Keys && e in t.envs && User(v)
    requires forall e': nat, v': Va ::
               (e' in t.envs && User(v') && (e', v') != (e, v) ==> (Maps(t', e', v', p) <==> Maps(t, e', v', p)))
    ensures |Refs(t', p)| == |Refs(t, p)| - (if Maps(t, e, v, p) then 1 else 0)
                                           + (if Maps(t', e, v, p) then 1 else 0)
  {
    var r, r', x := Refs(t, p), Refs(t', p), (e, v);
    assert x in r <==> Maps(t, e, v, p);
    assert x in r' <==> Maps(t', e, v, p);
    assert r - {x} == r' - {x};
    assert r == if x in r then (r - {x}) + {x} else r - {x};
    assert r' == if x in r' then (r' - {x}) + {x} else r' - {x};
  }

  // ----- what a walk can see

  /** Pages below ULIM, the only ones the TLB translates: user pages, the kernel template and UVPT. */
  predicate Known(v: Va) {
    v.pdx <= PDX_UVPT && v.ptx < NPTE
  }

  /** Directory words that page_insert can fill, by page or through the UVPT window. */
  predicate Linkable(i: nat) {
    i < PDX_UTOP || PDX_UVPT < i < NPTE
  }

  /** The frame a walk reads its last word from has the role its directory slot implies. */
  lemma WalkRole(s: Mem, q: nat, k: int, e: nat, v: Va)
    requires Balanced(s, q, k) && e in s.pt.envs && Known(v) && Valid(Pde(s.pt, e, v.pdx))
    ensures var p := Pde(s.pt, e, v.pdx).ppn;
      p < |s.role| && s.role[p] == if v.pdx < PDX_UTOP then Table(e, v.pdx)
                                   else if v.pdx < PDX_UVPT then Kernel else Dir(e)
  {
    assert EnvOk(s.role, s.pt, s.asids, e) && PdeOk(s.role, s.pt, e, v.pdx);
  }

  lemma WriteTable(s: Mem, q: nat, k: int, e: nat, v: Va, x: Pte, e': nat, v': Va)
    requires Balanced(s, q, k) && e in s.pt.envs && User(v) && Valid(Pde(s.pt, e, v.pdx))
    ensures var t' := SetPt(s, e, v, x).pt;
      && t'.envs == s.pt.envs && t'.tmpl == s.pt.tmpl
      && Pde(t', e', v'.pdx) == Pde(s.pt, e', v'.pdx)
      && (Known(v') ==> Pt(t', e', v') == if e' == e && v' == v then x else Pt(s.pt, e', v'))
  {
    WalkRole(s, q, k, e, v);
    var p := Pde(s.pt, e, v.pdx).ppn;
    assert FrameOk(s.ref, s.role, s.pt, p, q, k);
    assert EnvOk(s.role, s.pt, s.asids, e');
    if e' in s.pt.envs && Known(v') && Valid(Pde(s.pt, e', v'.pdx)) {
      WalkRole(s, q, k, e', v');
    }
  }

  // ----- elementary steps

  lemma FlushKeeps(s: Mem, q: nat, k: int, e: nat, v: Va)
    requires Balanced(s, q, k)
    ensures Balanced(Flush(s, e, v), q, k)
  {}

  lemma IncrefKeeps(s: Mem, p: nat, k: int)
    requires Balanced(s, p, k) && p < |s.ref| && s.ref[p] < 65535 && p !in s.free && s.role[p] == Plain
    ensures Balanced(Incref(s, p), p, k + 1)
  {
    var s', k' := Incref(s, p), k + 1;
    forall x: nat | x < |s'.ref| ensures FrameOk(s'.ref, s'.role, s'.pt, x, p, k') {
      assert FrameOk(s.ref, s.role, s.pt, x, p, k);
    }
    forall x: nat | x in s'.free ensures FreeOk(s'.ref, s'.role, x) {
      assert FreeOk(s.ref, s.role, x);
    }
  }

  lemma DecrefKeeps(s: Mem, p: nat, k: int)
    requires Balanced(s, p, k) && p < |s.ref| && s.ref[p] > 0 && s.role[p] == Plain
    ensures Balanced(Decref(s, p), p, k - 1)
  {
    var s', k' := Decref(s, p), k - 1;
    assert p in s.free ==> FreeOk(s.ref, s.role, p);
    forall x: nat | x < |s'.ref| ensures FrameOk(s'.ref, s'.role, s'.pt, x, p, k') {
      assert FrameOk(s.ref, s.role, s.pt, x, p, k);
    }
    forall x: nat | x in s'.free ensures FreeOk(s'.ref, s'.role, x) {
      assert x != p ==> FreeOk(s.ref, s.role, x);
    }
  }

  /** Storing an entry for p over an entry for p or none: the books shift by the change. */
  lemma SetPtKeeps(s: Mem, p: nat, k: int, e: nat, v: Va, x: Pte)
    requires Balanced(s, p, k) && e in s.pt.envs && User(v) && Valid(Pde(s.pt, e, v.pdx))
    requires p < |s.role| && s.role[p] == Plain
    requires Valid(Pt(s.pt, e, v)) ==> Pt(s.pt, e, v).ppn == p
    requires Valid(x) ==> x.ppn == p && G !in x.perm
    ensures Balanced(SetPt(s, e, v, x), p,
      k + (if Valid(Pt(s.pt, e, v)) then 1 else 0) - (if Valid(x) then 1 else 0))
  {
    var s' := SetPt(s, e, v, x);
    var k' := k + (if Valid(Pt(s.pt, e, v)) then 1 else 0) - (if Valid(x) then 1 else 0);
    forall e': nat, v': Va
      ensures s'.pt.envs == s.pt.envs && s'.pt.tmpl == s.pt.tmpl
      ensures Pde(s'.pt, e', v'.pdx) == Pde(s.pt, e', v'.pdx)
      ensures Known(v') ==> Pt(s'.pt, e', v') == if e' == e && v' == v then x else Pt(s.pt, e', v')
    {
      WriteTable(s, p, k, e, v, x, e', v');
    }
    forall y: nat | y < |s'.ref| ensures FrameOk(s'.ref, s'.role, s'.pt, y, p, k') {
      assert FrameOk(s.ref, s.role, s.pt, y, p, k);
      RefsChange(s.pt, s'.pt, e, v, y);
      if s.role[y].Table? {
        var z := s.role[y];
        assert Pde(s'.pt, z.env, Va(z.pdx, 0).pdx) == Pde(s.pt, z.env, Va(z.pdx, 0).pdx);
      }
    }
    forall e': nat ensures EnvOk(s'.role, s'.pt, s'.asids, e') {
      assert EnvOk(s.role, s.pt, s.asids, e');
      WalkRole(s, p, k, e, v);
    }
    forall e': nat, i: nat ensures PdeOk(s'.role, s'.pt, e', i) {
      assert PdeOk(s.role, s.pt, e', i);
      assert Pde(s'.pt, e', Va(i, 0).pdx) == Pde(s.pt, e', Va(i, 0).pdx);
    }
    forall e': nat, v': Va ensures PteOk(s'.role, s'.pt, e', v') {
      assert PteOk(s.role, s.pt, e', v');
    }
  }

  lemma NoRefs(s: Mem, q: nat, k: int, p: nat, e: nat, v: Va)
    requires Balanced(s, q, k) && User(v) && p < |s.role|
    requires s.role[p] == Plain ==> s.ref[p] == if p == q then k else 0
    ensures !Maps(s.pt, e, v, p)
  {
    if s.role[p] == Plain {
      assert FrameOk(s.ref, s.role, s.pt, p, q, k);
      assert Maps(s.pt, e, v, p) ==> (e, v) in Refs(s.pt, p);
    } else {
      assert PteOk(s.role, s.pt, e, v);
    }
  }

  /** Blanking a free page is invisible to every walk. */
  lemma AllocWalk(s: Mem, e: nat, v: Va)
    requires Inv(s) && s.free != []
    ensures Pde(PageAlloc(s).pt, e, v.pdx) == Pde(s.pt, e, v.pdx)
    ensures Known(v) ==> Pt(PageAlloc(s).pt, e, v) == Pt(s.pt, e, v)
  {
    var p := s.free[0];
    assert p in s.free && FreeOk(s.ref, s.role, p);
    assert EnvOk(s.role, s.pt, s.asids, e);
    if e in s.pt.envs && Known(v) && Valid(Pde(s.pt, e, v.pdx)) {
      WalkRole(s, 0, 0, e, v);
    }
  }

  lemma PageAllocKeeps(s: Mem)
    requires Inv(s) && s.free != []
    ensures var s', p := PageAlloc(s), s.free[0];
      && Balanced(s', p, 0) && s'.free == s.free[1..] && p !in s'.free
      && p < |s'.ref| && s'.role == s.role && s'.role[p] == Plain && s'.ref == s.ref && s'.ref[p] == 0
      && s'.pt.word[p] == BlankPage()
  {
    var s', p := PageAlloc(s), s.free[0];
    assert p in s.free && FreeOk(s.ref, s.role, p);
    forall e: nat, v: Va
      ensures Pde(s'.pt, e, v.pdx) == Pde(s.pt, e, v.pdx)
      ensures Known(v) ==> Pt(s'.pt, e, v) == Pt(s.pt, e, v)
    {
      AllocWalk(s, e, v);
    }
    forall y: nat | y < |s'.ref| ensures FrameOk(s'.ref, s'.role, s'.pt, y, p, 0) {
      assert FrameOk(s.ref, s.role, s.pt, y, 0, 0);
      RefsSame(s.pt, s'.pt, y);
      if s.role[y].Table? {
        var z := s.role[y];
        assert Pde(s'.pt, z.env, Va(z.pdx, 0).pdx) == Pde(s.pt, z.env, Va(z.pdx, 0).pdx);
      }
    }
    forall e: nat ensures EnvOk(s'.role, s'.pt, s'.asids, e) {
      assert EnvOk(s.role, s.pt, s.asids, e);
    }
    forall e: nat, i: nat ensures PdeOk(s'.role, s'.pt, e, i) {
      assert PdeOk(s.role, s.pt, e, i);
      assert Pde(s'.pt, e, Va(i, 0).pdx) == Pde(s.pt, e, Va(i, 0).pdx);
    }
    forall e: nat, v: Va ensures PteOk(s'.role, s'.pt, e, v) {
      assert PteOk(s.role, s.pt, e, v);
    }
    forall y: nat | y in s'.free ensures FreeOk(s'.ref, s'.role, y) {
      assert FreeOk(s.ref, s.role, y);
    }
  }

  /** Where a walk ends after directory word i of e became x. */
  function WalkAfter(t: Tables, e: nat, i: nat, x: Pte, e': nat, v': Va): Pte {
    if e' == e && v' == Va(PDX_UVPT, i) then x
    else if e' == e && v'.pdx == i then (if Valid(x) then Rd(t, x.ppn, v'.ptx) else Zero)
    else Pt(t, e', v')
  }

  /** The effect of a directory store on every walk. */
  lemma WriteDir(s: Mem, q: nat, k: int, e: nat, i: nat, x: Pte, e': nat, v': Va)
    requires Balanced(s, q, k) && e in s.pt.envs && Linkable(i)
    requires Valid(x) ==> x.ppn < |s.role| && s.role[x.ppn] == Plain
    ensures var t' := SetPde(s, e, i, x).pt;
      && t'.envs == s.pt.envs && t'.tmpl == s.pt.tmpl
      && Pde(t', e', v'.pdx) == (if e' == e && v'.pdx == i then x else Pde(s.pt, e', v'.pdx))
      && (Known(v') ==> Pt(t', e', v') == WalkAfter(s.pt, e, i, x, e', v'))
  {
    assert EnvOk(s.role, s.pt, s.asids, e) && EnvOk(s.role, s.pt, s.asids, e');
    var d := s.pt.envs[e].dir;
    assert FrameOk(s.ref, s.role, s.pt, d, q, k);
    if e' in s.pt.envs && Known(v') && Valid(Pde(s.pt, e', v'.pdx)) {
      WalkRole(s, q, k, e', v');
    }
  }

  /** What filling directory slot i with a blank frame does to every walk. */
  lemma LinkWalk(s: Mem, e: nat, i: nat, t: nat, e': nat, v': Va)
    requires Balanced(s, t, 1) && e in s.pt.envs && Linkable(i) && !Valid(Pde(s.pt, e, i))
    requires t < |s.role| && s.role[t] == Plain && s.pt.word[t] == BlankPage()
    ensures var x := Pte(t, {D, V}); var t' := SetPde(s, e, i, x).pt;
      && t'.envs == s.pt.envs && t'.tmpl == s.pt.tmpl
      && Pde(t', e', v'.pdx) == (if e' == e && v'.pdx == i then x else Pde(s.pt, e', v'.pdx))
      && (User(v') ==> Valid(Pt(t', e', v')) == Valid(Pt(s.pt, e', v')))
      && (User(v') && Valid(Pt(s.pt, e', v')) ==> Pt(t', e', v') == Pt(s.pt, e', v'))
  {
    WriteDir(s, t, 1, e, i, Pte(t, {D, V}), e', v');
    assert EnvOk(s.role, s.pt, s.asids, e);
  }

  lemma LinkTableFrame(s: Mem, e: nat, i: nat, t: nat, y: nat)
    requires Balanced(s, t, 1) && e in s.pt.envs && Linkable(i) && !Valid(Pde(s.pt, e, i))
    requires t < |s.role| && s.role[t] == Plain && s.ref[t] == 1 && s.pt.word[t] == BlankPage() && y < |s.ref|
    ensures var s' := SetRole(SetPde(s, e, i, Pte(t, {D, V})), t, WordRole(e, i)); FrameOk(s'.ref, s'.role, s'.pt, y, t, 0)
  {
    var s' := SetRole(SetPde(s, e, i, Pte(t, {D, V})), t, WordRole(e, i));
    assert FrameOk(s.ref, s.role, s.pt, t, t, 1) && FrameOk(s.ref, s.role, s.pt, y, t, 1);
    assert EnvOk(s.role, s.pt, s.asids, e);
    forall e': nat, v': Va | User(v') ensures Maps(s'.pt, e', v', y) <==> Maps(s.pt, e', v', y) {
      LinkWalk(s, e, i, t, e', v');
    }
    LinkWalk(s, e, i, t, e, Va(0, 0));
    RefsSame(s.pt, s'.pt, y);
    if s'.role[y].Table? {
      LinkWalk(s, e, i, t, s'.role[y].env, Va(s'.role[y].pdx, 0));
    }
  }

  /** A blank counted frame fills an empty directory slot. */
  lemma LinkTableKeeps(s: Mem, e: nat, i: nat, t: nat)
    requires Balanced(s, t, 1) && e in s.pt.envs && Linkable(i) && !Valid(Pde(s.pt, e, i))
    requires t < |s.role| && s.role[t] == Plain && s.ref[t] == 1 && t !in s.free
    requires s.pt.word[t] == BlankPage()
    ensures Balanced(SetRole(SetPde(s, e, i, Pte(t, {D, V})), t, WordRole(e, i)), t, 0)
  {
    var s' := SetRole(SetPde(s, e, i, Pte(t, {D, V})), t, WordRole(e, i));
    LinkWalk(s, e, i, t, e, Va(i, 0));
    forall y: nat | y < |s'.ref| ensures FrameOk(s'.ref, s'.role, s'.pt, y, t, 0) { LinkTableFrame(s, e, i, t, y); }
    forall e': nat ensures EnvOk(s'.role, s'.pt, s'.asids, e') {
      assert EnvOk(s.role, s.pt, s.asids, e');
    }
    forall e': nat, j: nat ensures PdeOk(s'.role, s'.pt, e', j) {
      assert PdeOk(s.role, s.pt, e', j);
      LinkWalk(s, e, i, t, e', Va(j, 0));
    }
    forall e': nat, v': Va ensures PteOk(s'.role, s'.pt, e', v') {
      assert PteOk(s.role, s.pt, e', v');
      LinkWalk(s, e, i, t, e', v');
      if User(v') { NoRefs(s, t, 1, t, e', v'); }
    }
    forall y: nat | y in s'.free ensures FreeOk(s'.ref, s'.role, y) {
      assert FreeOk(s.ref, s.role, y);
    }
  }

  predicate EmptyTable(s: Mem, e: nat, i: nat) {
    forall j: nat :: j < NPTE ==> !Valid(Pt(s.pt, e, Va(i, j)))
  }

  /** An emptied page table is unlinked; its frame still carries the count of the directory word. */
  lemma UnlinkTableKeeps(s: Mem, e: nat, i: nat)
    requires Inv(s) && e in s.pt.envs && i < PDX_UTOP && Valid(Pde(s.pt, e, i)) && EmptyTable(s, e, i)
    ensures var t := Pde(s.pt, e, i).ppn; var s' := SetRole(SetPde(s, e, i, Zero), t, Plain);
      t < |s'.ref| && s'.role[t] == Plain && s'.ref[t] == 1 && Balanced(s', t, 1)
  {
    var t := Pde(s.pt, e, i).ppn;
    var s' := SetRole(SetPde(s, e, i, Zero), t, Plain);
    assert PdeOk(s.role, s.pt, e, i);
    assert EnvOk(s.role, s.pt, s.asids, e);
    assert FrameOk(s.ref, s.role, s.pt, t, 0, 0);
    forall e': nat, v': Va
      ensures s'.pt.envs == s.pt.envs && s'.pt.tmpl == s.pt.tmpl
      ensures Pde(s'.pt, e', v'.pdx) == if e' == e && v'.pdx == i then Zero else Pde(s.pt, e', v'.pdx)
      ensures User(v') ==> Valid(Pt(s'.pt, e', v')) == Valid(Pt(s.pt, e', v'))
      ensures User(v') && Valid(Pt(s.pt, e', v')) ==> Pt(s'.pt, e', v') == Pt(s.pt, e', v')
    {
      WriteDir(s, 0, 0, e, i, Zero, e', v');
      assert e' == e && User(v') && v'.pdx == i ==> !Valid(Pt(s.pt, e, Va(i, v'.ptx)));
    }
    forall y: nat | y < |s'.ref| ensures FrameOk(s'.ref, s'.role, s'.pt, y, t, 1) {
      assert FrameOk(s.ref, s.role, s.pt, y, 0, 0);
      RefsSame(s.pt, s'.pt, y);
      if y == t {
        forall e': nat, v': Va | User(v') ensures !Maps(s'.pt, e', v', t) { NoRefs(s, 0, 0, t, e', v'); }
        assert Refs(s'.pt, t) == {};
      }
      if s.role[y].Table? {
        var z := s.role[y];
        assert Pde(s'.pt, z.env, Va(z.pdx, 0).pdx) == if z.env == e && z.pdx == i then Zero else Pde(s.pt, z.env, z.pdx);
      }
    }
    forall e': nat ensures EnvOk(s'.role, s'.pt, s'.asids, e') {
      assert EnvOk(s.role, s.pt, s.asids, e');
    }
    forall e': nat, j: nat ensures PdeOk(s'.role, s'.pt, e', j) {
      assert PdeOk(s.role, s.pt, e', j);
      assert Pde(s'.pt, e', Va(j, 0).pdx) == if e' == e && j == i then Zero else Pde(s.pt, e', j);
    }
    forall e': nat, v': Va ensures PteOk(s'.role, s'.pt, e', v') {
      assert PteOk(s.role, s.pt, e', v');
    }
    forall y: nat | y in s'.free ensures FreeOk(s'.ref, s'.role, y) {
      assert FreeOk(s.ref, s.role, y);
    }
  }
}
