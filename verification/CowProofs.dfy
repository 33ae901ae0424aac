/** Every step of the lazy machine is a step, or nothing, of the eager one. */
module CowProofs {
  import opened Mmu
  import opened Cow

  /** Nobody but (e, v) itself sees the frame a private writable page is in, except an unborn child whose
      parent is halfway through duppage. */
  lemma StoreAlone(s: Lazy, t: Eager, e: nat, v: nat, k: Key)
    requires R(s, t) && PcOf(s, e) == Idle && v != UCOW && Writable(s, (e, v))
    requires k in s.space && k != (e, v) && s.space[k].ppn == Frame(s, (e, v))
    ensures k.1 != UCOW && (Pending(s, k) || (LIBRARY in s.space[k].perm && LIBRARY in PermOf(s, (e, v))))
  {
    assert k == (k.0, k.1);
    assert WindowApart(s, k.0, (e, v));
    assert Apart(s, (e, v), k);
  }

  lemma StoreR(s: Lazy, t: Eager, e: nat, v: nat, off: nat, x: Pte)
    requires R(s, t) && Enabled(s, Store(e, v, off, x))
    ensures R(Step(s, Store(e, v, off, x)), EStep(t, Store(e, v, off, x)))
  {
    var s', t', f := Step(s, Store(e, v, off, x)), EStep(t, Store(e, v, off, x)), Frame(s, (e, v));
    assert Same(s, t, (e, v));
    forall k: Key | k in s.space && k != (e, v) && s.space[k].ppn == f
      ensures k.1 != UCOW && (Pending(s, k) || (LIBRARY in s.space[k].perm && LIBRARY in PermOf(s, (e, v))))
    {
      StoreAlone(s, t, e, v, k);
    }
    forall k: Key ensures Same(s', t', k) {
      assert Same(s, t, k) && ChildOk(s, k.0) && k == (k.0, k.1);
    }
    forall k: Key, j: Key ensures Apart(s', k, j) {
      assert Apart(s, k, j);
    }
    forall a: nat ensures Window(s', a) {
      assert Window(s, a) && ChildOk(s, a);
      if PcOf(s, a).Copied? { assert Same(s, t, (a, PcOf(s, a).v)); }
    }
    forall a: nat, k: Key ensures WindowApart(s', a, k) {
      assert WindowApart(s, a, k);
    }
    forall c: nat ensures ChildOk(s', c) { assert ChildOk(s, c); }
  }

  lemma TrapR(s: Lazy, t: Eager, e: nat, v: nat)
    requires R(s, t) && Enabled(s, Trap(e, v))
    ensures R(Step(s, Trap(e, v)), t)
  {
    var s' := Step(s, Trap(e, v));
    forall k: Key ensures Same(s', t, k) { assert Same(s, t, k); }
    forall k: Key, j: Key ensures Apart(s', k, j) { assert Apart(s, k, j); }
    forall a: nat ensures Window(s', a) { assert Window(s, a); }
    forall a: nat, k: Key ensures WindowApart(s', a, k) { assert WindowApart(s, a, k); assert Window(s, a); }
    forall c: nat ensures ChildOk(s', c) { assert ChildOk(s, c); }
  }

  lemma CowAllocR(s: Lazy, t: Eager, e: nat, f: nat)
    requires R(s, t) && Enabled(s, CowAlloc(e, f))
    ensures R(Step(s, CowAlloc(e, f)), t)
  {
    var s', u := Step(s, CowAlloc(e, f)), (e, UCOW);
    forall k: Key ensures Same(s', t, k) { assert Same(s, t, k); }
    forall k: Key, j: Key ensures Apart(s', k, j) { assert Apart(s, k, j); }
    forall a: nat ensures Window(s', a) {
      assert Window(s, a);
      if PcOf(s, a).Copied? { assert Same(s, t, (a, PcOf(s, a).v)); }
    }
    forall a: nat, k: Key ensures WindowApart(s', a, k) { assert WindowApart(s, a, k) && Window(s, a); }
    forall c: nat ensures ChildOk(s', c) { assert ChildOk(s, c); }
  }

  lemma CowCopyR(s: Lazy, t: Eager, e: nat)
    requires R(s, t) && Enabled(s, CowCopy(e))
    ensures R(Step(s, CowCopy(e)), t)
  {
    var s', f := Step(s, CowCopy(e)), Frame(s, (e, UCOW));
    assert Window(s, e);
    forall k: Key ensures Same(s', t, k) { assert Same(s, t, k) && WindowApart(s, e, k); }
    forall k: Key, j: Key ensures Apart(s', k, j) { assert Apart(s, k, j); }
    forall a: nat ensures Window(s', a) {
      assert Window(s, a);
      var v := if PcOf(s, a).Idle? then 0 else PcOf(s, a).v;
      assert WindowApart(s, e, (a, v)) && WindowApart(s, e, (a, UCOW));
    }
    forall a: nat, k: Key ensures WindowApart(s', a, k) { assert WindowApart(s, a, k); }
    forall c: nat ensures ChildOk(s', c) { assert ChildOk(s, c); }
  }

  lemma CowMapR(s: Lazy, t: Eager, e: nat)
    requires R(s, t) && Enabled(s, CowMap(e))
    ensures R(Step(s, CowMap(e)), t)
  {
    var s', u, v := Step(s, CowMap(e)), (e, UCOW), PcOf(s, e).v;
    assert Window(s, e) && Same(s, t, (e, v)) && ChildOk(s, e);
    forall k: Key ensures Same(s', t, k) { assert Same(s, t, k); }
    forall k: Key, j: Key ensures Apart(s', k, j) {
      assert Apart(s, k, j) && WindowApart(s, e, k) && WindowApart(s, e, j);
    }
    forall a: nat ensures Window(s', a) { assert Window(s, a); }
    forall a: nat, k: Key ensures WindowApart(s', a, k) {
      assert WindowApart(s, a, k) && WindowApart(s, e, (a, UCOW)) && WindowApart(s, a, u);
    }
    forall c: nat ensures ChildOk(s', c) { assert ChildOk(s, c); }
  }

  lemma CowUnmapR(s: Lazy, t: Eager, e: nat)
    requires R(s, t) && Enabled(s, CowUnmap(e))
    ensures R(Step(s, CowUnmap(e)), t)
  {
    var s' := Step(s, CowUnmap(e));
    forall k: Key ensures Same(s', t, k) { assert Same(s, t, k); }
    forall k: Key, j: Key ensures Apart(s', k, j) { assert Apart(s, k, j); }
    forall a: nat ensures Window(s', a) { assert Window(s, a); }
    forall a: nat, k: Key ensures WindowApart(s', a, k) { assert WindowApart(s, a, k); }
    forall c: nat ensures ChildOk(s', c) { assert ChildOk(s, c); }
  }

  lemma AllocR(s: Lazy, t: Eager, e: nat, v: nat, perm: Perm, f: nat)
    requires R(s, t) && Enabled(s, Alloc(e, v, perm, f))
    ensures R(Step(s, Alloc(e, v, perm, f)), EStep(t, Alloc(e, v, perm, f)))
  {
    var s', t' := Step(s, Alloc(e, v, perm, f)), EStep(t, Alloc(e, v, perm, f));
    forall k: Key ensures Same(s', t', k) { assert Same(s, t, k); }
    forall k: Key, j: Key ensures Apart(s', k, j) { assert Apart(s, k, j); }
    forall a: nat ensures Window(s', a) { assert Window(s, a); }
    forall a: nat, k: Key ensures WindowApart(s', a, k) { assert WindowApart(s, a, k); }
    forall c: nat ensures ChildOk(s', c) { assert ChildOk(s, c) && (Settled(s, e) ==> Done(s, e, c)); }
  }

  lemma UnmapR(s: Lazy, t: Eager, e: nat, v: nat)
    requires R(s, t) && Enabled(s, Unmap(e, v))
    ensures R(Step(s, Unmap(e, v)), EStep(t, Unmap(e, v)))
  {
    var s', t' := Step(s, Unmap(e, v)), EStep(t, Unmap(e, v));
    forall k: Key ensures Same(s', t', k) { assert Same(s, t, k); }
    forall k: Key, j: Key ensures Apart(s', k, j) { assert Apart(s, k, j); }
    forall a: nat ensures Window(s', a) { assert Window(s, a); }
    forall a: nat, k: Key ensures WindowApart(s', a, k) { assert WindowApart(s, a, k); }
    forall c: nat ensures ChildOk(s', c) { assert ChildOk(s, c) && Done(s, e, c); }
  }

  /** An env may be destroyed anywhere, in the handler or inside duppage. */
  lemma ExitR(s: Lazy, t: Eager, e: nat)
    requires R(s, t) && Enabled(s, Exit(e))
    ensures R(Step(s, Exit(e)), EStep(t, Exit(e)))
  {
    var s', t' := Step(s, Exit(e)), EStep(t, Exit(e));
    forall k: Key ensures Same(s', t', k) { assert Same(s, t, k); }
    forall k: Key, j: Key ensures Apart(s', k, j) { assert Apart(s, k, j); }
    forall a: nat ensures Window(s', a) { assert Window(s, a); }
    forall a: nat, k: Key ensures WindowApart(s', a, k) { assert WindowApart(s, a, k); }
    forall c: nat ensures ChildOk(s', c) { assert ChildOk(s, c); }
  }

  // ----- fork

  lemma ExoforkR(s: Lazy, t: Eager, p: nat, c: nat)
    requires R(s, t) && Enabled(s, Exofork(p, c))
    ensures R(Step(s, Exofork(p, c)), EStep(t, Exofork(p, c)))
  {
    var s' := Step(s, Exofork(p, c));
    forall k: Key ensures Same(s', t, k) { assert Same(s, t, k); }
    forall k: Key, j: Key ensures Apart(s', k, j) { assert Apart(s, k, j); }
    forall a: nat ensures Window(s', a) { assert Window(s, a); }
    forall a: nat, k: Key ensures WindowApart(s', a, k) { assert WindowApart(s, a, k); }
    forall a: nat ensures ChildOk(s', a) { assert ChildOk(s, a); }
  }

  lemma DupMapApart(s: Lazy, t: Eager, p: nat, c: nat, v: nat, k: Key, j: Key)
    requires R(s, t) && Enabled(s, DupMap(p, c, v))
    ensures Apart(Step(s, DupMap(p, c, v)), k, j)
  {
    assert Apart(s, k, j) && Apart(s, (p, v), j) && Apart(s, k, (p, v)) && ChildOk(s, c);
  }

  lemma DupMapR(s: Lazy, t: Eager, p: nat, c: nat, v: nat)
    requires R(s, t) && Enabled(s, DupMap(p, c, v))
    ensures R(Step(s, DupMap(p, c, v)), EStep(t, DupMap(p, c, v)))
  {
    var s', t' := Step(s, DupMap(p, c, v)), EStep(t, DupMap(p, c, v));
    assert Window(s, p) && Window(s, c) && ChildOk(s, c) && Same(s, t, (p, v));
    forall k: Key ensures Same(s', t', k) { assert Same(s, t, k); }
    forall k: Key, j: Key ensures Apart(s', k, j) { DupMapApart(s, t, p, c, v, k, j); }
    forall a: nat ensures Window(s', a) { assert Window(s, a); }
    forall a: nat, k: Key ensures WindowApart(s', a, k) { assert WindowApart(s, a, k) && WindowApart(s, a, (p, v)); }
    forall a: nat ensures ChildOk(s', a) { assert ChildOk(s, a) && Done(s, p, a); }
  }

  lemma DupRemapR(s: Lazy, t: Eager, p: nat, c: nat, v: nat)
    requires R(s, t) && Enabled(s, DupRemap(p, c, v))
    ensures R(Step(s, DupRemap(p, c, v)), EStep(t, DupRemap(p, c, v)))
  {
    var s', t' := Step(s, DupRemap(p, c, v)), EStep(t, DupRemap(p, c, v));
    assert Window(s, p) && Window(s, c) && ChildOk(s, c) && Same(s, t, (p, v));
    forall k: Key ensures Same(s', t', k) { assert Same(s, t, k); }
    forall k: Key, j: Key ensures Apart(s', k, j) {
      assert Apart(s, k, j) && Apart(s, k, (p, v)) && Apart(s, (p, v), j);
    }
    forall a: nat ensures Window(s', a) { assert Window(s, a); }
    forall a: nat, k: Key ensures WindowApart(s', a, k) { assert WindowApart(s, a, k); }
    forall a: nat ensures ChildOk(s', a) { assert ChildOk(s, a) && (a != c ==> Done(s, p, a)); }
  }

  lemma WakeR(s: Lazy, t: Eager, p: nat, c: nat)
    requires R(s, t) && Enabled(s, Wake(p, c))
    ensures R(Step(s, Wake(p, c)), EStep(t, Wake(p, c)))
  {
    var s' := Step(s, Wake(p, c));
    forall k: Key ensures Same(s', t, k) { assert Same(s, t, k); }
    forall k: Key, j: Key ensures Apart(s', k, j) { assert Apart(s, k, j); }
    forall a: nat ensures Window(s', a) { assert Window(s, a); }
    forall a: nat, k: Key ensures WindowApart(s', a, k) { assert WindowApart(s, a, k); }
    forall a: nat ensures ChildOk(s', a) { assert ChildOk(s, a); }
  }

  // ----- runs

  lemma StepR(s: Lazy, t: Eager, ev: Ev)
    requires R(s, t) && Enabled(s, ev)
    ensures R(Step(s, ev), EStep(t, ev))
  {
    match ev
    case Store(e, v, off, x) => StoreR(s, t, e, v, off, x);
    case Trap(e, v) => TrapR(s, t, e, v);
    case CowAlloc(e, f) => CowAllocR(s, t, e, f);
    case CowCopy(e) => CowCopyR(s, t, e);
    case CowMap(e) => CowMapR(s, t, e);
    case CowUnmap(e) => CowUnmapR(s, t, e);
    case Alloc(e, v, perm, f) => AllocR(s, t, e, v, perm, f);
    case Unmap(e, v) => UnmapR(s, t, e, v);
    case Exofork(p, c) => ExoforkR(s, t, p, c);
    case DupMap(p, c, v) => DupMapR(s, t, p, c, v);
    case DupRemap(p, c, v) => DupRemapR(s, t, p, c, v);
    case Wake(p, c) => WakeR(s, t, p, c);
    case Exit(e) => ExitR(s, t, e);
  }

  /** The handler ends with the page private, writable and unchanged, so the store it interrupted can
      be retried, and no other page of any env has moved. */
  lemma HandledWritable(s: Lazy, t: Eager, e: nat, v: nat, f: nat, k: Key)
    requires R(s, t) && Enabled(s, Trap(e, v)) && IsFree(s, f) && k.1 != UCOW
    ensures var s' := Handled(s, e, v, f);
      && R(s', t) && PcOf(s', e) == Idle && Writable(s', (e, v)) && Frame(s', (e, v)) == f
      && Words(s', f) == Words(s, Frame(s, (e, v)))
      && (k != (e, v) ==> (k in s'.space <==> k in s.space) && (k in s.space ==> s'.space[k] == s.space[k]))
  {
    var s1 := Step(s, Trap(e, v));
    var s2 := Step(s1, CowAlloc(e, f));
    var s3 := Step(s2, CowCopy(e));
    var s4 := Step(s3, CowMap(e));
    assert Window(s, e);
    TrapR(s, t, e, v);
    CowAllocR(s1, t, e, f);
    CowCopyR(s2, t, e);
    CowMapR(s3, t, e);
    CowUnmapR(s4, t, e);
  }

  /** It takes PTE_COW away, adds PTE_D, and keeps every other bit. */
  lemma HandledBits(s: Lazy, e: nat, v: nat, f: nat, x: Flag)
    requires Enabled(s, Trap(e, v)) && AllValid(s)
    ensures var p, p' := PermOf(s, (e, v)), PermOf(Handled(s, e, v, f), (e, v));
      D in p' && COW !in p' && (x != COW && x != D ==> (x in p' <==> x in p))
  {
    var s2 := Step(Step(s, Trap(e, v)), CowAlloc(e, f));
    assert (e, v) in s.space && PcOf(s2, e) == Filled(v, PermOf(s, (e, v)) - {COW} + {D});
  }

  function Run(s: Lazy, evs: seq<Ev>): Lazy
    decreases |evs|
  {
    if evs == [] then s else Run(Step(s, evs[0]), evs[1..])
  }

  function ERun(t: Eager, evs: seq<Ev>): Eager
    decreases |evs|
  {
    if evs == [] then t else ERun(EStep(t, evs[0]), evs[1..])
  }

  ghost predicate EnabledRun(s: Lazy, evs: seq<Ev>)
    decreases |evs|
  {
    evs == [] || (Enabled(s, evs[0]) && EnabledRun(Step(s, evs[0]), evs[1..]))
  }

  lemma {:induction false} RunR(s: Lazy, t: Eager, evs: seq<Ev>)
    requires R(s, t) && EnabledRun(s, evs)
    ensures R(Run(s, evs), ERun(t, evs))
    decreases |evs|
  {
    if evs != [] {
      StepR(s, t, evs[0]);
      RunR(Step(s, evs[0]), EStep(t, evs[0]), evs[1..]);
    }
  }

  // ----- fork without interruption

  /** The system calls of duppage for page v, and of the loops of fork for the pages below n. */
  function PageEvs(s: Lazy, p: nat, c: nat, v: nat): seq<Ev> {
    var perm := PermOf(s, (p, v));
    if (p, v) !in s.space then []
    else if DupPerm(perm) != perm then [DupMap(p, c, v), DupRemap(p, c, v)]
    else [DupMap(p, c, v)]
  }

  function LoopEvs(s: Lazy, p: nat, c: nat, n: nat): seq<Ev> {
    if n == 0 then [] else LoopEvs(s, p, c, n - 1) + PageEvs(s, p, c, n - 1)
  }

  function ForkEvs(s: Lazy, p: nat, c: nat): seq<Ev> {
    [Exofork(p, c)] + LoopEvs(s, p, c, USTACKTOP) + [Wake(p, c)]
  }

  lemma {:induction false} RunAppend(s: Lazy, t: Eager, a: seq<Ev>, b: seq<Ev>)
    ensures Run(s, a + b) == Run(Run(s, a), b)
    ensures ERun(t, a + b) == ERun(ERun(t, a), b)
    ensures EnabledRun(s, a + b) <==> EnabledRun(s, a) && EnabledRun(Run(s, a), b)
    decreases |a|
  {
    if a == [] {
      assert a + b == b;
    } else {
      assert (a + b)[1..] == a[1..] + b;
      RunAppend(Step(s, a[0]), EStep(t, a[0]), a[1..], b);
    }
  }

  /** p is running fork for c, between two pages. */
  ghost predicate Forking(s: Lazy, p: nat, c: nat) {
    Running(s, p) && Settled(s, p) && c in s.child && s.child[c] == Of(p, Between)
  }

  lemma RunOne(s: Lazy, t: Eager, a: Ev)
    ensures Run(s, [a]) == Step(s, a) && ERun(t, [a]) == EStep(t, a)
    ensures EnabledRun(s, [a]) <==> Enabled(s, a)
  {}

  lemma RunTwo(s: Lazy, t: Eager, a: Ev, b: Ev)
    ensures Run(s, [a, b]) == Step(Step(s, a), b) && ERun(t, [a, b]) == EStep(EStep(t, a), b)
    ensures EnabledRun(s, [a, b]) <==> Enabled(s, a) && Enabled(Step(s, a), b)
  {
    RunOne(s, t, a);
    RunOne(Step(s, a), EStep(t, a), b);
    RunAppend(s, t, [a], [b]);
    assert [a] + [b] == [a, b];
  }

  /** The two system calls of duppage, or the one, make up Duppage. */
  lemma DupSteps(s: Lazy, p: nat, c: nat, v: nat)
    requires Forking(s, p, c) && v < USTACKTOP && p != c && (p, v) in s.space
    ensures var s1, perm := Step(s, DupMap(p, c, v)), PermOf(s, (p, v));
      if DupPerm(perm) != perm then Enabled(s1, DupRemap(p, c, v)) && Step(s1, DupRemap(p, c, v)) == Duppage(s, p, c, v)
      else s1 == Duppage(s, p, c, v)
  {
    var s1 := Step(s, DupMap(p, c, v));
    assert s1.child[c := Of(p, Between)] == s.child;
    forall a: nat | a != c ensures Done(s1, p, a) { assert Done(s, p, a); }
  }

  lemma DupRun(s: Lazy, t: Eager, p: nat, c: nat, v: nat)
    requires Forking(s, p, c) && v < USTACKTOP && p != c
    ensures EnabledRun(s, PageEvs(s, p, c, v))
    ensures Run(s, PageEvs(s, p, c, v)) == if (p, v) in s.space then Duppage(s, p, c, v) else s
  {
    if (p, v) in s.space {
      DupSteps(s, p, c, v);
      RunOne(s, t, DupMap(p, c, v));
      RunTwo(s, t, DupMap(p, c, v), DupRemap(p, c, v));
    }
  }

  lemma LoopStep(s: Lazy, s1: Lazy, t: Eager, p: nat, c: nat, v: nat)
    requires p != c && NoPages(s, c) && AllValid(s) && Forking(s, p, c) && v < USTACKTOP && Forked(s, s1, p, c, v)
    ensures EnabledRun(s1, PageEvs(s, p, c, v))
    ensures Forked(s, Run(s1, PageEvs(s, p, c, v)), p, c, v + 1)
  {
    assert ForkEntry(s, s1, p, c, v, (p, v));
    assert PageEvs(s, p, c, v) == PageEvs(s1, p, c, v);
    forall a: nat ensures Done(s1, p, a) { assert Done(s, p, a); }
    DupRun(s1, t, p, c, v);
    if (p, v) in s1.space {
      ForkOne(s, s1, p, c, v);
    } else {
      ForkSkip(s, s1, p, c, v, v + 1);
    }
  }

  lemma {:induction false} LoopRun(s: Lazy, t: Eager, p: nat, c: nat, n: nat)
    requires p != c && NoPages(s, c) && AllValid(s) && Forking(s, p, c) && n <= USTACKTOP
    ensures EnabledRun(s, LoopEvs(s, p, c, n))
    ensures Forked(s, Run(s, LoopEvs(s, p, c, n)), p, c, n)
  {
    if n == 0 {
      ForkStart(s, p, c);
    } else {
      LoopRun(s, t, p, c, n - 1);
      RunAppend(s, t, LoopEvs(s, p, c, n - 1), PageEvs(s, p, c, n - 1));
      LoopStep(s, Run(s, LoopEvs(s, p, c, n - 1)), t, p, c, n - 1);
    }
  }

  /** What the eager fork has done to page k after the pages below n. */
  predicate EagerEntry(t: Eager, t': Eager, p: nat, c: nat, n: nat, k: Key) {
    var src := if k.0 == c && k.1 < n && (p, k.1) in t.page then (p, k.1) else k;
    (k in t'.page <==> src in t.page) && (src in t.page && k in t'.page ==> t'.page[k] == t.page[src])
  }

  lemma {:induction false} EagerLoop(s: Lazy, t: Eager, p: nat, c: nat, n: nat)
    requires p != c && n <= USTACKTOP && forall v: nat :: (p, v) in s.space <==> (p, v) in t.page
    ensures var t' := ERun(t, LoopEvs(s, p, c, n)); t'.store == t.store && forall k: Key :: EagerEntry(t, t', p, c, n, k)
  {
    if n == 0 {
    } else {
      EagerLoop(s, t, p, c, n - 1);
      var t1 := ERun(t, LoopEvs(s, p, c, n - 1));
      RunAppend(s, t, LoopEvs(s, p, c, n - 1), PageEvs(s, p, c, n - 1));
      assert EagerEntry(t, t1, p, c, n - 1, (p, n - 1));
      EagerPage(s, t1, p, c, n - 1);
      var t' := ERun(t, LoopEvs(s, p, c, n));
      forall k: Key ensures EagerEntry(t, t', p, c, n, k) {
        assert EagerEntry(t, t1, p, c, n - 1, k);
      }
    }
  }

  lemma EagerPage(s: Lazy, t: Eager, p: nat, c: nat, v: nat)
    requires p != c && ((p, v) in s.space <==> (p, v) in t.page)
    ensures ERun(t, PageEvs(s, p, c, v)) == EagerDup(t, p, c, v)
  {
    var t1 := EagerDup(t, p, c, v);
    assert EagerDup(t1, p, c, v) == t1;
    RunOne(s, t, DupMap(p, c, v));
    RunTwo(s, t, DupMap(p, c, v), DupRemap(p, c, v));
  }

  lemma {:induction false} LoopSame(s: Lazy, s1: Lazy, p: nat, c: nat, n: nat)
    requires s1.space == s.space
    ensures LoopEvs(s1, p, c, n) == LoopEvs(s, p, c, n)
  {
    if n > 0 { LoopSame(s, s1, p, c, n - 1); }
  }

  lemma ForkEnd(s: Lazy, s1: Lazy, s2: Lazy, p: nat, c: nat)
    requires p != c && NoPages(s, c) && s1 == s.(child := s1.child) && s1.child - {c} == s.child
    requires Forked(s1, s2, p, c, USTACKTOP)
    ensures s2.(child := s2.child - {c}) == ForkSpace(s, p, c)
  {
    var s3 := s2.(child := s2.child - {c});
    forall k: Key ensures ForkEntry(s, s3, p, c, USTACKTOP, k) { assert ForkEntry(s1, s2, p, c, USTACKTOP, k); }
    ForkSpaceForked(s, p, c);
    ForkedUnique(s, s3, ForkSpace(s, p, c), p, c, USTACKTOP);
  }

  lemma EagerForkExact(t: Eager, t': Eager, p: nat, c: nat)
    requires t'.store == t.store && forall k: Key :: EagerEntry(t, t', p, c, USTACKTOP, k)
    ensures t' == EagerFork(t, p, c)
  {
    var t1 := EagerFork(t, p, c);
    forall k: Key ensures (k in t'.page <==> k in t1.page) && (k in t'.page && k in t1.page ==> t'.page[k] == t1.page[k]) {
      assert EagerEntry(t, t', p, c, USTACKTOP, k) && k == (k.0, k.1);
    }
    assert t'.page == t1.page;
  }

  lemma EagerEnd(s: Lazy, t: Eager, p: nat, c: nat)
    requires R(s, t) && Enabled(s, Exofork(p, c))
    ensures ERun(t, LoopEvs(s, p, c, USTACKTOP)) == EagerFork(t, p, c)
  {
    assert Window(s, p);
    forall v: nat ensures (p, v) in s.space <==> (p, v) in t.page { assert Same(s, t, (p, v)); }
    EagerLoop(s, t, p, c, USTACKTOP);
    EagerForkExact(t, ERun(t, LoopEvs(s, p, c, USTACKTOP)), p, c);
  }

  lemma RunAround(s: Lazy, t: Eager, a: Ev, evs: seq<Ev>, b: Ev)
    ensures Run(s, [a] + evs + [b]) == Step(Run(Step(s, a), evs), b)
    ensures ERun(t, [a] + evs + [b]) == EStep(ERun(EStep(t, a), evs), b)
    ensures EnabledRun(s, [a] + evs + [b]) <==>
      Enabled(s, a) && EnabledRun(Step(s, a), evs) && Enabled(Run(Step(s, a), evs), b)
  {
    RunOne(s, t, a);
    RunAppend(s, t, [a], evs);
    RunAppend(s, t, [a] + evs, [b]);
    RunOne(Run(s, [a] + evs), ERun(t, [a] + evs), b);
  }

  /** fork that nothing interrupts ends in the state its loops compute, and copies every page at once. */
  lemma ForkCopies(s: Lazy, t: Eager, p: nat, c: nat)
    requires R(s, t) && Enabled(s, Exofork(p, c))
    ensures EnabledRun(s, ForkEvs(s, p, c))
    ensures Run(s, ForkEvs(s, p, c)) == ForkSpace(s, p, c)
    ensures ERun(t, ForkEvs(s, p, c)) == EagerFork(t, p, c)
  {
    var loop := LoopEvs(s, p, c, USTACKTOP);
    RunAround(s, t, Exofork(p, c), loop, Wake(p, c));
    LazyEnd(s, t, Step(s, Exofork(p, c)), p, c);
    EagerEnd(s, t, p, c);
  }

  lemma LazyEnd(s: Lazy, t: Eager, s1: Lazy, p: nat, c: nat)
    requires AllValid(s) && Enabled(s, Exofork(p, c)) && s1 == Step(s, Exofork(p, c))
    ensures var loop := LoopEvs(s, p, c, USTACKTOP); var s2 := Run(s1, loop);
      EnabledRun(s1, loop) && Enabled(s2, Wake(p, c)) && Step(s2, Wake(p, c)) == ForkSpace(s, p, c)
  {
    forall a: nat ensures Done(s1, p, a) { assert Done(s, p, a); }
    LoopSame(s, s1, p, c, USTACKTOP);
    LoopRun(s1, t, p, c, USTACKTOP);
    var s2 := Run(s1, LoopEvs(s1, p, c, USTACKTOP));
    forall a: nat ensures Done(s2, p, a) { assert Done(s1, p, a); }
    assert s1.child - {c} == s.child;
    ForkEnd(s, s1, s2, p, c);
  }

  /** Why duppage maps into the child first.  If the parent is remapped first, its own next store, which
      the call itself makes on the stack, faults and leaves it a writable frame; the child then gets that
      frame, and later stores of the parent show in the child. */
  lemma RemapFirstLeaks(s: Lazy, t: Eager, p: nat, c: nat, v: nat, f: nat, off: nat, x: Pte)
    requires R(s, t) && Forking(s, p, c) && p != c && v != UCOW && (p, v) in s.space
    requires D in PermOf(s, (p, v)) && LIBRARY !in PermOf(s, (p, v)) && IsFree(s, f)
    ensures var perm := DupPerm(PermOf(s, (p, v)));
      var s1 := MemMap(s, (p, v), (p, v), perm);
      var s2 := MemMap(Handled(s1, p, v, f), (p, v), (c, v), perm);
      && Enabled(s1, Trap(p, v)) && Enabled(s2, Store(p, v, off, x))
      && Frame(s2, (c, v)) == Frame(s2, (p, v)) == f
      && Words(Step(s2, Store(p, v, off, x)), f) == Write(Words(s, Frame(s, (p, v))), off, x)
  {
    assert Window(s, p) && Same(s, t, (p, v));
  }

  lemma StartR()
    ensures R(START, Eager(map[], map[]))
  {
    var s0, t0 := START, Eager(map[], map[]);
    forall j: Key ensures Same(s0, t0, j) {}
    forall j: Key, i: Key ensures Apart(s0, j, i) {}
    forall e: nat ensures Window(s0, e) {}
    forall e: nat, j: Key ensures WindowApart(s0, e, j) {}
    forall c: nat ensures ChildOk(s0, c) {}
  }

  /** Copy-on-write is invisible: while forks, stores, faults, allocations and unmaps interleave one system
      call at a time and envs die anywhere, every env has the pages, the write rights and the words it would
      have if duppage copied private pages and shared library pages.  Only the page of an unborn child that
      its parent has yet to remap may differ. */
  lemma CowRefinesCopy(evs: seq<Ev>, k: Key)
    requires EnabledRun(START, evs) && k.1 != UCOW
    ensures var s, t := Run(START, evs), ERun(Eager(map[], map[]), evs);
      && (k in s.space <==> k in t.page)
      && (k in s.space && !Pending(s, k) ==> Words(s, Frame(s, k)) == EWords(t, k))
      && (k in s.space ==> (t.page[k].writable <==> D in PermOf(s, k) || COW in PermOf(s, k)))
  {
    var s0, t0 := START, Eager(map[], map[]);
    StartR();
    RunR(s0, t0, evs);
    SameView(Run(s0, evs), ERun(t0, evs), k);
  }
}
