/** When elf_load_seg builds the image of its segment. */
module ElfTheorems {
  import opened Common
  import opened Mmu
  import opened Elf

  /** What address a should read: the file's bytes first, zeros after. */
  function Image(s: Segment, a: nat): Read
    requires WellFormed(s)
  {
    Mapped(if s.va <= a < s.va + s.filesz then s.bin[a - s.va] else 0, SegPerm(s))
  }

  function PagesOf(cs: seq<Call>): seq<nat> {
    seq(|cs|, k requires 0 <= k < |cs| => cs[k].va / BY2PG)
  }

  function Range(lo: nat, hi: nat): (r: seq<nat>)
    ensures |r| == if lo < hi then hi - lo else 0
    ensures forall k :: 0 <= k < |r| ==> r[k] == lo + k
  {
    seq(if lo < hi then hi - lo else 0, k requires 0 <= k => lo + k)
  }

  function First(s: Segment): nat {
    s.va / BY2PG
  }

  /** One past the last page the segment covers. */
  function End(s: Segment): nat {
    (s.va + (if s.filesz < s.memsz then s.memsz else s.filesz) + BY2PG - 1) / BY2PG
  }

  /** The head of the segment fills its page, or nothing comes after it. */
  predicate Fits(s: Segment) {
    Offset(s) == 0 || s.filesz >= BY2PG - Offset(s) || s.memsz <= s.filesz
  }

  // ----- parts

  lemma {:induction false} ReachBound(i: nat, end: nat)
    ensures var r := Reach(i, end); r >= i && r >= end && (r == i || r < end + BY2PG) && (r - i) % BY2PG == 0
    decreases end - i
  {
    if i < end { ReachBound(i + BY2PG, end); }
  }

  lemma {:induction false} ApplyParts(m: Space, xs: seq<Call>, ys: seq<Call>, perm: Perm)
    ensures ApplyAll(m, xs + ys, perm) == ApplyAll(ApplyAll(m, xs, perm), ys, perm)
    decreases |xs|
  {
    if xs == [] {
      assert xs + ys == ys;
    } else {
      assert (xs + ys)[1..] == xs[1..] + ys;
      ApplyParts(Apply(m, xs[0], perm), xs[1..], ys, perm);
    }
  }

  lemma ApplyOne(m: Space, c: Call, perm: Perm, a: nat)
    requires c.offset + |c.src| <= BY2PG
    ensures ReadAt(Apply(m, c, perm), a) ==
      if a / BY2PG != c.va / BY2PG then ReadAt(m, a)
      else Mapped(if c.offset <= a % BY2PG < c.offset + |c.src| then c.src[a % BY2PG - c.offset] else 0, perm)
  {}

  lemma {:induction false} BodyEffect(s: Segment, m: Space, i: nat, a: nat)
    requires WellFormed(s) && (s.va + i) % BY2PG == 0
    ensures ReadAt(ApplyAll(m, BodyCalls(s, i), SegPerm(s)), a) ==
      if s.va + i <= a < s.va + Reach(i, s.filesz) then Image(s, a) else ReadAt(m, a)
    decreases s.filesz - i
  {
    ReachBound(i, s.filesz);
    if i < s.filesz {
      ReachBound(i + BY2PG, s.filesz);
      BodyStep(s, m, i, a);
      BodyEffect(s, Apply(m, BodyCall(s, i), SegPerm(s)), i + BY2PG, a);
    }
  }

  lemma BodyStep(s: Segment, m: Space, i: nat, a: nat)
    requires WellFormed(s) && (s.va + i) % BY2PG == 0 && i < s.filesz
    ensures ReadAt(Apply(m, BodyCall(s, i), SegPerm(s)), a) ==
      if s.va + i <= a < s.va + i + BY2PG then Image(s, a) else ReadAt(m, a)
  {
    var b, c := s.va + i, BodyCall(s, i);
    SamePage(b, a);
    ApplyOne(m, c, SegPerm(s), a);
    if b <= a < b + BY2PG { BodyByte(s, i, a); }
  }

  /** The call's bytes at their addresses. */
  lemma BodyByte(s: Segment, i: nat, a: nat)
    requires WellFormed(s) && i < s.filesz && s.va + i <= a < s.va + i + BY2PG
    ensures var src, k := BodyCall(s, i).src, a - s.va - i;
      Mapped(if k < |src| then src[k] else 0, SegPerm(s)) == Image(s, a)
  {}

  lemma SamePage(b: nat, a: nat)
    requires b % BY2PG == 0
    ensures a / BY2PG == b / BY2PG <==> b <= a < b + BY2PG
    ensures a / BY2PG == b / BY2PG ==> a % BY2PG == a - b
  {}

  lemma {:induction false} ZeroEffect(s: Segment, m: Space, i: nat, a: nat)
    requires (s.va + i) % BY2PG == 0
    ensures ReadAt(ApplyAll(m, ZeroCalls(s, i), SegPerm(s)), a) ==
      if s.va + i <= a < s.va + Reach(i, s.memsz) then Mapped(0, SegPerm(s)) else ReadAt(m, a)
    decreases s.memsz - i
  {
    ReachBound(i, s.memsz);
    if i < s.memsz {
      ReachBound(i + BY2PG, s.memsz);
      var c := ZeroCalls(s, i)[0];
      ApplyOne(m, c, SegPerm(s), a);
      ZeroEffect(s, Apply(m, c, SegPerm(s)), i + BY2PG, a);
      SamePage(s.va + i, a);
    }
  }

  lemma PagesCons(c: Call, cs: seq<Call>, hi: nat)
    requires PagesOf(cs) == Range(c.va / BY2PG + 1, hi) && c.va / BY2PG < hi
    ensures PagesOf([c] + cs) == Range(c.va / BY2PG, hi)
  {
    var x, y := PagesOf([c] + cs), Range(c.va / BY2PG, hi);
    assert |PagesOf(cs)| == |cs|;
    forall k | 0 <= k < |x| ensures x[k] == y[k] {
      if k > 0 { assert x[k] == PagesOf(cs)[k - 1]; }
    }
  }

  lemma {:induction false} BodyPages(s: Segment, i: nat)
    requires WellFormed(s) && (s.va + i) % BY2PG == 0
    ensures PagesOf(BodyCalls(s, i)) == Range((s.va + i) / BY2PG, (s.va + Reach(i, s.filesz)) / BY2PG)
    decreases s.filesz - i
  {
    if i < s.filesz {
      BodyPages(s, i + BY2PG);
      ReachBound(i + BY2PG, s.filesz);
      PagesCons(BodyCall(s, i), BodyCalls(s, i + BY2PG), (s.va + Reach(i, s.filesz)) / BY2PG);
    }
  }

  lemma {:induction false} ZeroPages(s: Segment, i: nat)
    requires (s.va + i) % BY2PG == 0
    ensures PagesOf(ZeroCalls(s, i)) == Range((s.va + i) / BY2PG, (s.va + Reach(i, s.memsz)) / BY2PG)
    decreases s.memsz - i
  {
    if i < s.memsz {
      ZeroPages(s, i + BY2PG);
      ReachBound(i + BY2PG, s.memsz);
      PagesCons(Call(s.va + i, 0, []), ZeroCalls(s, i + BY2PG), (s.va + Reach(i, s.memsz)) / BY2PG);
    }
  }

  // ----- the whole segment

  /** The index after the head, after the file's bytes, and at the end. */
  function BodyEnd(s: Segment): nat {
    Reach(Head(s), s.filesz)
  }

  function ZeroEnd(s: Segment): nat {
    Reach(BodyEnd(s), s.memsz)
  }

  /** When the head fills its page, the rest of the segment is made of whole pages. */
  lemma WholePages(s: Segment)
    requires Offset(s) == 0 || s.filesz >= BY2PG - Offset(s)
    ensures (s.va + Head(s)) % BY2PG == 0 && (s.va + BodyEnd(s)) % BY2PG == 0
    ensures Head(s) <= BodyEnd(s) <= ZeroEnd(s) && s.filesz <= BodyEnd(s) && s.memsz <= ZeroEnd(s)
    ensures (s.va + ZeroEnd(s)) / BY2PG == End(s) && (s.va + ZeroEnd(s)) % BY2PG == 0
    ensures Offset(s) == 0 ==> Head(s) == 0
    ensures Offset(s) != 0 ==> Head(s) == BY2PG - Offset(s) && (s.va + Head(s)) / BY2PG == First(s) + 1
  {
    HeadPage(s.va);
    ReachBound(Head(s), s.filesz);
    ReachBound(BodyEnd(s), s.memsz);
    AddMultiple(s.va + Head(s), BodyEnd(s) - Head(s));
    AddMultiple(s.va + BodyEnd(s), ZeroEnd(s) - BodyEnd(s));
    var n := if s.filesz < s.memsz then s.memsz else s.filesz;
    assert n <= ZeroEnd(s) < n + BY2PG;
    EndPage(s.va, n, ZeroEnd(s));
  }

  lemma HeadPage(va: nat)
    ensures var off := va % BY2PG; off != 0 ==> (va + (BY2PG - off)) % BY2PG == 0 && (va + (BY2PG - off)) / BY2PG == va / BY2PG + 1
  {}

  lemma AddMultiple(a: nat, k: nat)
    requires a % BY2PG == 0 && k % BY2PG == 0
    ensures (a + k) % BY2PG == 0
  {}

  lemma EndPage(va: nat, n: nat, end: nat)
    requires (va + end) % BY2PG == 0 && n <= end < n + BY2PG
    ensures (va + end) / BY2PG == (va + n + BY2PG - 1) / BY2PG
  {}

  lemma HeadEffect(s: Segment, m: Space, a: nat)
    requires WellFormed(s)
    ensures ReadAt(ApplyAll(m, HeadCalls(s), SegPerm(s)), a) ==
      if Offset(s) == 0 || a / BY2PG != First(s) then ReadAt(m, a)
      else if s.va <= a < s.va + Head(s) then Mapped(s.bin[a - s.va], SegPerm(s)) else Mapped(0, SegPerm(s))
  {}

  lemma WholeEffect(s: Segment, m: Space, a: nat)
    requires WellFormed(s) && (Offset(s) == 0 || s.filesz >= BY2PG - Offset(s))
    ensures var m2 := ApplyAll(ApplyAll(m, BodyCalls(s, Head(s)), SegPerm(s)), ZeroCalls(s, BodyEnd(s)), SegPerm(s));
      ReadAt(m2, a) == if s.va + Head(s) <= a < s.va + ZeroEnd(s) then Image(s, a) else ReadAt(m, a)
  {
    WholePages(s);
    BodyEffect(s, m, Head(s), a);
    ZeroEffect(s, ApplyAll(m, BodyCalls(s, Head(s)), SegPerm(s)), BodyEnd(s), a);
  }

  lemma CallParts(s: Segment, m: Space)
    requires WellFormed(s)
    ensures ApplyAll(m, Calls(s), SegPerm(s)) ==
      ApplyAll(ApplyAll(ApplyAll(m, HeadCalls(s), SegPerm(s)), BodyCalls(s, Head(s)), SegPerm(s)), ZeroCalls(s, BodyEnd(s)), SegPerm(s))
  {
    ApplyParts(m, HeadCalls(s) + BodyCalls(s, Head(s)), ZeroCalls(s, BodyEnd(s)), SegPerm(s));
    ApplyParts(m, HeadCalls(s), BodyCalls(s, Head(s)), SegPerm(s));
  }

  /** Address a after the whole load: the image on the pages of the segment, and what was there elsewhere. */
  lemma LoadEffect(s: Segment, m: Space, a: nat)
    requires WellFormed(s) && Fits(s)
    ensures ReadAt(ApplyAll(m, Calls(s), SegPerm(s)), a) ==
      if First(s) <= a / BY2PG < End(s) then Image(s, a) else ReadAt(m, a)
    ensures First(s) <= a / BY2PG < End(s) ==> Rights(s, ReadAt(ApplyAll(m, Calls(s), SegPerm(s)), a))
  {
    CallParts(s, m);
    HeadEffect(s, m, a);
    if Offset(s) == 0 || s.filesz >= BY2PG - Offset(s) {
      WholeEffect(s, ApplyAll(m, HeadCalls(s), SegPerm(s)), a);
      WholePages(s);
      Spans(s.va + Head(s), s.va + ZeroEnd(s), a);
    } else {
      SmallEnd(s);
    }
  }

  /** A small segment without a tail is its head alone. */
  lemma SmallEnd(s: Segment)
    requires Offset(s) != 0 && s.filesz < BY2PG - Offset(s) && s.memsz <= s.filesz
    ensures End(s) == First(s) + 1 && BodyEnd(s) == ZeroEnd(s) == s.filesz == Head(s)
  {}

  // ----- which pages are mapped

  /** Each page of the segment is mapped once, in order, exactly when the segment fits: otherwise step 2
      starts in the middle of the first page and maps that page again. */
  lemma MapsOnceExact(s: Segment)
    requires WellFormed(s)
    ensures PagesOf(Calls(s)) == Range(First(s), End(s)) <==> Fits(s)
  {
    if !Fits(s) {
      Remapped(s);
    } else {
      if Offset(s) == 0 || s.filesz >= BY2PG - Offset(s) {
        var h, b, z := HeadCalls(s), BodyCalls(s, Head(s)), ZeroCalls(s, BodyEnd(s));
        WholePages(s);
        RestPages(s);
        assert Calls(s) == h + (b + z);
        if Offset(s) != 0 {
          PagesCons(h[0], b + z, End(s));
        } else {
          assert h + (b + z) == b + z;
        }
      } else {
        SmallEnd(s);
      }
    }
  }

  lemma RestPages(s: Segment)
    requires WellFormed(s) && (Offset(s) == 0 || s.filesz >= BY2PG - Offset(s))
    ensures PagesOf(BodyCalls(s, Head(s)) + ZeroCalls(s, BodyEnd(s))) == Range((s.va + Head(s)) / BY2PG, End(s))
  {
    WholePages(s);
    BodyPages(s, Head(s));
    ZeroPages(s, BodyEnd(s));
    var lo, mid := (s.va + Head(s)) / BY2PG, (s.va + BodyEnd(s)) / BY2PG;
    RangeJoin(BodyCalls(s, Head(s)), ZeroCalls(s, BodyEnd(s)), lo, mid, End(s));
  }

  lemma RangeJoin(xs: seq<Call>, ys: seq<Call>, lo: nat, mid: nat, hi: nat)
    requires lo <= mid <= hi && PagesOf(xs) == Range(lo, mid) && PagesOf(ys) == Range(mid, hi)
    ensures PagesOf(xs + ys) == Range(lo, hi)
  {
    var x, y := PagesOf(xs + ys), Range(lo, hi);
    assert |PagesOf(xs)| == |xs| && |PagesOf(ys)| == |ys|;
    forall k | 0 <= k < |x| ensures x[k] == y[k] {
      if k < |xs| { assert x[k] == PagesOf(xs)[k]; } else { assert x[k] == PagesOf(ys)[k - |xs|]; }
    }
  }

  /** The failing family: the first page is mapped twice. */
  lemma Remapped(s: Segment)
    requires WellFormed(s) && !Fits(s)
    ensures |Calls(s)| >= 2 && PagesOf(Calls(s))[0] == PagesOf(Calls(s))[1] == First(s)
  {}

  /** And then everything the file put there reads zero. */
  lemma HeadLost(s: Segment, m: Space, a: nat)
    requires WellFormed(s) && !Fits(s) && a / BY2PG == First(s)
    ensures ReadAt(ApplyAll(m, Calls(s), SegPerm(s)), a) == Mapped(0, SegPerm(s))
    ensures Rights(s, ReadAt(ApplyAll(m, Calls(s), SegPerm(s)), a))
  {
    var c := Call(s.va + s.filesz, 0, []);
    var m1 := ApplyAll(m, HeadCalls(s), SegPerm(s));
    CallParts(s, m);
    ApplyOne(m1, c, SegPerm(s), a);
    assert s.va == BY2PG * First(s) + Offset(s);
    ZeroLater(s, Apply(m1, c, SegPerm(s)), s.filesz + BY2PG, a);
  }

  lemma {:induction false} ZeroLater(s: Segment, m: Space, i: nat, a: nat)
    requires a / BY2PG < (s.va + i) / BY2PG
    ensures ReadAt(ApplyAll(m, ZeroCalls(s, i), SegPerm(s)), a) == ReadAt(m, a)
    decreases s.memsz - i
  {
    if i < s.memsz {
      ApplyOne(m, Call(s.va + i, 0, []), SegPerm(s), a);
      ZeroLater(s, Apply(m, Call(s.va + i, 0, []), SegPerm(s)), i + BY2PG, a);
    }
  }

  /** Whole pages from b to e hold exactly the addresses in between. */
  lemma Spans(b: nat, e: nat, a: nat)
    requires b % BY2PG == 0 && e % BY2PG == 0
    ensures b <= a < e <==> b / BY2PG <= a / BY2PG < e / BY2PG
  {}
}
