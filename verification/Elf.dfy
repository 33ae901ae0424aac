/** Loading one program segment (lib/elfloader.c) through a page mapper (load_icode_mapper, spawn_mapper). */
module Elf {
  import opened Common
  import opened Mmu

  datatype Page = Page(bytes: seq<nat>, perm: Perm)
  type Space = map<nat, Page>

  /** One call of map_page: the address, the offset in its page, and the bytes to copy there. */
  datatype Call = Call(va: nat, offset: nat, src: seq<nat>)

  /** ph: p_vaddr, p_filesz, p_memsz, PF_W, and the segment's bytes in the file. */
  datatype Segment = Segment(va: nat, filesz: nat, memsz: nat, writable: bool, bin: seq<nat>)

  predicate WellFormed(s: Segment) {
    s.filesz <= |s.bin|
  }

  function Min(a: nat, b: nat): nat {
    if a < b then a else b
  }

  function SegPerm(s: Segment): Perm {
    if s.writable then {V, D} else {V}
  }

  function Offset(s: Segment): nat {
    s.va % BY2PG
  }

  /** The part of the file that goes into the first, partly covered page. */
  function Head(s: Segment): nat {
    if Offset(s) == 0 then 0 else Min(s.filesz, BY2PG - Offset(s))
  }

  // ----- the calls

  function HeadCalls(s: Segment): seq<Call>
    requires WellFormed(s)
  {
    if Offset(s) != 0 then [Call(s.va, Offset(s), s.bin[..Head(s)])] else []
  }

  function BodyCalls(s: Segment, i: nat): seq<Call>
    requires WellFormed(s)
    decreases s.filesz - i
  {
    if i >= s.filesz then []
    else [BodyCall(s, i)] + BodyCalls(s, i + BY2PG)
  }

  function BodyCall(s: Segment, i: nat): Call
    requires WellFormed(s) && i < s.filesz
  {
    Call(s.va + i, 0, s.bin[i..i + Min(s.filesz - i, BY2PG)])
  }

  /** Where the index stands after the loop that goes up to `end` in steps of a page. */
  function Reach(i: nat, end: nat): nat
    decreases end - i
  {
    if i >= end then i else Reach(i + BY2PG, end)
  }

  function ZeroCalls(s: Segment, i: nat): seq<Call>
    decreases s.memsz - i
  {
    if i >= s.memsz then [] else [Call(s.va + i, 0, [])] + ZeroCalls(s, i + BY2PG)
  }

  /** All the calls of map_page that elf_load_seg makes when none fails. */
  function Calls(s: Segment): seq<Call>
    requires WellFormed(s)
  {
    HeadCalls(s) + BodyCalls(s, Head(s)) + ZeroCalls(s, Reach(Head(s), s.filesz))
  }

  // ----- the mapper

  /** memcpy(page + offset, src, len) */
  function Copy(page: seq<nat>, offset: nat, src: seq<nat>): seq<nat>
    requires offset + |src| <= |page|
  {
    page[..offset] + src + page[offset + |src|..]
  }

  /** A fresh page takes the place of whatever the page of va was mapped to. */
  function Apply(m: Space, c: Call, perm: Perm): Space {
    m[c.va / BY2PG := Page(if c.offset + |c.src| <= BY2PG then Copy(ZeroPage(), c.offset, c.src) else ZeroPage(), perm)]
  }

  function ApplyAll(m: Space, cs: seq<Call>, perm: Perm): Space
    decreases |cs|
  {
    if cs == [] then m else ApplyAll(Apply(m, cs[0], perm), cs[1..], perm)
  }

  /** The byte an address reads and with what permission, or none where no page is mapped. */
  datatype Read = Unmapped | Mapped(value: nat, perm: Perm)

  function ReadAt(m: Space, a: nat): Read {
    if a / BY2PG in m && |m[a / BY2PG].bytes| == BY2PG then Mapped(m[a / BY2PG].bytes[a % BY2PG], m[a / BY2PG].perm)
    else Unmapped
  }

  /** Readable, and writable exactly if the segment has PF_W. */
  predicate Rights(s: Segment, x: Read) {
    x.Mapped? && V in x.perm && (D in x.perm <==> s.writable) && x.perm <= {V, D}
  }

  lemma {:induction false} PagePerm(m: Space, cs: seq<Call>, perm: Perm, a: nat, k: nat)
    requires k < |cs| && cs[k].va / BY2PG == a / BY2PG
    ensures var x := ReadAt(ApplyAll(m, cs, perm), a); x.Mapped? && x.perm == perm
    decreases |cs|
  {
    if k > 0 {
      PagePerm(Apply(m, cs[0], perm), cs[1..], perm, a, k - 1);
    } else {
      Stays(Apply(m, cs[0], perm), cs[1..], perm, a);
    }
  }

  /** Later calls map a page of the segment again at most with the same permission. */
  lemma {:induction false} Stays(m: Space, cs: seq<Call>, perm: Perm, a: nat)
    requires ReadAt(m, a).Mapped? && ReadAt(m, a).perm == perm
    ensures var x := ReadAt(ApplyAll(m, cs, perm), a); x.Mapped? && x.perm == perm
    decreases |cs|
  {
    if cs != [] { Stays(Apply(m, cs[0], perm), cs[1..], perm, a); }
  }

  /** Whatever calls succeed, the pages they map have the rights of the segment. */
  lemma SegmentRights(s: Segment, m: Space, cs: seq<Call>, a: nat, k: nat)
    requires k < |cs| && cs[k].va / BY2PG == a / BY2PG
    ensures Rights(s, ReadAt(ApplyAll(m, cs, SegPerm(s)), a))
  {
    PagePerm(m, cs, SegPerm(s), a, k);
  }

  // ----- elf_load_seg

  class Loader {
    const answers: seq<int>     // what the mapper answers to its calls, in order; 0 beyond the end
    var space: Space
    var done: seq<Call>         // the calls that succeeded

    function Answer(): int
      reads this
    {
      if |done| < |answers| then answers[|done|] else 0
    }

    method MapPage(va: nat, offset: nat, perm: Perm, src: seq<nat>, ghost from: Space) returns (r: int)
      requires offset + |src| <= BY2PG && space == ApplyAll(from, done, perm)
      modifies this
      ensures space == ApplyAll(from, done, perm)
      ensures r == old(Answer()) && done == if r == 0 then old(done) + [Call(va, offset, src)] else old(done)
    {
      r := Answer();
      if r != 0 { return; }
      ApplyLast(from, done, Call(va, offset, src), perm);
      space := space[va / BY2PG := Page(Copy(ZeroPage(), offset, src), perm)];
      done := done + [Call(va, offset, src)];
    }

    /** Makes the calls in order until one fails, and then returns what that one answered. */
    method ElfLoadSeg(s: Segment) returns (r: int)
      requires WellFormed(s) && done == []
      modifies this
      ensures done <= Calls(s) && space == ApplyAll(old(space), done, SegPerm(s))
      ensures forall k: nat, a: nat :: k < |done| && done[k].va / BY2PG == a / BY2PG ==> Rights(s, ReadAt(space, a))
      ensures r == 0 ==> done == Calls(s)
      ensures r != 0 ==> |done| < |Calls(s)| && |done| < |answers| && r == answers[|done|]
    {
      r := LoadCalls(s);
      forall k: nat, a: nat | k < |done| && done[k].va / BY2PG == a / BY2PG ensures Rights(s, ReadAt(space, a)) {
        SegmentRights(s, old(space), done, a, k);
      }
    }

    method LoadCalls(s: Segment) returns (r: int)
      requires WellFormed(s) && done == []
      modifies this
      ensures done <= Calls(s) && space == ApplyAll(old(space), done, SegPerm(s))
      ensures r == 0 ==> done == Calls(s)
      ensures r != 0 ==> |done| < |Calls(s)| && |done| < |answers| && r == answers[|done|]
    {
      ghost var from, left := space, [];
      var perm := if s.writable then {V, D} else {V};
      var i;
      r, i := LoadHead(s, perm, from);
      if r != 0 { return; }
      r, i, left := LoadBody(s, i, perm, from);
      ghost var zeros := ZeroCalls(s, Reach(Head(s), s.filesz));
      Prefix(done, left, HeadCalls(s) + BodyCalls(s, Head(s)), zeros);
      if r != 0 { return; }
      r, left := LoadZero(s, i, perm, from);
      Prefix(done, left, Calls(s), []);
    }

    /** The page that the segment starts in the middle of. */
    method LoadHead(s: Segment, perm: Perm, ghost from: Space) returns (r: int, i: nat)
      requires WellFormed(s) && done == [] && space == ApplyAll(from, done, perm)
      modifies this
      ensures space == ApplyAll(from, done, perm) && done <= HeadCalls(s)
      ensures r == 0 ==> done == HeadCalls(s) && i == Head(s)
      ensures r != 0 ==> done == [] && HeadCalls(s) != [] && r == Answer()
    {
      var offset := s.va - s.va / BY2PG * BY2PG;
      assert offset == Offset(s);
      if offset == 0 { return 0, 0; }
      i := Min(s.filesz, BY2PG - offset);
      r := MapPage(s.va, offset, perm, s.bin[..i], from);
    }

    /** Step 1: what the file holds; `left` are the calls that were not made. */
    method LoadBody(s: Segment, start: nat, perm: Perm, ghost from: Space) returns (r: int, i: nat, ghost left: seq<Call>)
      requires WellFormed(s) && space == ApplyAll(from, done, perm)
      modifies this
      ensures space == ApplyAll(from, done, perm) && done + left == old(done) + BodyCalls(s, start)
      ensures r == 0 ==> left == [] && i == Reach(start, s.filesz)
      ensures r != 0 ==> left != [] && r == Answer()
    {
      i := start;
      left := BodyCalls(s, start);
      ghost var all, stop := done + left, Reach(start, s.filesz);
      while i < s.filesz
        invariant left == BodyCalls(s, i) && done + left == all
        invariant Reach(i, s.filesz) == stop && space == ApplyAll(from, done, perm)
      {
        ghost var was, rest := done, BodyCalls(s, i + BY2PG);
        r := LoadPage(s, i, perm, from);
        if r != 0 { return; }
        Shift(was, BodyCall(s, i), rest);
        left := rest;
        i := i + BY2PG;
      }
      r := 0;
    }

    method LoadPage(s: Segment, i: nat, perm: Perm, ghost from: Space) returns (r: int)
      requires WellFormed(s) && i < s.filesz && space == ApplyAll(from, done, perm)
      modifies this
      ensures space == ApplyAll(from, done, perm)
      ensures r == old(Answer()) && done == if r == 0 then old(done) + [BodyCall(s, i)] else old(done)
    {
      var len := Min(s.filesz - i, BY2PG);
      r := MapPage(s.va + i, 0, perm, s.bin[i..i + len], from);
    }

    /** Step 2: pages up to the size in memory. */
    method LoadZero(s: Segment, start: nat, perm: Perm, ghost from: Space) returns (r: int, ghost left: seq<Call>)
      requires space == ApplyAll(from, done, perm)
      modifies this
      ensures space == ApplyAll(from, done, perm) && done + left == old(done) + ZeroCalls(s, start)
      ensures r == 0 ==> left == []
      ensures r != 0 ==> left != [] && r == Answer()
    {
      var i := start;
      left := ZeroCalls(s, start);
      ghost var all := done + left;
      while i < s.memsz
        invariant left == ZeroCalls(s, i) && done + left == all
        invariant space == ApplyAll(from, done, perm)
      {
        r, left := ZeroTurn(s, i, perm, from, all);
        if r != 0 { return; }
        i := i + BY2PG;
      }
      r := 0;
    }

    method ZeroTurn(s: Segment, i: nat, perm: Perm, ghost from: Space, ghost all: seq<Call>) returns (r: int, ghost left: seq<Call>)
      requires space == ApplyAll(from, done, perm) && i < s.memsz && done + ZeroCalls(s, i) == all
      modifies this
      ensures space == ApplyAll(from, done, perm) && done + left == all
      ensures if r == 0 then left == ZeroCalls(s, i + BY2PG) else left != [] && r == Answer()
    {
      ghost var was, rest := done, ZeroCalls(s, i + BY2PG);
      r := MapPage(s.va + i, 0, perm, [], from);
      left := if r == 0 then rest else ZeroCalls(s, i);
      if r == 0 { Shift(was, Call(s.va + i, 0, []), rest); }
    }
  }

  lemma Shift<T>(xs: seq<T>, x: T, ys: seq<T>)
    ensures (xs + [x]) + ys == xs + ([x] + ys)
  {}

  lemma Prefix<T>(xs: seq<T>, ys: seq<T>, all: seq<T>, more: seq<T>)
    requires xs + ys == all
    ensures xs <= all + more && |all + more| == |xs| + |ys| + |more| && (ys == [] ==> xs == all)
  {}

  lemma {:induction false} ApplyLast(m: Space, cs: seq<Call>, c: Call, perm: Perm)
    ensures ApplyAll(m, cs + [c], perm) == Apply(ApplyAll(m, cs, perm), c, perm)
    decreases |cs|
  {
    if cs == [] {
      assert cs + [c] == [c];
    } else {
      assert (cs + [c])[1..] == cs[1..] + [c];
      ApplyLast(Apply(m, cs[0], perm), cs[1..], c, perm);
    }
  }
}
