/** Whole runs over the files of a disk, and what truncation gives back. */
module FsTheorems {
  import opened Common
  import opened Bits
  import opened Fs

  // ----- runs keep ownership

  datatype Op =
    | MapOp(f: nat, bno: nat, alloc: bool, rooms: (bool, bool))
    | GetOp(f: nat, bno: nat, rooms: (bool, bool))      // file_get_block
    | ClearOp(f: nat, bno: nat)
    | SizeOp(f: nat, size: nat)                         // file_set_size
    | WriteOp(f: nat, bno: nat, words: seq<nat>)        // a client writes a data block

  /** Data reaches a block only through a data slot. */
  function WriteData(d: Disk, f: nat, bno: nat, words: seq<nat>): Disk {
    var b := Value(d, DataSlot(f, bno));
    if b != 0 && b < |d.block| && |words| == NINDIRECT then d.(block := d.block[b := words]) else d
  }

  function Step(d: Disk, op: Op): Disk {
    match op
    case MapOp(f, bno, alloc, rooms) => Map(d, f, bno, alloc, rooms).0
    case GetOp(f, bno, rooms) => GetBlock(d, f, bno, rooms).0
    case ClearOp(f, bno) => ClearBlock(d, f, bno)
    case SizeOp(f, size) => SetSize(d, f, size)
    case WriteOp(f, bno, words) => WriteData(d, f, bno, words)
  }

  /** The file exists, and a block that becomes an indirect block is clean. */
  predicate Legal(d: Disk, op: Op) {
    && op.f < |d.file|
    && (op.MapOp? && Creates(d, op.f, op.bno, op.alloc) ==> CleanNext(d))
    && (op.GetOp? && Creates(d, op.f, op.bno, true) ==> CleanNext(d))
  }

  lemma WriteOwned(d: Disk, f: nat, bno: nat, words: seq<nat>)
    requires Owned(d)
    ensures Owned(WriteData(d, f, bno, words))
  {
    var d', o := WriteData(d, f, bno, words), DataSlot(f, bno);
    forall p: Slot ensures Value(d', p) == Value(d, p) {
      assert SlotOk(d, Indirect(p.f)) && Apart(d, o, Indirect(p.f));
    }
    forall p: Slot ensures SlotOk(d', p) { assert SlotOk(d, p); }
    forall p: Slot, q: Slot ensures Apart(d', p, q) { assert Apart(d, p, q); }
  }

  lemma SizeFieldOwned(d: Disk, f: nat, size: nat)
    requires Owned(d)
    ensures Owned(SetSizeField(d, f, size)) && |SetSizeField(d, f, size).file| == |d.file|
    ensures forall p: Slot :: Value(SetSizeField(d, f, size), p) == Value(d, p)
  {
    var d' := SetSizeField(d, f, size);
    forall p: Slot ensures Value(d', p) == Value(d, p) {}
    forall p: Slot ensures SlotOk(d', p) { assert SlotOk(d, p); }
    forall p: Slot, q: Slot ensures Apart(d', p, q) { assert Apart(d, p, q); }
  }

  // ----- truncation

  /** Slot p is among blocks [k, end) of file f. */
  predicate Within(p: Slot, f: nat, k: nat, end: nat) {
    p.f == f && !p.Indirect? && k <= p.i < end && p.i < NINDIRECT && p == DataSlot(f, p.i)
  }

  /** Block c is named by one of blocks [k, end) of file f. */
  ghost predicate Named(d: Disk, f: nat, k: nat, end: nat, c: nat) {
    c != 0 && exists p: Slot :: Within(p, f, k, end) && Value(d, p) == c
  }

  lemma {:induction false} ClearFromEffect(d: Disk, f: nat, k: nat, end: nat, p: Slot, c: nat)
    requires Owned(d) && f < |d.file|
    ensures var d' := ClearFrom(d, f, k, end);
      && Owned(d') && d'.n == d.n && d'.lo == d.lo && |d'.file| == |d.file|
      && (p.f < |d.file| ==> d'.file[p.f].indirect == d.file[p.f].indirect && d'.file[p.f].size == d.file[p.f].size)
      && Value(d', p) == (if Within(p, f, k, end) then 0 else Value(d, p))
      && (Free(d', c) <==> Free(d, c) || Named(d, f, k, end, c))
    decreases end - k
  {
    if k < end {
      var d1, o := ClearBlock(d, f, k), DataSlot(f, k);
      ClearOwned(d, f, k);
      ClearEffect(d, f, k, p, c);
      ClearFromEffect(d1, f, k + 1, end, p, c);
      NamedStep(d, f, k, end, c);
    }
  }

  lemma NamedStep(d: Disk, f: nat, k: nat, end: nat, c: nat)
    requires Owned(d) && f < |d.file| && k < end
    ensures Named(d, f, k, end, c) <==>
      Named(ClearBlock(d, f, k), f, k + 1, end, c) || (k < NINDIRECT && c != 0 && Value(d, DataSlot(f, k)) == c)
  {
    var d1, o := ClearBlock(d, f, k), DataSlot(f, k);
    if Named(d, f, k, end, c) {
      var p :| Within(p, f, k, end) && Value(d, p) == c;
      ClearEffect(d, f, k, p, c);
      if p != o { assert Within(p, f, k + 1, end) && Value(d1, p) == c; }
    }
    if Named(d1, f, k + 1, end, c) {
      var p :| Within(p, f, k + 1, end) && Value(d1, p) == c;
      ClearEffect(d, f, k, p, c);
      assert Within(p, f, k, end) && Value(d, p) == c;
    }
    if k < NINDIRECT && c != 0 && Value(d, o) == c {
      assert Within(o, f, k, end);
    }
  }

  /** The slots file_truncate empties. */
  predicate Cut(d: Disk, f: nat, size: nat, p: Slot) {
    Within(p, f, Keep(size), Span(d, f)) || (Keep(size) <= NDIRECT && p.f == f && !p.Direct?)
  }

  /** file_truncate empties blocks [Keep(size), Span) and, when no more than the direct slots stay, the
      whole indirect block; it frees exactly the blocks of the first kind and the indirect block itself,
      and leaves every other slot and bit alone. */
  lemma TruncateExact(d: Disk, f: nat, size: nat, p: Slot, c: nat)
    requires Owned(d) && f < |d.file|
    ensures var d' := Truncate(d, f, size);
      && Owned(d') && d'.n == d.n && d'.lo == d.lo && |d'.file| == |d.file| && d'.file[f].size == size
      && Value(d', p) == (if Cut(d, f, size, p) then 0 else Value(d, p))
      && (Free(d', c) <==> Free(d, c) || Named(d, f, Keep(size), Span(d, f), c)
                           || (Keep(size) <= NDIRECT && c != 0 && c == d.file[f].indirect))
  {
    var d1 := ClearFrom(d, f, Keep(size), Span(d, f));
    ClearFromEffect(d, f, Keep(size), Span(d, f), p, c);
    ClearFromEffect(d, f, Keep(size), Span(d, f), Indirect(f), c);
    var d2 := if Keep(size) <= NDIRECT then FreeIndirect(d1, f) else d1;
    UnlinkEffect(d1, f, p, c);
    UnlinkOwned(d1, f);
    SizeFieldOwned(d2, f, size);
  }

  /** Block b lies past the block the new size falls in, but not past the one the old size fell in. */
  predicate Lost(was: nat, size: nat, b: nat) {
    size < was && b <= was / BY2BLK && (size == 0 || b > size / BY2BLK)
  }

  /** file_set_size in terms of the contents: the size is recorded; growing changes no block; a shorter file
      keeps the blocks up to and including the one the new size falls in (none for size 0) and loses the
      rest; blocks past the old size stay, unless the indirect block goes with them; no other file changes. */
  lemma SizeExact(d: Disk, f: nat, size: nat, g: nat, pos: nat)
    requires Owned(d) && f < |d.file| && g < |d.file|
    ensures var d', o := SetSize(d, f, size), DataSlot(g, pos / BY2BLK);
      && |d'.file| == |d.file| && d'.file[g].size == (if g == f then size else d.file[g].size)
      && (g != f || size >= d.file[f].size || (size > 0 && pos / BY2BLK <= size / BY2BLK) ==> Value(d', o) == Value(d, o))
      && (g == f && Lost(d.file[f].size, size, pos / BY2BLK) ==> Value(d', o) == 0)
      && (pos / BY2BLK > d.file[f].size / BY2BLK && (pos / BY2BLK < NDIRECT || size / BY2BLK >= NDIRECT) ==> Value(d', o) == Value(d, o))
  {
    var o := DataSlot(g, pos / BY2BLK);
    if d.file[f].size > size {
      TruncateExact(d, f, size, o, 0);
      if g != f { TruncateOthers(d, f, size, g); }
    } else {
      SizeFieldOwned(d, f, size);
    }
  }

  lemma TruncateOthers(d: Disk, f: nat, size: nat, g: nat)
    requires Owned(d) && f < |d.file| && g < |d.file| && g != f
    ensures |Truncate(d, f, size).file| == |d.file| && Truncate(d, f, size).file[g].size == d.file[g].size
  {
    ClearFromEffect(d, f, Keep(size), Span(d, f), Indirect(g), 0);
  }

  lemma StepOwned(d: Disk, op: Op)
    requires Owned(d) && Legal(d, op)
    ensures Owned(Step(d, op))
  {
    match op
    case MapOp(f, bno, alloc, rooms) => MapOwned(d, f, bno, alloc, rooms);
    case GetOp(f, bno, rooms) =>
      MapOwned(d, f, bno, true, rooms);
      var (d1, r) := Map(d, f, bno, true, rooms);
      if r >= 0 { ReadOwned(d1, r); }
    case ClearOp(f, bno) => ClearOwned(d, f, bno);
    case SizeOp(f, size) =>
      TruncateExact(d, f, size, Indirect(f), 0);
      SizeFieldOwned(d, f, size);
    case WriteOp(f, bno, words) => WriteOwned(d, f, bno, words);
  }

  function Run(d: Disk, ops: seq<Op>): Disk
    decreases |ops|
  {
    if ops == [] then d else Run(Step(d, ops[0]), ops[1..])
  }

  predicate LegalRun(d: Disk, ops: seq<Op>)
    decreases |ops|
  {
    ops == [] || (Legal(d, ops[0]) && LegalRun(Step(d, ops[0]), ops[1..]))
  }

  /** Through every run over all files, including runs out of disk or memory, every block number held
      anywhere names a different block that is in use, so read_block never panics on one. */
  lemma {:induction false} RunOwned(d: Disk, ops: seq<Op>)
    requires Owned(d) && LegalRun(d, ops)
    ensures Owned(Run(d, ops))
    decreases |ops|
  {
    if ops != [] {
      StepOwned(d, ops[0]);
      RunOwned(Step(d, ops[0]), ops[1..]);
    }
  }

  // ----- blocks that nobody owns

  predicate OwnedBlock(d: Disk, b: nat, p: Slot) {
    Value(d, p) == b
  }

  /** Every data block in use is named by some slot. */
  ghost predicate NoLeak(d: Disk) {
    forall b: nat :: d.lo <= b < d.n && !Free(d, b) ==> exists p: Slot :: OwnedBlock(d, b, p)
  }

  /** A slot of the indirect block that truncation neither clears nor keeps. */
  predicate Orphan(d: Disk, f: nat, size: nat, p: Slot) {
    p.Entry? && Cut(d, f, size, p) && !Within(p, f, Keep(size), Span(d, f)) && Value(d, p) != 0
  }

  /** file_truncate walks only the blocks f_size spans, but drops the whole indirect block: a disk without
      leaks stays so exactly when the dropped indirect block held nothing past that span. */
  lemma TruncateLeakExact(d: Disk, f: nat, size: nat)
    requires Owned(d) && f < |d.file| && NoLeak(d)
    ensures NoLeak(Truncate(d, f, size)) <==> forall p: Slot :: !Orphan(d, f, size, p)
  {
    var d' := Truncate(d, f, size);
    if forall p: Slot :: !Orphan(d, f, size, p) {
      forall b: nat | d'.lo <= b < d'.n && !Free(d', b) ensures exists p: Slot :: OwnedBlock(d', b, p) {
        TruncateExact(d, f, size, Indirect(f), b);
        var p: Slot :| OwnedBlock(d, b, p);
        TruncateExact(d, f, size, p, b);
        assert !Orphan(d, f, size, p);
        assert OwnedBlock(d', b, p);
      }
    }
    forall p: Slot | Orphan(d, f, size, p) ensures !NoLeak(d') { OrphanLeaks(d, f, size, p); }
  }

  lemma OrphanLeaks(d: Disk, f: nat, size: nat, o: Slot)
    requires Owned(d) && f < |d.file| && Orphan(d, f, size, o)
    ensures !NoLeak(Truncate(d, f, size))
  {
    var d', b := Truncate(d, f, size), Value(d, o);
    TruncateExact(d, f, size, o, b);
    assert SlotOk(d, o) && Apart(d, o, Indirect(f));
    forall p: Slot | Within(p, f, Keep(size), Span(d, f)) ensures Value(d, p) != b {
      assert Apart(d, o, p);
    }
    forall p: Slot ensures !OwnedBlock(d', b, p) {
      TruncateExact(d, f, size, p, b);
      assert Apart(d, o, p);
    }
    assert !Free(d', b);
  }

  /** A stale cached block breaks ownership as soon as it becomes an indirect block: on a disk without
      leaks, creating the indirect block keeps ownership exactly when the block is clean. */
  lemma CreateExact(d: Disk, f: nat, bno: nat, room: bool)
    requires Owned(d) && NoLeak(d) && f < |d.file| && Creates(d, f, bno, true)
    requires Walk(d, f, bno, true, room).1 == 0
    ensures Owned(Walk(d, f, bno, true, room).0) <==> CleanNext(d)
  {
    if CleanNext(d) {
      WalkOwned(d, f, bno, true, room);
    } else {
      var b := FirstFree(d, 3);
      var i: nat :| NDIRECT <= i < NINDIRECT && WordAt(d, b, i) != 0;
      StaleBreaks(d, f, bno, room, i);
    }
  }

  lemma StaleBreaks(d: Disk, f: nat, bno: nat, room: bool, i: nat)
    requires Owned(d) && NoLeak(d) && f < |d.file| && Creates(d, f, bno, true)
    requires var b := FirstFree(d, 3); b < d.n && b in d.cached && NDIRECT <= i < NINDIRECT && WordAt(d, b, i) != 0
    ensures !Owned(Walk(d, f, bno, true, room).0)
  {
    var b := FirstFree(d, 3);
    var d1, x := Claimed(d, b), WordAt(d, b, i);
    var d', o := Walk(d, f, bno, true, room).0, Entry(f, i);
    ClaimEffect(d, Indirect(f), x);
    LinkEffect(d1, f, b, o);
    LinkEffect(d1, f, b, Indirect(f));
    assert Value(d', o) == x && d'.bitmap == d1.bitmap;
    if x == b {
      assert !Apart(d', o, Indirect(f));
    } else if d.lo <= x < d.n && !Free(d, x) {
      var p: Slot :| OwnedBlock(d, x, p);
      ClaimEffect(d, p, x);
      LinkEffect(d1, f, b, p);
      assert !Apart(d', o, p);
    } else {
      assert !SlotOk(d', o);
    }
  }

  // ----- runs that reach the failing cases

  /** A disk with one empty file, two or three free blocks, and only the bitmap block cached. */
  function FreshDisk(n: nat, free: Word): Disk {
    Disk(n, 3, [free], seq(n, _ => ZeroBlock()), {2}, [File(seq(NDIRECT, _ => 0), 0, 0)])
  }

  predicate Below(b: nat, n: nat) {
    b < n
  }

  lemma FreshOwned(n: nat, free: Word)
    requires 3 <= n <= 32 && forall b: nat :: b in free <==> 3 <= b && Below(b, n)
    ensures var d := FreshDisk(n, free); Owned(d) && NoLeak(d)
  {
    var d := FreshDisk(n, free);
    forall b: nat | b < 3 ensures !BitFree(d.n, d.bitmap, b) {}
    forall p: Slot ensures Value(d, p) == 0 {}
    forall p: Slot ensures SlotOk(d, p) {}
    forall p: Slot, q: Slot ensures Apart(d, p, q) {}
    forall b: nat | 3 <= b < n ensures Free(d, b) { assert Below(b, n); }
  }

  /** Claiming a block of a small disk that holds zeros. */
  lemma ClaimOne(d: Disk, b: nat)
    requires |d.bitmap| == 1 && b < 32 && b < |d.block| && b !in d.cached && d.block[b] == ZeroBlock()
    ensures Claimed(d, b) == d.(bitmap := [d.bitmap[0] - {b}], cached := d.cached + {b})
  {
    assert d.block[b := ZeroBlock()] == d.block;
  }

  lemma RunFirst(d: Disk, ops: seq<Op>)
    requires ops != []
    ensures Run(d, ops) == Run(Step(d, ops[0]), ops[1..])
    ensures LegalRun(d, ops) <==> Legal(d, ops[0]) && LegalRun(Step(d, ops[0]), ops[1..])
  {}

  /** A one-file disk: block 3 was a data block of the file, which has been truncated since; the block is
      still cached, and word 10 of it reads 4. */
  function StaleDisk(): Disk {
    FreshDisk(5, {3, 4}).(block := seq(5, _ => ZeroBlock())[3 := StaleWords()], cached := {2, 3})
  }

  function StaleWords(): (r: seq<nat>)
    ensures |r| == NINDIRECT
  {
    seq(NINDIRECT, i => if i == 10 then 4 else 0)
  }

  /** It is reached by mapping block 0, writing it, and setting the size to 1 and back to 0. */
  lemma StaleDiskReached()
    ensures var ops := [MapOp(0, 0, true, (true, true)), WriteOp(0, 0, StaleWords()), SizeOp(0, 1), SizeOp(0, 0)];
      LegalRun(FreshDisk(5, {3, 4}), ops) && Run(FreshDisk(5, {3, 4}), ops) == StaleDisk()
  {
    var ops := [MapOp(0, 0, true, (true, true)), WriteOp(0, 0, StaleWords()), SizeOp(0, 1), SizeOp(0, 0)];
    var d := FreshDisk(5, {3, 4});
    var file := d.file[0].(direct := d.file[0].direct[0 := 3]);
    assert FirstFree(d, 3) == 3;
    var d1 := Step(d, ops[0]);
    ClaimOne(d, 3);
    assert {3, 4} - {3} == {4} && {2} + {3} == {2, 3};
    assert d1 == d.(bitmap := [{4}], cached := {2, 3}, file := [file]);
    var d2 := Step(d1, ops[1]);
    assert d2 == d1.(block := d.block[3 := StaleWords()]);
    var d3 := Step(d2, ops[2]);
    assert d3 == d2.(file := [file.(size := 1)]);
    assert {4} + {3} == {3, 4} && file.direct[0 := 0] == d.file[0].direct;
    assert ClearBlock(d3, 0, 0) == StaleDisk().(file := [StaleDisk().file[0].(size := 1)]);
    assert Step(d3, ops[3]) == StaleDisk();
    RunFirst(d, ops);
    RunFirst(d1, ops[1..]);
    RunFirst(d2, ops[2..]);
    RunFirst(d3, ops[3..]);
  }

  lemma StaleDiskBreaks()
    ensures Owned(StaleDisk()) && NoLeak(StaleDisk())
    ensures !Owned(Map(StaleDisk(), 0, 10, true, (true, true)).0)
  {
    var d := StaleDisk();
    forall b: nat | b < 3 ensures !BitFree(d.n, d.bitmap, b) {}
    forall p: Slot ensures Value(d, p) == 0 {}
    forall p: Slot ensures SlotOk(d, p) {}
    forall p: Slot, q: Slot ensures Apart(d, p, q) {}
    forall b: nat | 3 <= b < 5 ensures Free(d, b) {}
    assert FirstFree(d, 3) == 3;
    StaleBreaks(d, 0, 10, true, 10);
    var d' := Walk(d, 0, 10, true, true).0;
    assert Value(d', Entry(0, 10)) == 4;
    assert Map(d, 0, 10, true, (true, true)).0 == d';
  }

  /** Mapping block 10 of an empty file, past its size, and then setting the size to 1 and back to 0 loses
      the block: truncation drops the indirect block without looking at that entry. */
  lemma TruncateLeakReached()
    ensures var d := FreshDisk(6, {3, 4, 5}); var ops := [MapOp(0, 10, true, (true, true)), SizeOp(0, 1), SizeOp(0, 0)];
      && Owned(d) && NoLeak(d) && LegalRun(d, ops)
      && NoLeak(Run(d, ops[..2])) && Owned(Run(d, ops)) && !NoLeak(Run(d, ops))
  {
    var d := FreshDisk(6, {3, 4, 5});
    FreshOwned(6, {3, 4, 5});
    PastLegal();
    LeakAfter(d, Step(d, MapOp(0, 10, true, (true, true))));
  }

  lemma LeakAfter(d: Disk, d1: Disk)
    requires d == FreshDisk(6, {3, 4, 5}) && Legal(d, MapOp(0, 10, true, (true, true)))
    requires d1 == Step(d, MapOp(0, 10, true, (true, true))) && Owned(d1)
    ensures var ops := [MapOp(0, 10, true, (true, true)), SizeOp(0, 1), SizeOp(0, 0)];
      LegalRun(d, ops) && NoLeak(Run(d, ops[..2])) && Owned(Run(d, ops)) && !NoLeak(Run(d, ops))
  {
    PastOrphan(d1);
    ThreeSteps(d, d1, Step(d1, SizeOp(0, 1)), [MapOp(0, 10, true, (true, true)), SizeOp(0, 1), SizeOp(0, 0)]);
  }

  lemma ThreeSteps(d: Disk, d1: Disk, d2: Disk, ops: seq<Op>)
    requires |ops| == 3 && Legal(d, ops[0]) && d1 == Step(d, ops[0]) && Legal(d1, ops[1]) && d2 == Step(d1, ops[1])
    requires Legal(d2, ops[2])
    ensures LegalRun(d, ops) && Run(d, ops[..2]) == d2 && Run(d, ops) == Step(d2, ops[2])
  {
    RunFirst(d, ops);
    RunFirst(d1, ops[1..]);
    RunFirst(d2, ops[2..]);
    RunFirst(d, ops[..2]);
    assert ops[..2][1..] == [ops[1]];
    RunFirst(d1, [ops[1]]);
  }

  lemma PastLegal()
    ensures var d, op := FreshDisk(6, {3, 4, 5}), MapOp(0, 10, true, (true, true)); Legal(d, op) && Owned(Step(d, op))
  {
    var d := FreshDisk(6, {3, 4, 5});
    FreshOwned(6, {3, 4, 5});
    assert FirstFree(d, 3) == 3;
    StepOwned(d, MapOp(0, 10, true, (true, true)));
  }

  lemma PastNoLeak(d: Disk)
    requires d.n == 6 && d.lo == 3 && d.bitmap == [{5}] && Value(d, Indirect(0)) == 3 && Value(d, Entry(0, 10)) == 4
    ensures NoLeak(d)
  {
    forall b: nat | 3 <= b < 6 && !Free(d, b) ensures exists p: Slot :: OwnedBlock(d, b, p) {
      assert OwnedBlock(d, 3, Indirect(0)) && OwnedBlock(d, 4, Entry(0, 10));
    }
  }

  lemma PastOrphan(d1: Disk)
    requires d1 == Step(FreshDisk(6, {3, 4, 5}), MapOp(0, 10, true, (true, true))) && Owned(d1)
    ensures var d2 := Step(d1, SizeOp(0, 1)); var d3 := Step(d2, SizeOp(0, 0));
      Legal(d1, SizeOp(0, 1)) && Legal(d2, SizeOp(0, 0)) && NoLeak(d2) && Owned(d3) && !NoLeak(d3)
  {
    MapPast();
    var d2 := Step(d1, SizeOp(0, 1));
    StepOwned(d1, SizeOp(0, 1));
    SizeFieldOwned(d1, 0, 1);
    PastNoLeak(d2);
    assert Orphan(d2, 0, 0, Entry(0, 10));
    TruncateLeakExact(d2, 0, 0);
    StepOwned(d2, SizeOp(0, 0));
  }

  /** Blocks 3 and 4 become the indirect block and the data block. */
  lemma MapPast()
    ensures var d1 := Step(FreshDisk(6, {3, 4, 5}), MapOp(0, 10, true, (true, true)));
      && d1.n == 6 && d1.lo == 3 && d1.bitmap == [{5}] && d1.file == [FreshDisk(6, {}).file[0].(indirect := 3)]
      && Value(d1, Entry(0, 10)) == 4
  {
    var d := FreshDisk(6, {3, 4, 5});
    assert FirstFree(d, 3) == 3;
    var d1 := Walk(d, 0, 10, true, true).0;
    ClaimOne(d, 3);
    assert {3, 4, 5} - {3} == {4, 5} && {2} + {3} == {2, 3} && {2, 3} + {3} == {2, 3};
    assert d1 == d.(bitmap := [{4, 5}], cached := {2, 3}, file := [d.file[0].(indirect := 3)]);
    assert FirstFree(d1, 3) == 4;
    ClaimOne(d1, 4);
    assert {4, 5} - {4} == {5};
  }

  // ----- growing a file and truncating it again

  /** Since d0, file f has taken exactly the blocks that are no longer free. */
  ghost predicate Account(d0: Disk, d: Disk, f: nat) {
    d.n == d0.n && d.lo == d0.lo && (forall c: nat :: AccountOf(d0, d, f, c)) && (forall p: Slot :: Foreign(d0, d, f, p))
  }

  ghost predicate AccountOf(d0: Disk, d: Disk, f: nat, c: nat) {
    Free(d0, c) <==> Free(d, c) || Holds(d, f, c)
  }

  ghost predicate Holds(d: Disk, f: nat, c: nat) {
    c != 0 && exists p: Slot :: p.f == f && OwnedBlock(d, c, p)
  }

  predicate Foreign(d0: Disk, d: Disk, f: nat, p: Slot) {
    p.f != f ==> Value(d, p) == Value(d0, p)
  }

  /** Between two disks only file f has changed, and it gained exactly block b, at slot o. */
  lemma GainAccount(d0: Disk, d: Disk, d': Disk, f: nat, o: Slot, b: nat)
    requires Account(d0, d, f) && d'.n == d.n && d'.lo == d.lo && o.f == f && b != 0
    requires Free(d, b) && Value(d, o) == 0
    requires forall c: nat :: Free(d', c) <==> Free(d, c) && c != b
    requires forall p: Slot :: Value(d', p) == if p == o then b else Value(d, p)
    ensures Account(d0, d', f)
  {
    forall c: nat ensures AccountOf(d0, d', f, c) {
      assert AccountOf(d0, d, f, c);
      if Holds(d, f, c) {
        var p: Slot :| p.f == f && OwnedBlock(d, c, p);
        assert OwnedBlock(d', c, p);
      }
      if Holds(d', f, c) && c != b {
        var p: Slot :| p.f == f && OwnedBlock(d', c, p);
        assert OwnedBlock(d, c, p);
      }
      assert OwnedBlock(d', b, o);
    }
    forall p: Slot ensures Foreign(d0, d', f, p) { assert Foreign(d0, d, f, p); }
  }

  lemma WalkAccount(d0: Disk, d: Disk, f: nat, bno: nat, alloc: bool, room: bool)
    requires Owned(d) && f < |d.file| && (Creates(d, f, bno, alloc) ==> CleanNext(d)) && Account(d0, d, f)
    ensures Account(d0, Walk(d, f, bno, alloc, room).0, f)
    ensures Walk(d, f, bno, alloc, room).0.file[f].size == d.file[f].size
  {
    var b := FirstFree(d, 3);
    if Creates(d, f, bno, alloc) && b < d.n && (b in d.cached || room) {
      var d1, d' := Claimed(d, b), Walk(d, f, bno, alloc, room).0;
      ClaimEffect(d, Indirect(f), b);
      ClaimClean(d);
      forall c: nat ensures Free(d', c) <==> Free(d, c) && c != b { ClaimEffect(d, Indirect(f), c); LinkEffect(d1, f, b, Indirect(f)); }
      forall p: Slot ensures Value(d', p) == if p == Indirect(f) then b else Value(d, p) {
        ClaimEffect(d, p, b);
        LinkEffect(d1, f, b, p);
      }
      GainAccount(d0, d, d', f, Indirect(f), b);
    } else {
      SameAccount(d0, d, Walk(d, f, bno, alloc, room).0, f);
    }
  }

  lemma SameAccount(d0: Disk, d: Disk, d': Disk, f: nat)
    requires Account(d0, d, f) && d'.n == d.n && d'.lo == d.lo && d'.bitmap == d.bitmap
    requires forall p: Slot :: Value(d', p) == Value(d, p)
    ensures Account(d0, d', f)
  {
    forall c: nat ensures AccountOf(d0, d', f, c) {
      assert AccountOf(d0, d, f, c);
      if Holds(d, f, c) { var p: Slot :| p.f == f && OwnedBlock(d, c, p); assert OwnedBlock(d', c, p); }
      if Holds(d', f, c) { var p: Slot :| p.f == f && OwnedBlock(d', c, p); assert OwnedBlock(d, c, p); }
    }
    forall p: Slot ensures Foreign(d0, d', f, p) { assert Foreign(d0, d, f, p); }
  }

  lemma MapAccount(d0: Disk, d: Disk, f: nat, bno: nat, alloc: bool, rooms: (bool, bool))
    requires Owned(d) && f < |d.file| && (Creates(d, f, bno, alloc) ==> CleanNext(d)) && Account(d0, d, f)
    ensures Account(d0, Map(d, f, bno, alloc, rooms).0, f)
    ensures Map(d, f, bno, alloc, rooms).0.file[f].size == d.file[f].size
  {
    WalkOwned(d, f, bno, alloc, rooms.0);
    WalkAccount(d0, d, f, bno, alloc, rooms.0);
    var (d1, r) := Walk(d, f, bno, alloc, rooms.0);
    var o, b, d' := DataSlot(f, bno), FirstFree(d1, 3), Map(d, f, bno, alloc, rooms).0;
    if r == 0 && Value(d1, o) == 0 && alloc && b < d1.n && (b in d1.cached || rooms.1) {
      var d2 := Claimed(d1, b);
      ClaimOwned(d1);
      ClaimEffect(d1, o, b);
      SetSlotEffect(d2, o, b, o);
      forall c: nat ensures Free(d', c) <==> Free(d1, c) && c != b { ClaimEffect(d1, o, c); }
      forall p: Slot ensures Value(d', p) == if p == o then b else Value(d1, p) {
        ClaimEffect(d1, p, b);
        SetSlotEffect(d2, o, b, p);
      }
      GainAccount(d0, d1, d', f, o, b);
    }
  }

  lemma WalkSlots(d: Disk, f: nat, bno: nat, alloc: bool, room: bool, p: Slot)
    requires Owned(d) && f < |d.file| && (Creates(d, f, bno, alloc) ==> CleanNext(d))
    ensures !p.Indirect? ==> Value(Walk(d, f, bno, alloc, room).0, p) == Value(d, p)
  {
    var b := FirstFree(d, 3);
    if Creates(d, f, bno, alloc) && b < d.n && (b in d.cached || room) {
      ClaimEffect(d, p, b);
      ClaimEffect(d, Indirect(f), b);
      ClaimClean(d);
      LinkEffect(Claimed(d, b), f, b, p);
    }
  }

  /** file_map_block in full: on success slot bno holds the block returned, which is the one it held if
      it held any; no other data slot ever changes, and none at all on an error. */
  lemma MapExact(d: Disk, f: nat, bno: nat, alloc: bool, rooms: (bool, bool), p: Slot)
    requires Owned(d) && f < |d.file| && (Creates(d, f, bno, alloc) ==> CleanNext(d))
    ensures var (d', r) := Map(d, f, bno, alloc, rooms); var o := DataSlot(f, bno);
      && (r >= 0 ==> Value(d', o) == r != 0 && bno < NINDIRECT && (Value(d, o) != 0 ==> r == Value(d, o)))
      && (r < 0 ==> Value(d, o) == 0 || bno >= NINDIRECT)
      && (r == -E_INVAL <==> bno >= NINDIRECT)
      && (!p.Indirect? && (p != o || r < 0) ==> Value(d', p) == Value(d, p))
  {
    WalkOwned(d, f, bno, alloc, rooms.0);
    WalkSlots(d, f, bno, alloc, rooms.0, p);
    WalkSlots(d, f, bno, alloc, rooms.0, DataSlot(f, bno));
    MapWalked(d, f, bno, alloc, rooms, p);
  }

  lemma MapWalked(d: Disk, f: nat, bno: nat, alloc: bool, rooms: (bool, bool), p: Slot)
    requires Owned(d) && f < |d.file| && (Creates(d, f, bno, alloc) ==> CleanNext(d))
    ensures var (d1, r1) := Walk(d, f, bno, alloc, rooms.0); var (d', r) := Map(d, f, bno, alloc, rooms);
      var o := DataSlot(f, bno);
      && (r1 < 0 ==> d' == d1 && r == r1)
      && (r1 == 0 && r >= 0 ==> Value(d', o) == r != 0 && (Value(d1, o) != 0 ==> r == Value(d1, o)))
      && (r1 == 0 && r < 0 ==> Value(d1, o) == 0 && r != -E_INVAL && Value(d', p) == Value(d1, p))
      && (p != o ==> Value(d', p) == Value(d1, p))
  {
    WalkOwned(d, f, bno, alloc, rooms.0);
    var (d1, r) := Walk(d, f, bno, alloc, rooms.0);
    var b1, o := FirstFree(d1, 3), DataSlot(f, bno);
    if r == 0 && Value(d1, o) == 0 && alloc && b1 < d1.n && (b1 in d1.cached || rooms.1) {
      ClaimOwned(d1);
      ClaimEffect(d1, p, b1);
      ClaimEffect(d1, o, b1);
      SetSlotEffect(Claimed(d1, b1), o, b1, p);
      SetSlotEffect(Claimed(d1, b1), o, b1, o);
    }
  }

  /** Every set data slot of f lies within the span of its size. */
  ghost predicate Covered(d: Disk, f: nat) {
    forall p: Slot :: CoveredSlot(d, f, p)
  }

  predicate CoveredSlot(d: Disk, f: nat, p: Slot) {
    p.f == f && !p.Indirect? && Value(d, p) != 0 ==> p.i < Span(d, f)
  }

  /** Steps that grow file f: mapping or reading a block within its size, or raising the size. */
  predicate Grows(d: Disk, f: nat, op: Op) {
    op.f == f && Legal(d, op)
    && (((op.MapOp? || op.GetOp?) && op.bno < Span(d, f)) || (op.SizeOp? && op.size >= d.file[f].size))
  }

  predicate GrowRun(d: Disk, f: nat, ops: seq<Op>)
    decreases |ops|
  {
    ops == [] || (Grows(d, f, ops[0]) && GrowRun(Step(d, ops[0]), f, ops[1..]))
  }

  lemma GrowMap(d0: Disk, d: Disk, f: nat, bno: nat, alloc: bool, rooms: (bool, bool))
    requires Owned(d) && f < |d.file| && Account(d0, d, f) && Covered(d, f) && bno < Span(d, f)
    requires Creates(d, f, bno, alloc) ==> CleanNext(d)
    ensures var d' := Map(d, f, bno, alloc, rooms).0; Owned(d') && |d'.file| == |d.file| && Account(d0, d', f) && Covered(d', f)
  {
    var d' := Map(d, f, bno, alloc, rooms).0;
    MapOwned(d, f, bno, alloc, rooms);
    MapAccount(d0, d, f, bno, alloc, rooms);
    forall p: Slot ensures CoveredSlot(d', f, p) {
      MapExact(d, f, bno, alloc, rooms, p);
      assert CoveredSlot(d, f, p);
    }
  }

  lemma GrowStep(d0: Disk, d: Disk, f: nat, op: Op)
    requires Owned(d) && f < |d.file| && Account(d0, d, f) && Covered(d, f) && Grows(d, f, op)
    ensures var d' := Step(d, op); Owned(d') && |d'.file| == |d.file| && Account(d0, d', f) && Covered(d', f)
  {
    var d' := Step(d, op);
    if op.MapOp? {
      GrowMap(d0, d, f, op.bno, op.alloc, op.rooms);
    } else if op.GetOp? {
      var (d1, r) := Map(d, f, op.bno, true, op.rooms);
      MapOwned(d, f, op.bno, true, op.rooms);
      GrowMap(d0, d, f, op.bno, true, op.rooms);
      if r >= 0 {
        ReadOwned(d1, r);
        SameAccount(d0, d1, d', f);
        forall p: Slot ensures CoveredSlot(d', f, p) { assert CoveredSlot(d1, f, p); }
      }
    } else {
      SizeFieldOwned(d, f, op.size);
      SameAccount(d0, d, d', f);
      forall p: Slot ensures CoveredSlot(d', f, p) {
        assert CoveredSlot(d, f, p);
        assert d'.file[f].size / BY2BLK >= d.file[f].size / BY2BLK;
      }
    }
  }

  lemma {:induction false} GrowRunKeeps(d0: Disk, d: Disk, f: nat, ops: seq<Op>)
    requires Owned(d) && f < |d.file| && Account(d0, d, f) && Covered(d, f) && GrowRun(d, f, ops)
    ensures var d' := Run(d, ops); Owned(d') && |d'.file| == |d.file| && Account(d0, d', f) && Covered(d', f)
    decreases |ops|
  {
    if ops != [] {
      GrowStep(d0, d, f, ops[0]);
      GrowRunKeeps(d0, Step(d, ops[0]), f, ops[1..]);
    }
  }

  predicate EmptyFile(d: Disk, f: nat, p: Slot) {
    p.f == f ==> Value(d, p) == 0
  }

  /** A file that has grown from nothing by any mappings within its size, and is then set to size 0, gives
      every block back and keeps no slot, f_indirect included; no other file has moved.  A file whose size
      is already 0 is not truncated, so its block 0 would stay. */
  lemma GrowThenTruncate(d: Disk, f: nat, ops: seq<Op>)
    requires Owned(d) && f < |d.file| && (forall p: Slot :: EmptyFile(d, f, p)) && GrowRun(d, f, ops)
    ensures var d1 := Run(d, ops); var d' := SetSize(d1, f, 0);
      && Owned(d') && f < |d1.file|
      && (d1.file[f].size > 0 ==> (forall p: Slot :: EmptyFile(d', f, p)) && (forall c: nat :: Free(d', c) <==> Free(d, c)))
      && (d1.file[f].size == 0 ==> forall p: Slot :: Value(d', p) == Value(d1, p))
      && (forall p: Slot :: Foreign(d, d', f, p))
  {
    forall c: nat ensures AccountOf(d, d, f, c) {
      forall p: Slot ensures !(c != 0 && p.f == f && OwnedBlock(d, c, p)) { assert EmptyFile(d, f, p); }
    }
    forall p: Slot ensures CoveredSlot(d, f, p) && Foreign(d, d, f, p) { assert EmptyFile(d, f, p); }
    GrowRunKeeps(d, d, f, ops);
    var d1 := Run(d, ops);
    SizeFieldOwned(d1, f, 0);
    if d1.file[f].size > 0 {
      TruncateGives(d, d1, f);
    } else {
      forall p: Slot ensures Foreign(d, SetSize(d1, f, 0), f, p) { assert Foreign(d, d1, f, p); }
    }
  }

  lemma TruncateGives(d0: Disk, d: Disk, f: nat)
    requires Owned(d) && f < |d.file| && Account(d0, d, f) && Covered(d, f)
    ensures var d' := Truncate(d, f, 0);
      && Owned(d') && (forall p: Slot :: EmptyFile(d', f, p)) && (forall c: nat :: Free(d', c) <==> Free(d0, c))
      && (forall p: Slot :: Foreign(d0, d', f, p))
  {
    var d' := Truncate(d, f, 0);
    TruncateExact(d, f, 0, Indirect(f), 0);
    forall p: Slot ensures EmptyFile(d', f, p) && Foreign(d0, d', f, p) {
      TruncateExact(d, f, 0, p, 0);
      DataWithin(d, f, p);
      assert Foreign(d0, d, f, p);
    }
    forall c: nat ensures Free(d', c) <==> Free(d0, c) {
      TruncateExact(d, f, 0, Indirect(f), c);
      assert AccountOf(d0, d, f, c);
      if Holds(d, f, c) {
        var p: Slot :| p.f == f && OwnedBlock(d, c, p);
        DataWithin(d, f, p);
      }
      if Named(d, f, 0, Span(d, f), c) {
        var p :| Within(p, f, 0, Span(d, f)) && Value(d, p) == c;
        assert OwnedBlock(d, c, p);
      }
      assert c != 0 && c == d.file[f].indirect ==> OwnedBlock(d, c, Indirect(f));
    }
  }

  lemma DataWithin(d: Disk, f: nat, p: Slot)
    requires Owned(d) && f < |d.file| && Covered(d, f)
    ensures p.f == f && Value(d, p) != 0 ==> p == Indirect(f) || Within(p, f, 0, Span(d, f))
  {
    assert CoveredSlot(d, f, p);
  }
}
