/** What data blocks hold: no operation on the block maps changes a word of a file's data. */
module FsData {
  import opened Common
  import opened Bits
  import opened Fs
  import opened FsTheorems

  /** Block c is no file's indirect block. */
  ghost predicate DataOnly(d: Disk, c: nat) {
    forall f: nat :: NotIndirect(d, c, f)
  }

  predicate NotIndirect(d: Disk, c: nat, f: nat) {
    c == 0 || Value(d, Indirect(f)) != c
  }

  /** The words of block c are the same, and it still is no indirect block. */
  ghost predicate DataSame(d: Disk, d': Disk, c: nat) {
    |d'.block| == |d.block| && (c < |d.block| ==> d'.block[c] == d.block[c]) && DataOnly(d', c)
  }

  lemma ClaimData(d: Disk, c: nat)
    requires Owned(d) && DataOnly(d, c) && !Free(d, c) && FirstFree(d, 3) < d.n
    ensures var d' := Claimed(d, FirstFree(d, 3)); DataSame(d, d', c) && !Free(d', c)
  {
    var b := FirstFree(d, 3);
    ClaimEffect(d, Indirect(0), c);
    forall f: nat ensures NotIndirect(Claimed(d, b), c, f) { assert NotIndirect(d, c, f); }
  }

  lemma StoreData(d: Disk, o: Slot, x: nat, c: nat)
    requires Owned(d) && DataOnly(d, c) && GoodSlot(d, o) && (o.Indirect? ==> x != c || c == 0)
    ensures DataSame(d, SetSlot(d, o, x), c)
  {
    assert NotIndirect(d, c, o.f);
    forall f: nat ensures NotIndirect(SetSlot(d, o, x), c, f) { assert NotIndirect(d, c, f); }
  }

  lemma WalkData(d: Disk, f: nat, bno: nat, alloc: bool, room: bool, c: nat)
    requires Owned(d) && f < |d.file| && (Creates(d, f, bno, alloc) ==> CleanNext(d)) && DataOnly(d, c) && !Free(d, c)
    ensures var d' := Walk(d, f, bno, alloc, room).0; DataSame(d, d', c) && !Free(d', c)
  {
    var b := FirstFree(d, 3);
    if Creates(d, f, bno, alloc) && b < d.n && (b in d.cached || room) {
      var d1 := Claimed(d, b);
      ClaimOwned(d);
      ClaimData(d, c);
      StoreData(d1, Indirect(f), b, c);
      Restored(d, SetSlot(d1, Indirect(f), b), Walk(d, f, bno, alloc, room).0, c);
    } else {
      Restored(d, d, Walk(d, f, bno, alloc, room).0, c);
    }
  }

  /** Reading a block into the cache changes nothing that counts. */
  lemma Restored(d: Disk, d1: Disk, d2: Disk, c: nat)
    requires DataOnly(d1, c) && d2 == d1.(cached := d2.cached)
    ensures DataOnly(d2, c)
  {
    forall f: nat ensures NotIndirect(d2, c, f) { assert NotIndirect(d1, c, f); }
  }

  lemma MapData(d: Disk, f: nat, bno: nat, alloc: bool, rooms: (bool, bool), c: nat)
    requires Owned(d) && f < |d.file| && (Creates(d, f, bno, alloc) ==> CleanNext(d)) && DataOnly(d, c) && !Free(d, c)
    ensures var d' := Map(d, f, bno, alloc, rooms).0; DataSame(d, d', c)
  {
    WalkOwned(d, f, bno, alloc, rooms.0);
    WalkData(d, f, bno, alloc, rooms.0, c);
    var (d1, r1) := Walk(d, f, bno, alloc, rooms.0);
    var o, b := DataSlot(f, bno), FirstFree(d1, 3);
    if r1 == 0 && Value(d1, o) == 0 && alloc && b < d1.n && (b in d1.cached || rooms.1) {
      ClaimOwned(d1);
      ClaimData(d1, c);
      ClaimEffect(d1, o, b);
      StoreData(Claimed(d1, b), o, b, c);
    }
  }

  lemma ClearData(d: Disk, f: nat, bno: nat, c: nat)
    requires Owned(d) && f < |d.file| && DataOnly(d, c)
    ensures DataSame(d, ClearBlock(d, f, bno), c)
  {
    WalkOwned(d, f, bno, false, false);
    var (d1, r) := Walk(d, f, bno, false, false);
    var o := DataSlot(f, bno);
    Restored(d, d, d1, c);
    if r == 0 && Value(d1, o) != 0 {
      assert SlotOk(d1, o);
      FreeEffect(d1, Value(d1, o), o);
      EmptyData(d1, o, c);
    }
  }

  lemma EmptyData(d: Disk, o: Slot, c: nat)
    requires Owned(d) && GoodSlot(d, o) && !o.Indirect? && Value(d, o) != 0 && DataOnly(d, c)
    ensures DataSame(d, EmptySlot(d, o), c)
  {
    assert NotIndirect(d, c, o.f) && SlotOk(d, o) && SlotOk(d, Indirect(o.f));
    forall f: nat ensures NotIndirect(EmptySlot(d, o), c, f) { assert NotIndirect(d, c, f); }
  }

  lemma {:induction false} ClearFromData(d: Disk, f: nat, k: nat, end: nat, c: nat)
    requires Owned(d) && f < |d.file| && DataOnly(d, c)
    ensures DataSame(d, ClearFrom(d, f, k, end), c)
    decreases end - k
  {
    if k < end {
      ClearOwned(d, f, k);
      ClearEffect(d, f, k, Indirect(f), 0);
      ClearData(d, f, k, c);
      ClearFromData(ClearBlock(d, f, k), f, k + 1, end, c);
    }
  }

  lemma SizeData(d: Disk, f: nat, size: nat, c: nat)
    requires Owned(d) && f < |d.file| && DataOnly(d, c)
    ensures DataSame(d, SetSize(d, f, size), c)
  {
    if d.file[f].size > size {
      var d1 := ClearFrom(d, f, Keep(size), Span(d, f));
      ClearFromData(d, f, Keep(size), Span(d, f), c);
      forall g: nat ensures NotIndirect(SetSize(d, f, size), c, g) { assert NotIndirect(d1, c, g); }
    } else {
      forall g: nat ensures NotIndirect(SetSize(d, f, size), c, g) { assert NotIndirect(d, c, g); }
    }
  }

  /** The data of a file stays what it is while any file is mapped, cleared, resized, or written to at another
      block; a write puts exactly the given words there. */
  lemma DataKept(d: Disk, op: Op, p: Slot)
    requires Owned(d) && Legal(d, op) && !p.Indirect? && Value(d, p) != 0
    ensures var d', c := Step(d, op), Value(d, p);
      && c < |d.block| == |d'.block|
      && d'.block[c] == if op.WriteOp? && DataSlot(op.f, op.bno) == p && |op.words| == NINDIRECT then op.words else d.block[c]
  {
    var c := Value(d, p);
    assert SlotOk(d, p);
    forall f: nat ensures NotIndirect(d, c, f) { assert Apart(d, p, Indirect(f)); }
    match op
    case MapOp(f, bno, alloc, rooms) => MapData(d, f, bno, alloc, rooms, c);
    case GetOp(f, bno, rooms) => MapData(d, f, bno, true, rooms, c);
    case ClearOp(f, bno) => ClearData(d, f, bno, c);
    case SizeOp(f, size) => SizeData(d, f, size, c);
    case WriteOp(f, bno, words) => assert Apart(d, DataSlot(f, bno), p);
  }
}
