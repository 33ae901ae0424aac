/** Block maps and the free-block bitmap of the file server (fs/fs.c). */
module Fs {
  import opened Common
  import opened Bits

  const NDIRECT := 10
  const NINDIRECT := 1024
  const BY2BLK := 4096
  const FILE2BLK := 16
  const MAXNAMELEN := 128
  const BIT2BLK := 8 * BY2BLK
  const FTYPE_REG := 0
  const FTYPE_DIR := 1

  /** struct File, without its name. */
  datatype File = File(direct: seq<nat>, indirect: nat, size: nat)

  /** The size of the disk, its first data block, the bitmap (a bit is 1 when its block is free), the blocks
      as the cache shows them, which blocks are cached, and the files. */
  datatype Disk = Disk(n: nat, lo: nat, bitmap: seq<Word>, block: seq<seq<nat>>, cached: set<nat>, file: seq<File>)

  /** A place that holds a block number: f_direct[i], f_indirect, or word i of the indirect block. */
  datatype Slot = Direct(f: nat, i: nat) | Indirect(f: nat) | Entry(f: nat, i: nat)

  function FileAt(d: Disk, f: nat): File {
    if f < |d.file| then d.file[f] else File([], 0, 0)
  }

  function WordAt(d: Disk, b: nat, i: nat): nat {
    if b < |d.block| && i < |d.block[b]| then d.block[b][i] else 0
  }

  function Value(d: Disk, o: Slot): nat {
    match o
    case Direct(f, i) => if i < |FileAt(d, f).direct| then FileAt(d, f).direct[i] else 0
    case Indirect(f) => FileAt(d, f).indirect
    case Entry(f, i) =>
      if FileAt(d, f).indirect == 0 || i < NDIRECT then 0 else WordAt(d, FileAt(d, f).indirect, i)
  }

  /** The slot of block bno of file f. */
  function DataSlot(f: nat, bno: nat): Slot {
    if bno < NDIRECT then Direct(f, bno) else Entry(f, bno)
  }

  /** struct File number c is one of those in block i of directory x: the structs of block b are numbered
      1 + 16 * b onwards, and 0 is the root directory in the super block. */
  predicate ListedAt(d: Disk, x: nat, i: nat, c: nat) {
    c > 0 && i < FileAt(d, x).size / BY2BLK && Value(d, DataSlot(x, i)) == (c - 1) / FILE2BLK
  }

  predicate BitFree(n: nat, bitmap: seq<Word>, b: nat) {
    b < n && In(bitmap, b)
  }

  /** block_is_free */
  predicate Free(d: Disk, b: nat) {
    BitFree(d.n, d.bitmap, b)
  }

  // ----- bitmap and cache

  /** How many blocks the bitmap takes. */
  function BitBlocks(n: nat): nat {
    n / BIT2BLK + if n % BIT2BLK != 0 then 1 else 0
  }

  /** free_block */
  function FreeBlock(d: Disk, b: nat): Disk {
    if b == 0 || b >= d.n || b >= 32 * |d.bitmap| then d else d.(bitmap := Set(d.bitmap, b))
  }

  function FirstFree(d: Disk, b: nat): (r: nat)
    ensures b <= d.n ==> b <= r <= d.n
    ensures r < d.n ==> Free(d, r)
    ensures forall c :: b <= c < r ==> !Free(d, c)
    decreases d.n - b
  {
    if b >= d.n || Free(d, b) then b else FirstFree(d, b + 1)
  }

  function ZeroBlock(): (r: seq<nat>)
    ensures |r| == NINDIRECT && forall i :: 0 <= i < |r| ==> r[i] == 0
  {
    seq(NINDIRECT, _ => 0)
  }

  /** map_block: a block that is cached already keeps the contents the cache has. */
  function MapBlock(d: Disk, b: nat): Disk {
    if b in d.cached || b >= |d.block| then d
    else d.(cached := d.cached + {b}, block := d.block[b := ZeroBlock()])
  }

  /** The first free block was claimed and mapped. */
  function Claimed(d: Disk, b: nat): Disk {
    if b >= 32 * |d.bitmap| then d else MapBlock(d.(bitmap := Clear(d.bitmap, b)), b)
  }

  /** alloc_block; `room` says whether the kernel can give a page for the cache. */
  function AllocBlock(d: Disk, room: bool): (Disk, int) {
    var b := FirstFree(d, 3);
    if b >= d.n then (d, -E_NO_DISK)
    else if b !in d.cached && !room then (d, -E_NO_MEM)
    else (Claimed(d, b), b)
  }

  /** read_block of a block in use: afterwards the cache holds it. */
  function ReadBlock(d: Disk, b: nat): Disk {
    d.(cached := d.cached + {b})
  }

  // ----- slots

  function PutFile(d: Disk, f: nat, x: File): Disk {
    if f < |d.file| then d.(file := d.file[f := x]) else d
  }

  /** Store through the pointer file_block_walk returned. */
  function SetSlot(d: Disk, o: Slot, x: nat): Disk {
    match o
    case Direct(f, i) =>
      var y := FileAt(d, f);
      if i < |y.direct| then PutFile(d, f, y.(direct := y.direct[i := x])) else d
    case Indirect(f) => PutFile(d, f, FileAt(d, f).(indirect := x))
    case Entry(f, i) =>
      var b := FileAt(d, f).indirect;
      if b < |d.block| && i < |d.block[b]| then
        var words: seq<nat> := d.block[b][i := x];
        d.(block := d.block[b := words])
      else d
  }

  /** file_block_walk, whose slot is DataSlot(f, bno) when the code is 0. */
  function Walk(d: Disk, f: nat, bno: nat, alloc: bool, room: bool): (Disk, int) {
    if bno < NDIRECT then (d, 0)
    else if bno >= NINDIRECT then (d, -E_INVAL)
    else if FileAt(d, f).indirect != 0 then (ReadBlock(d, FileAt(d, f).indirect), 0)
    else if !alloc then (d, -E_NOT_FOUND)
    else
      var (d1, r) := AllocBlock(d, room);
      if r < 0 then (d1, r) else (ReadBlock(SetSlot(d1, Indirect(f), r), r), 0)
  }

  /** file_map_block; `rooms` answers for the indirect block and for the data block. */
  function Map(d: Disk, f: nat, bno: nat, alloc: bool, rooms: (bool, bool)): (Disk, int) {
    var (d1, r) := Walk(d, f, bno, alloc, rooms.0);
    if r < 0 then (d1, r)
    else if Value(d1, DataSlot(f, bno)) != 0 then (d1, Value(d1, DataSlot(f, bno)))
    else if !alloc then (d1, -E_NOT_FOUND)
    else
      var (d2, r2) := AllocBlock(d1, rooms.1);
      if r2 < 0 then (d2, r2) else (SetSlot(d2, DataSlot(f, bno), r2), r2)
  }

  /** file_get_block */
  function GetBlock(d: Disk, f: nat, bno: nat, rooms: (bool, bool)): (Disk, int) {
    var (d1, r) := Map(d, f, bno, true, rooms);
    if r < 0 then (d1, r) else (ReadBlock(d1, r), 0)
  }

  function EmptySlot(d: Disk, o: Slot): Disk {
    if Value(d, o) == 0 then d else SetSlot(FreeBlock(d, Value(d, o)), o, 0)
  }

  /** file_clear_block */
  function ClearBlock(d: Disk, f: nat, bno: nat): Disk {
    var (d1, r) := Walk(d, f, bno, false, false);
    if r < 0 then d1 else EmptySlot(d1, DataSlot(f, bno))
  }

  function ClearFrom(d: Disk, f: nat, bno: nat, end: nat): Disk
    decreases end - bno
  {
    if bno >= end then d else ClearFrom(ClearBlock(d, f, bno), f, bno + 1, end)
  }

  function FreeIndirect(d: Disk, f: nat): Disk {
    if FileAt(d, f).indirect == 0 then d else SetSlot(FreeBlock(d, FileAt(d, f).indirect), Indirect(f), 0)
  }

  /** The number of blocks file_truncate keeps. */
  function Keep(size: nat): nat {
    if size == 0 then 0 else size / BY2BLK + 1
  }

  /** The number of blocks file_truncate thinks the file has. */
  function Span(d: Disk, f: nat): nat {
    FileAt(d, f).size / BY2BLK + 1
  }

  function SetSizeField(d: Disk, f: nat, size: nat): Disk {
    PutFile(d, f, FileAt(d, f).(size := size))
  }

  /** file_truncate */
  function Truncate(d: Disk, f: nat, size: nat): Disk {
    var d1 := ClearFrom(d, f, Keep(size), Span(d, f));
    SetSizeField(if Keep(size) <= NDIRECT then FreeIndirect(d1, f) else d1, f, size)
  }

  /** file_set_size, without the flush of the directory. */
  function SetSize(d: Disk, f: nat, size: nat): Disk {
    if FileAt(d, f).size > size then Truncate(d, f, size) else SetSizeField(d, f, size)
  }

  // ----- who owns which block

  predicate Shape(d: Disk) {
    && |d.block| == d.n <= 32 * |d.bitmap| && d.lo >= 3
    && (forall b: nat :: b < d.lo ==> !BitFree(d.n, d.bitmap, b))
    && (forall b :: 0 <= b < |d.block| ==> |d.block[b]| == NINDIRECT)
    && (forall f :: 0 <= f < |d.file| ==> |d.file[f].direct| == NDIRECT)
  }

  predicate SlotOk(d: Disk, o: Slot) {
    Value(d, o) != 0 ==> d.lo <= Value(d, o) < d.n && !Free(d, Value(d, o))
  }

  predicate Apart(d: Disk, o: Slot, p: Slot) {
    o != p && Value(d, o) != 0 ==> Value(d, o) != Value(d, p)
  }

  /** Every block number in use names a block in use, and no block is named twice. */
  ghost predicate Owned(d: Disk) {
    Shape(d) && (forall o: Slot :: SlotOk(d, o)) && (forall o: Slot, p: Slot :: Apart(d, o, p))
  }

  lemma ReadOwned(d: Disk, b: nat)
    requires Owned(d)
    ensures Owned(ReadBlock(d, b))
  {
    var d' := ReadBlock(d, b);
    forall p: Slot ensures SlotOk(d', p) { assert SlotOk(d, p); }
    forall p: Slot, q: Slot ensures Apart(d', p, q) { assert Apart(d, p, q); }
  }

  // ----- the effect of the elementary steps on every slot

  predicate GoodSlot(d: Disk, o: Slot) {
    o.f < |d.file| && match o
      case Direct(f, i) => i < NDIRECT
      case Indirect(f) => true
      case Entry(f, i) => NDIRECT <= i < NINDIRECT && d.file[f].indirect != 0
  }

  /** Storing through a slot changes that slot alone (storing f_indirect also changes which words count). */
  lemma SetSlotEffect(d: Disk, o: Slot, x: nat, p: Slot)
    requires Owned(d) && GoodSlot(d, o) && !o.Indirect?
    ensures var d' := SetSlot(d, o, x);
      && Value(d', p) == (if p == o then x else Value(d, p))
      && Shape(d') && d'.n == d.n && d'.lo == d.lo && d'.bitmap == d.bitmap && d'.cached == d.cached && |d'.file| == |d.file|
      && (p.f < |d.file| ==> d'.file[p.f].indirect == d.file[p.f].indirect && d'.file[p.f].size == d.file[p.f].size)
  {
    if o.Entry? {
      assert SlotOk(d, Indirect(o.f)) && Apart(d, Indirect(o.f), Indirect(p.f));
    }
  }

  lemma FreeAfter(d: Disk, b: nat, c: nat)
    requires b < 32 * |d.bitmap|
    ensures Free(FreeBlock(d, b), c) <==> Free(d, c) || (c == b && b != 0 && b < d.n)
    ensures Free(d.(bitmap := Clear(d.bitmap, b)), c) <==> Free(d, c) && c != b
  {
    SetIn(d.bitmap, b, c);
    ClearIn(d.bitmap, b, c);
  }

  /** A claimed block was named by no slot, so emptying its cached page is invisible. */
  lemma ClaimEffect(d: Disk, p: Slot, c: nat)
    requires Owned(d) && FirstFree(d, 3) < d.n
    ensures var b := FirstFree(d, 3); var d' := Claimed(d, b);
      && Shape(d') && d'.n == d.n && d'.lo == d.lo && d'.file == d.file
      && Value(d', p) == Value(d, p) && (Free(d', c) <==> Free(d, c) && c != b)
      && Value(d, p) != b && d.lo <= b && Free(d, b) && d'.lo == d.lo
      && (b !in d.cached ==> forall i :: 0 <= i < NINDIRECT ==> d'.block[b][i] == 0)
      && (b in d.cached ==> d'.block == d.block)
  {
    var b := FirstFree(d, 3);
    assert SlotOk(d, p) && SlotOk(d, Indirect(p.f));
    FreeAfter(d, b, c);
    forall x: nat | x < d.lo ensures !BitFree(d.n, Claimed(d, b).bitmap, x) { FreeAfter(d, b, x); }
  }

  // ----- ownership

  lemma SetDataOwned(d: Disk, o: Slot, x: nat)
    requires Owned(d) && GoodSlot(d, o) && !o.Indirect?
    requires x != 0 ==> d.lo <= x < d.n && !Free(d, x) && forall p: Slot :: Value(d, p) != x
    ensures Owned(SetSlot(d, o, x))
  {
    var d' := SetSlot(d, o, x);
    SetSlotEffect(d, o, x, o);
    forall p: Slot ensures SlotOk(d', p) {
      SetSlotEffect(d, o, x, p);
      assert SlotOk(d, p);
    }
    forall p: Slot, q: Slot ensures Apart(d', p, q) {
      SetSlotEffect(d, o, x, p);
      SetSlotEffect(d, o, x, q);
      assert Apart(d, p, q);
    }
  }

  lemma ClaimOwned(d: Disk)
    requires Owned(d) && FirstFree(d, 3) < d.n
    ensures Owned(Claimed(d, FirstFree(d, 3)))
  {
    var d' := Claimed(d, FirstFree(d, 3));
    ClaimEffect(d, Indirect(0), 0);
    forall p: Slot ensures SlotOk(d', p) {
      ClaimEffect(d, p, Value(d, p));
      assert SlotOk(d, p);
    }
    forall p: Slot, q: Slot ensures Apart(d', p, q) {
      ClaimEffect(d, p, 0);
      ClaimEffect(d, q, 0);
      assert Apart(d, p, q);
    }
  }

  /** No stale words where the slots of an indirect block will be. */
  predicate Clean(d: Disk, b: nat) {
    forall i: nat :: NDIRECT <= i < NINDIRECT ==> WordAt(d, b, i) == 0
  }

  /** A fresh f_indirect brings its words with it: slot values after it is set. */
  lemma LinkEffect(d: Disk, f: nat, b: nat, p: Slot)
    requires Shape(d) && f < |d.file| && d.file[f].indirect == 0
    ensures var d' := SetSlot(d, Indirect(f), b);
      && Shape(d') && d'.n == d.n && d'.lo == d.lo && d'.bitmap == d.bitmap && d'.cached == d.cached && d'.block == d.block
      && Value(d', p) == (if p == Indirect(f) then b
                          else if p.Entry? && p.f == f && b != 0 && p.i >= NDIRECT then WordAt(d, b, p.i)
                          else Value(d, p))
  {}

  lemma LinkOwned(d: Disk, f: nat, b: nat)
    requires Owned(d) && f < |d.file| && d.file[f].indirect == 0 && d.lo <= b < d.n && !Free(d, b)
    requires forall p: Slot :: Value(d, p) != b
    requires Clean(d, b)
    ensures Owned(SetSlot(d, Indirect(f), b))
  {
    var d' := SetSlot(d, Indirect(f), b);
    forall p: Slot ensures SlotOk(d', p) {
      LinkEffect(d, f, b, p);
      assert SlotOk(d, p);
    }
    forall p: Slot, q: Slot ensures Apart(d', p, q) {
      LinkEffect(d, f, b, p);
      LinkEffect(d, f, b, q);
      assert Apart(d, p, q);
    }
  }

  /** The block alloc_block would take for an indirect block has no stale words in the cache: it was not
      cached, or the cache shows zeros. */
  predicate CleanNext(d: Disk) {
    FirstFree(d, 3) in d.cached ==> Clean(d, FirstFree(d, 3))
  }

  /** file_block_walk needs CleanNext only when it creates the indirect block. */
  predicate Creates(d: Disk, f: nat, bno: nat, alloc: bool) {
    NDIRECT <= bno < NINDIRECT && FileAt(d, f).indirect == 0 && alloc
  }

  lemma ClaimClean(d: Disk)
    requires Owned(d) && FirstFree(d, 3) < d.n
    ensures Clean(Claimed(d, FirstFree(d, 3)), FirstFree(d, 3)) <==> CleanNext(d)
  {
    var b := FirstFree(d, 3);
    ClaimEffect(d, Indirect(0), 0);
    if b !in d.cached {
      forall i: nat | NDIRECT <= i < NINDIRECT ensures WordAt(Claimed(d, b), b, i) == 0 {}
    } else {
      forall i: nat ensures WordAt(Claimed(d, b), b, i) == WordAt(d, b, i) {}
    }
  }

  lemma WalkOwned(d: Disk, f: nat, bno: nat, alloc: bool, room: bool)
    requires Owned(d) && f < |d.file| && (Creates(d, f, bno, alloc) ==> CleanNext(d))
    ensures var (d', r) := Walk(d, f, bno, alloc, room);
      && Owned(d') && |d'.file| == |d.file| && d'.n == d.n && d'.lo == d.lo && r <= 0
      && (r == 0 ==> GoodSlot(d', DataSlot(f, bno)))
      && (r != 0 || bno < NDIRECT ==> d' == d)
      && (!Creates(d, f, bno, alloc) ==> d'.file == d.file && d'.block == d.block && d'.bitmap == d.bitmap)
  {
    var b := FirstFree(d, 3);
    if NDIRECT <= bno < NINDIRECT && d.file[f].indirect != 0 { ReadOwned(d, d.file[f].indirect); }
    if Creates(d, f, bno, alloc) && b < d.n && (b in d.cached || room) {
      var d1 := Claimed(d, b);
      ClaimOwned(d);
      ClaimEffect(d, Indirect(f), b);
      forall p: Slot ensures Value(d1, p) != b { ClaimEffect(d, p, b); }
      ClaimClean(d);
      LinkOwned(d1, f, b);
      ReadOwned(SetSlot(d1, Indirect(f), b), b);
    }
  }

  /** Mapping a block keeps every block owned once, when a new indirect block comes clean. */
  lemma MapOwned(d: Disk, f: nat, bno: nat, alloc: bool, rooms: (bool, bool))
    requires Owned(d) && f < |d.file| && (Creates(d, f, bno, alloc) ==> CleanNext(d))
    ensures var (d', r) := Map(d, f, bno, alloc, rooms);
      && Owned(d') && |d'.file| == |d.file| && d'.n == d.n && d'.lo == d.lo
      && (r > 0 ==> Value(d', DataSlot(f, bno)) == r && d.lo <= r < d.n && !Free(d', r))
  {
    WalkOwned(d, f, bno, alloc, rooms.0);
    var (d1, r1) := Walk(d, f, bno, alloc, rooms.0);
    var o := DataSlot(f, bno);
    if r1 == 0 {
      assert SlotOk(d1, o);
      var b := FirstFree(d1, 3);
      if Value(d1, o) == 0 && alloc && b < d1.n && (b in d1.cached || rooms.1) {
        var d2 := Claimed(d1, b);
        ClaimOwned(d1);
        ClaimEffect(d1, o, b);
        forall p: Slot ensures Value(d2, p) != b { ClaimEffect(d1, p, b); }
        SetDataOwned(d2, o, b);
        SetSlotEffect(d2, o, b, o);
      }
    }
  }

  lemma FreeEffect(d: Disk, b: nat, p: Slot)
    requires Shape(d) && d.lo <= b < d.n
    ensures Shape(FreeBlock(d, b)) && Value(FreeBlock(d, b), p) == Value(d, p) && FreeBlock(d, b).n == d.n && FreeBlock(d, b).lo == d.lo
    ensures FreeBlock(d, b).file == d.file && FreeBlock(d, b).block == d.block
  {
    forall c: nat | c < d.lo ensures !BitFree(d.n, FreeBlock(d, b).bitmap, c) { FreeAfter(d, b, c); }
  }

  lemma EmptyEffect(d: Disk, o: Slot, p: Slot, c: nat)
    requires Owned(d) && !o.Indirect? && (Value(d, o) != 0 ==> GoodSlot(d, o))
    ensures var d' := EmptySlot(d, o);
      && Shape(d') && d'.n == d.n && d'.lo == d.lo && |d'.file| == |d.file|
      && (p.f < |d.file| ==> d'.file[p.f].indirect == d.file[p.f].indirect && d'.file[p.f].size == d.file[p.f].size)
      && Value(d', p) == (if p == o then 0 else Value(d, p))
      && (Free(d', c) <==> Free(d, c) || (Value(d, o) != 0 && c == Value(d, o)))
  {
    var b := Value(d, o);
    if b != 0 {
      assert SlotOk(d, o);
      FreeAfter(d, b, c);
      FreeEffect(d, b, p);
      if o.Entry? {
        assert SlotOk(d, Indirect(o.f)) && Apart(d, Indirect(o.f), Indirect(p.f));
      }
    }
  }

  /** What file_clear_block does: the slot is emptied and its block, if any, is free again. */
  lemma ClearEffect(d: Disk, f: nat, bno: nat, p: Slot, c: nat)
    requires Owned(d) && f < |d.file|
    ensures var d', o := ClearBlock(d, f, bno), DataSlot(f, bno);
      && Shape(d') && d'.n == d.n && d'.lo == d.lo && |d'.file| == |d.file|
      && (p.f < |d.file| ==> d'.file[p.f].indirect == d.file[p.f].indirect && d'.file[p.f].size == d.file[p.f].size)
      && Value(d', p) == (if p == o && bno < NINDIRECT then 0 else Value(d, p))
      && (Free(d', c) <==> Free(d, c) || (bno < NINDIRECT && Value(d, o) != 0 && c == Value(d, o)))
  {
    WalkOwned(d, f, bno, false, false);
    EmptyEffect(Walk(d, f, bno, false, false).0, DataSlot(f, bno), p, c);
  }

  lemma ClearOwned(d: Disk, f: nat, bno: nat)
    requires Owned(d) && f < |d.file|
    ensures Owned(ClearBlock(d, f, bno))
  {
    var d', o := ClearBlock(d, f, bno), DataSlot(f, bno);
    ClearEffect(d, f, bno, o, 0);
    forall p: Slot ensures SlotOk(d', p) {
      ClearEffect(d, f, bno, p, Value(d, p));
      assert SlotOk(d, p) && Apart(d, p, o);
    }
    forall p: Slot, q: Slot ensures Apart(d', p, q) {
      ClearEffect(d, f, bno, p, 0);
      ClearEffect(d, f, bno, q, 0);
      assert Apart(d, p, q);
    }
  }

  lemma UnlinkEffect(d: Disk, f: nat, p: Slot, c: nat)
    requires Owned(d) && f < |d.file|
    ensures var d' := FreeIndirect(d, f);
      && Shape(d') && d'.n == d.n && d'.lo == d.lo && |d'.file| == |d.file|
      && (p.f < |d.file| ==> d'.file[p.f].size == d.file[p.f].size)
      && Value(d', p) == (if p.f == f && !p.Direct? then 0 else Value(d, p))
      && (Free(d', c) <==> Free(d, c) || (d.file[f].indirect != 0 && c == d.file[f].indirect))
  {
    assert SlotOk(d, Indirect(f));
    if d.file[f].indirect != 0 {
      FreeAfter(d, d.file[f].indirect, c);
      FreeEffect(d, d.file[f].indirect, p);
    }
  }

  lemma UnlinkOwned(d: Disk, f: nat)
    requires Owned(d) && f < |d.file|
    ensures Owned(FreeIndirect(d, f))
  {
    var d' := FreeIndirect(d, f);
    UnlinkEffect(d, f, Indirect(f), 0);
    forall p: Slot ensures SlotOk(d', p) {
      UnlinkEffect(d, f, p, Value(d, p));
      assert SlotOk(d, p) && Apart(d, p, Indirect(f));
    }
    forall p: Slot, q: Slot ensures Apart(d', p, q) {
      UnlinkEffect(d, f, p, 0);
      UnlinkEffect(d, f, q, 0);
      assert Apart(d, p, q);
    }
  }
}
