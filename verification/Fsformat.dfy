/** The image writer (tools/fsformat.c) on the same disk the file server reads. */
module Fsformat {
  import opened Bits
  import opened Fs
  import opened FsTheorems

  /** The disk being built.  `d.bitmap` is the bitmap flush_bitmap would leave now; `ok` says that the tool
      has neither run past the end of the disk nor failed its assertion. */
  datatype Image = Image(d: Disk, next: nat, name: seq<string>, ftype: seq<nat>, data: seq<seq<nat>>, ok: bool)

  /** The bitmap, in words, of a disk of n blocks of which those below next are used. */
  function BitsFrom(n: nat, next: nat): (r: seq<Word>)
    ensures |r| == 1024 * BitBlocks(n) && n <= 32 * |r|
  {
    seq(1024 * BitBlocks(n), w requires 0 <= w => set j: nat | j < 32 && Unused(n, next, w, j))
  }

  predicate Unused(n: nat, next: nat, w: nat, j: nat) {
    next <= 32 * w + j < n
  }

  function AllBlocks(n: nat): set<nat> {
    set b: nat | b < n && IsBlock(n, b)
  }

  predicate IsBlock(n: nat, b: nat) {
    b < n
  }

  lemma BitsFromFree(n: nat, next: nat, b: nat)
    ensures BitFree(n, BitsFrom(n, next), b) <==> next <= b < n
  {}

  lemma ClearBits(n: nat, next: nat)
    requires next < n
    ensures Clear(BitsFrom(n, next), next) == BitsFrom(n, next + 1)
  {
    var x, y := Clear(BitsFrom(n, next), next), BitsFrom(n, next + 1);
    forall w | 0 <= w < |x| ensures x[w] == y[w] {
      forall j: nat ensures j in x[w] <==> j in y[w] {
        assert 32 * (next / 32) + next % 32 == next;
      }
    }
  }

  lemma FirstIsNext(d: Disk, next: nat)
    requires d.bitmap == BitsFrom(d.n, next) && 3 <= next < d.n
    ensures FirstFree(d, 3) == next
  {
    BitsFromFree(d.n, next, FirstFree(d, 3));
    BitsFromFree(d.n, next, next);
    assert Free(d, next);
  }

  function BlankFile(): File {
    File(seq(NDIRECT, _ => 0), 0, 0)
  }

  /** init_disk */
  function InitDisk(n: nat): Image {
    var first := 2 + BitBlocks(n);
    Image(Disk(n, first, BitsFrom(n, first), seq(n, _ => ZeroBlock()), AllBlocks(n), seq(1 + FILE2BLK * n, _ => BlankFile())),
          first, ["/"] + seq(FILE2BLK * n, _ => ""), [FTYPE_DIR] + seq(FILE2BLK * n, _ => 0),
          seq(n, _ => seq(BY2BLK, _ => 0)), first <= n)
  }

  /** next_block */
  function NextBlock(im: Image): Image {
    if im.next >= im.d.n then im.(ok := false)
    else im.(d := Claimed(im.d, im.next), next := im.next + 1)
  }

  /** save_block_link */
  function SaveBlockLink(im: Image, f: nat, nblk: nat, bno: nat): Image {
    if nblk >= NINDIRECT then im.(ok := false)
    else
      var im1 := if nblk >= NDIRECT && FileAt(im.d, f).indirect == 0 then NewIndirect(im, f) else im;
      im1.(d := SetSlot(im1.d, DataSlot(f, nblk), bno))
  }

  function NewIndirect(im: Image, f: nat): Image {
    var im1 := NextBlock(im);
    im1.(d := SetSlot(im1.d, Indirect(f), im.next))
  }

  /** Take the next block and link it: make_link_block up to the size, and the loop of write_file. */
  function AddBlock(im: Image, f: nat, nblk: nat): Image {
    SaveBlockLink(NextBlock(im), f, nblk, im.next)
  }

  /** make_link_block */
  function MakeLinkBlock(im: Image, dir: nat, nblk: nat): Image {
    var im1 := AddBlock(im, dir, nblk);
    im1.(d := SetSizeField(im1.d, dir, FileAt(im1.d, dir).size + BY2BLK))
  }

  // ----- what the writer keeps

  predicate Cached(im: Image, b: nat) {
    b < im.d.n ==> b in im.d.cached
  }

  predicate BlankBlock(im: Image, b: nat) {
    b >= im.next ==> Clean(im.d, b)
  }

  ghost predicate Core(im: Image) {
    && Owned(im.d) && im.d.lo <= im.next <= im.d.n && im.d.bitmap == BitsFrom(im.d.n, im.next)
    && |im.d.file| == |im.name| == |im.ftype| == 1 + FILE2BLK * im.d.n
    && |im.data| == im.d.n && (forall b :: 0 <= b < |im.data| ==> |im.data[b]| == BY2BLK)
    && (forall b: nat :: Cached(im, b)) && (forall b: nat :: BlankBlock(im, b))
  }

  /** Nothing changed but the words and File records of the disk. */
  predicate Beside(im: Image, im': Image) {
    && im'.name == im.name && im'.ftype == im.ftype && im'.data == im.data && im'.ok == im.ok
    && im'.d.n == im.d.n && im'.d.lo == im.d.lo && im'.d.cached == im.d.cached
  }

  lemma NextEffect(im: Image, p: Slot)
    requires Core(im) && im.next < im.d.n
    ensures var im' := NextBlock(im);
      && Core(im') && Beside(im, im') && im'.next == im.next + 1
      && im'.d.file == im.d.file && im'.d.block == im.d.block
      && Value(im'.d, p) == Value(im.d, p) != im.next && !Free(im'.d, im.next)
  {
    var im', b := NextBlock(im), im.next;
    FirstIsNext(im.d, b);
    assert Cached(im, b);
    ClaimOwned(im.d);
    ClaimEffect(im.d, p, b);
    ClearBits(im.d.n, b);
    forall c: nat ensures Cached(im', c) && BlankBlock(im', c) {
      assert Cached(im, c) && BlankBlock(im, c);
      assert forall i: nat :: WordAt(im'.d, c, i) == WordAt(im.d, c, i);
    }
  }

  lemma PutCore(im: Image, o: Slot, x: nat)
    requires Core(im) && GoodSlot(im.d, o) && !o.Indirect? && x != 0
    requires im.d.lo <= x < im.next && forall p: Slot :: Value(im.d, p) != x
    ensures var im' := im.(d := SetSlot(im.d, o, x)); Core(im') && Beside(im, im') && im'.next == im.next
  {
    var im' := im.(d := SetSlot(im.d, o, x));
    BitsFromFree(im.d.n, im.next, x);
    SetDataOwned(im.d, o, x);
    SetSlotEffect(im.d, o, x, o);
    assert SlotOk(im.d, Indirect(o.f));
    BitsFromFree(im.d.n, im.next, im.d.file[o.f].indirect);
    forall c: nat ensures Cached(im', c) && BlankBlock(im', c) {
      assert Cached(im, c) && BlankBlock(im, c);
      assert c != im.d.file[o.f].indirect ==> forall i: nat :: WordAt(im'.d, c, i) == WordAt(im.d, c, i);
    }
  }

  lemma NewIndirectEffect(im: Image, f: nat, p: Slot)
    requires Core(im) && im.next < im.d.n && f < |im.d.file| && im.d.file[f].indirect == 0
    ensures var im' := NewIndirect(im, f);
      && Core(im') && Beside(im, im') && im'.next == im.next + 1
      && im'.d.file == im.d.file[f := im.d.file[f].(indirect := im.next)] && im'.d.block == im.d.block
      && Value(im'.d, p) == (if p == Indirect(f) then im.next else Value(im.d, p))
  {
    var im1, im', b := NextBlock(im), NewIndirect(im, f), im.next;
    forall q: Slot ensures Value(im1.d, q) != b { NextEffect(im, q); }
    NextEffect(im, p);
    assert BlankBlock(im, b);
    assert forall i: nat :: WordAt(im1.d, b, i) == WordAt(im.d, b, i);
    LinkOwned(im1.d, f, b);
    LinkEffect(im1.d, f, b, p);
    forall c: nat ensures Cached(im', c) && BlankBlock(im', c) {
      assert Cached(im1, c) && BlankBlock(im1, c);
      assert forall i: nat :: WordAt(im'.d, c, i) == WordAt(im1.d, c, i);
    }
  }

  /** The slots after AddBlock: the new block at nblk, and the indirect block after it if one was needed. */
  function Added(im: Image, f: nat, nblk: nat, p: Slot): nat {
    if p == DataSlot(f, nblk) then im.next
    else if p == Indirect(f) && nblk >= NDIRECT && Value(im.d, p) == 0 then im.next + 1
    else Value(im.d, p)
  }

  lemma AddBlockEffect(im: Image, f: nat, nblk: nat, p: Slot)
    requires Core(im) && f < |im.d.file| && Value(im.d, DataSlot(f, nblk)) == 0 && AddBlock(im, f, nblk).ok
    ensures var im' := AddBlock(im, f, nblk);
      && Core(im') && Beside(im, im') && nblk < NINDIRECT && im.next < im.d.n
      && im'.next == im.next + (if nblk >= NDIRECT && im.d.file[f].indirect == 0 then 2 else 1)
      && Value(im'.d, p) == Added(im, f, nblk, p)
      && (p.f < |im.d.file| ==> im'.d.file[p.f].size == im.d.file[p.f].size)
  {
    NextEffect(im, p);
    NextEffect(im, DataSlot(f, nblk));
    var im1 := NextBlock(im);
    forall q: Slot ensures Value(im1.d, q) != im.next { NextEffect(im, q); }
    SaveLinkEffect(im1, f, nblk, im.next, p);
  }

  lemma SaveLinkEffect(im: Image, f: nat, nblk: nat, b: nat, p: Slot)
    requires Core(im) && f < |im.d.file| && Value(im.d, DataSlot(f, nblk)) == 0 && SaveBlockLink(im, f, nblk, b).ok
    requires im.d.lo <= b < im.next && forall q: Slot :: Value(im.d, q) != b
    ensures var im' := SaveBlockLink(im, f, nblk, b);
      && Core(im') && Beside(im, im') && nblk < NINDIRECT
      && im'.next == im.next + (if nblk >= NDIRECT && im.d.file[f].indirect == 0 then 1 else 0)
      && Value(im'.d, p) == (if p == DataSlot(f, nblk) then b
                             else if p == Indirect(f) && nblk >= NDIRECT && Value(im.d, p) == 0 then im.next
                             else Value(im.d, p))
      && (p.f < |im.d.file| ==> im'.d.file[p.f].size == im.d.file[p.f].size)
  {
    var o := DataSlot(f, nblk);
    if nblk >= NDIRECT && im.d.file[f].indirect == 0 {
      var im1 := NewIndirect(im, f);
      NewIndirectEffect(im, f, p);
      NewIndirectEffect(im, f, o);
      forall q: Slot ensures Value(im1.d, q) != b { NewIndirectEffect(im, f, q); }
      PutCore(im1, o, b);
      SetSlotEffect(im1.d, o, b, p);
    } else {
      PutCore(im, o, b);
      SetSlotEffect(im.d, o, b, p);
    }
  }

  // ----- directories

  function Size(im: Image, f: nat): nat {
    FileAt(im.d, f).size
  }

  predicate InUse(im: Image, f: nat) {
    f < |im.name| && im.name[f] != ""
  }

  predicate IsDir(im: Image, x: nat) {
    InUse(im, x) && x < |im.ftype| && im.ftype[x] == FTYPE_DIR
  }

  /** The block a struct File lies in; the root lies in none. */
  function BlockOf(c: nat): nat
    requires c > 0
  {
    (c - 1) / FILE2BLK
  }

  predicate HoldsAt(im: Image, x: nat, i: nat, c: nat) {
    ListedAt(im.d, x, i, c)
  }

  /** struct File c lies in directory x and is in use. */
  ghost predicate Lists(im: Image, x: nat, c: nat) {
    InUse(im, c) && exists i: nat :: HoldsAt(im, x, i, c)
  }

  predicate DirOk(im: Image, x: nat, i: nat) {
    IsDir(im, x) ==>
      Size(im, x) % BY2BLK == 0 && Size(im, x) / BY2BLK <= NINDIRECT
      && (Value(im.d, DataSlot(x, i)) != 0 <==> i < Size(im, x) / BY2BLK)
  }

  /** A struct File not in use is all zero, and those in use lie in blocks that are. */
  predicate FileOk(im: Image, f: nat) {
    (!InUse(im, f) ==> Size(im, f) == 0) && (InUse(im, f) && f > 0 ==> BlockOf(f) < im.next)
  }

  predicate SlotZero(im: Image, p: Slot) {
    !InUse(im, p.f) ==> Value(im.d, p) == 0
  }

  ghost predicate Linked(im: Image, b: nat) {
    im.d.lo <= b < im.next ==> exists p: Slot :: OwnedBlock(im.d, b, p)
  }

  ghost predicate Tidy(im: Image) {
    && Core(im) && IsDir(im, 0)
    && (forall x: nat, i: nat :: DirOk(im, x, i)) && (forall f: nat :: FileOk(im, f))
    && (forall p: Slot :: SlotZero(im, p)) && (forall b: nat :: Linked(im, b))
  }

  /** The first of the struct Files of block b, from the k-th on, that is not in use. */
  function UnusedIn(name: seq<string>, b: nat, k: nat): (r: nat)
    ensures k <= FILE2BLK ==> k <= r <= FILE2BLK
    ensures r < FILE2BLK && 1 + FILE2BLK * b + r < |name| ==> name[1 + FILE2BLK * b + r] == ""
    decreases FILE2BLK - k
  {
    if k >= FILE2BLK || 1 + FILE2BLK * b + k >= |name| || name[1 + FILE2BLK * b + k] == "" then k
    else UnusedIn(name, b, k + 1)
  }

  /** The first struct File not in use in the blocks of directory x from the i-th on, or 0. */
  function FindUnused(im: Image, x: nat, i: nat): nat
    decreases Size(im, x) / BY2BLK - i
  {
    if i >= Size(im, x) / BY2BLK then 0
    else
      var b := Value(im.d, DataSlot(x, i));
      var k := UnusedIn(im.name, b, 0);
      if k < FILE2BLK then 1 + FILE2BLK * b + k else FindUnused(im, x, i + 1)
  }

  /** create_file */
  function CreateFile(im: Image, x: nat): (Image, nat) {
    var c := FindUnused(im, x, 0);
    if c > 0 then (im, c) else (MakeLinkBlock(im, x, Size(im, x) / BY2BLK), 1 + FILE2BLK * im.next)
  }

  /** Fill in f_name, f_type and f_size. */
  function NameFile(im: Image, c: nat, nm: string, ty: nat, size: nat): Image {
    if c < |im.name| && c < |im.ftype| then
      im.(name := im.name[c := nm], ftype := im.ftype[c := ty], d := SetSizeField(im.d, c, size))
    else im
  }

  function AddEntry(im: Image, x: nat, nm: string, ty: nat, size: nat): (Image, nat) {
    var (im1, c) := CreateFile(im, x);
    (NameFile(im1, c, nm, ty, size), c)
  }

  lemma SizeEffect(im: Image, f: nat, size: nat, p: Slot)
    requires Core(im) && f < |im.d.file|
    ensures var im' := im.(d := SetSizeField(im.d, f, size));
      && Core(im') && Beside(im, im') && im'.next == im.next && Value(im'.d, p) == Value(im.d, p)
      && Size(im', p.f) == if p.f == f then size else Size(im, p.f)
  {
    var im' := im.(d := SetSizeField(im.d, f, size));
    SizeFieldOwned(im.d, f, size);
    forall c: nat ensures Cached(im', c) && BlankBlock(im', c) {
      assert Cached(im, c) && BlankBlock(im, c);
      assert forall i: nat :: WordAt(im'.d, c, i) == WordAt(im.d, c, i);
    }
  }

  lemma MakeLinkEffect(im: Image, x: nat, p: Slot)
    requires Tidy(im) && IsDir(im, x) && MakeLinkBlock(im, x, Size(im, x) / BY2BLK).ok
    ensures var nblk := Size(im, x) / BY2BLK; var im' := MakeLinkBlock(im, x, nblk);
      && Core(im') && Beside(im, im') && im.next < im'.next && nblk < NINDIRECT && im.next < im.d.n
      && im'.next == im.next + (if nblk >= NDIRECT && im.d.file[x].indirect == 0 then 2 else 1)
      && Value(im'.d, p) == Added(im, x, nblk, p)
      && Size(im', p.f) == Size(im, p.f) + if p.f == x then BY2BLK else 0
  {
    var nblk := Size(im, x) / BY2BLK;
    assert DirOk(im, x, nblk);
    AddBlockEffect(im, x, nblk, p);
    AddBlockEffect(im, x, nblk, Indirect(x));
    GrowEffect(im, AddBlock(im, x, nblk), x, p);
  }

  lemma GrowEffect(im: Image, im1: Image, x: nat, p: Slot)
    requires Core(im) && Core(im1) && Beside(im, im1) && x < |im.d.file| && Size(im1, x) == Size(im, x)
    requires p.f < |im.d.file| ==> Size(im1, p.f) == Size(im, p.f)
    ensures var im' := im1.(d := SetSizeField(im1.d, x, FileAt(im1.d, x).size + BY2BLK));
      && Core(im') && Beside(im, im') && im'.next == im1.next && Value(im'.d, p) == Value(im1.d, p)
      && Size(im', p.f) == Size(im, p.f) + if p.f == x then BY2BLK else 0
  {
    SizeEffect(im1, x, FileAt(im1.d, x).size + BY2BLK, p);
  }

  lemma MakeLinkTidy(im: Image, x: nat)
    requires Tidy(im) && IsDir(im, x) && MakeLinkBlock(im, x, Size(im, x) / BY2BLK).ok
    ensures Tidy(MakeLinkBlock(im, x, Size(im, x) / BY2BLK))
  {
    var nblk := Size(im, x) / BY2BLK;
    var im' := MakeLinkBlock(im, x, nblk);
    MakeLinkEffect(im, x, Indirect(x));
    forall y: nat, i: nat ensures DirOk(im', y, i) { MakeLinkDir(im, x, y, i); }
    forall f: nat ensures FileOk(im', f) {
      assert FileOk(im, f);
      MakeLinkEffect(im, x, Indirect(f));
    }
    forall p: Slot ensures SlotZero(im', p) {
      assert SlotZero(im, p);
      MakeLinkEffect(im, x, p);
    }
    forall b: nat ensures Linked(im', b) { MakeLinkLinks(im, x, b); }
  }

  lemma MakeLinkDir(im: Image, x: nat, y: nat, i: nat)
    requires Tidy(im) && IsDir(im, x) && MakeLinkBlock(im, x, Size(im, x) / BY2BLK).ok
    ensures DirOk(MakeLinkBlock(im, x, Size(im, x) / BY2BLK), y, i)
  {
    assert DirOk(im, y, i) && DirOk(im, x, Size(im, x) / BY2BLK);
    MakeLinkEffect(im, x, DataSlot(y, i));
  }

  lemma MakeLinkLinks(im: Image, x: nat, b: nat)
    requires Tidy(im) && IsDir(im, x) && MakeLinkBlock(im, x, Size(im, x) / BY2BLK).ok
    ensures Linked(MakeLinkBlock(im, x, Size(im, x) / BY2BLK), b)
  {
    var nblk := Size(im, x) / BY2BLK;
    var im' := MakeLinkBlock(im, x, nblk);
    MakeLinkEffect(im, x, Indirect(x));
    MakeLinkEffect(im, x, DataSlot(x, nblk));
    assert Linked(im, b);
    if im.d.lo <= b < im.next {
      var p: Slot :| OwnedBlock(im.d, b, p);
      MakeLinkEffect(im, x, p);
      assert DirOk(im, x, nblk);
      assert OwnedBlock(im'.d, b, p);
    } else if b == im.next {
      assert OwnedBlock(im'.d, b, DataSlot(x, nblk));
    } else if b == im.next + 1 && b < im'.next {
      assert OwnedBlock(im'.d, b, Indirect(x));
    }
  }
}
