/** Writing whole directory trees, and reading them back. */
module FsformatTree {
  import opened Fs
  import opened FsTheorems
  import opened Fsformat
  import opened FsformatDir

  datatype Tree = Reg(name: string, content: seq<nat>) | Dir(name: string, children: seq<Tree>)

  // ----- file contents

  function Chunk(content: seq<nat>): nat {
    if |content| < BY2BLK then |content| else BY2BLK
  }

  /** read() into the next block, which changes only the bytes that were read. */
  function PutData(im: Image, b: nat, chunk: seq<nat>): Image {
    if b < |im.data| && |chunk| <= |im.data[b]| then im.(data := im.data[b := chunk + im.data[b][|chunk|..]]) else im
  }

  /** One turn of the loop of write_file. */
  function Turn(im: Image, f: nat, iblk: nat, chunk: seq<nat>): Image {
    AddBlock(PutData(im, im.next, chunk), f, iblk)
  }

  /** The loop of write_file. */
  function WriteBlocks(im: Image, f: nat, iblk: nat, content: seq<nat>): Image
    decreases |content|
  {
    if content == [] then im
    else
      var k := Chunk(content);
      WriteBlocks(Turn(im, f, iblk, content[..k]), f, iblk + 1, content[k..])
  }

  /** write_file */
  function WriteFile(im: Image, x: nat, nm: string, content: seq<nat>): (Image, nat) {
    var (im1, c) := AddEntry(im, x, nm, FTYPE_REG, |content|);
    (WriteBlocks(im1, c, 0, content), c)
  }

  /** strncpy(…, MAXNAMELEN - 1) */
  function Clip(nm: string): string {
    if |nm| < MAXNAMELEN then nm else nm[..MAXNAMELEN - 1]
  }

  /** write_file or write_directory */
  function WriteTree(im: Image, x: nat, t: Tree): (Image, nat)
    decreases t
  {
    match t
    case Reg(nm, content) => WriteFile(im, x, nm, content)
    case Dir(nm, ts) =>
      var (im1, c) := AddEntry(im, x, Clip(nm), FTYPE_DIR, 0);
      (WriteAll(im1, c, ts), c)
  }

  function WriteAll(im: Image, x: nat, ts: seq<Tree>): Image
    decreases ts
  {
    if ts == [] then im else WriteAll(WriteTree(im, x, ts[0]).0, x, ts[1..])
  }

  /** Names that strcpy can store, distinct within a directory. */
  predicate Good(t: Tree)
    decreases t
  {
    0 < |t.name| < MAXNAMELEN && (t.Dir? ==> AllGood(t.children))
  }

  predicate AllGood(ts: seq<Tree>)
    decreases ts
  {
    (forall k :: 0 <= k < |ts| ==> Good(ts[k])) && (forall j, k :: 0 <= j < k < |ts| ==> ts[j].name != ts[k].name)
  }

  // ----- reading back

  /** Byte p of file f, through the slots the file server uses. */
  function ReadByte(im: Image, f: nat, p: nat): nat {
    var b := Value(im.d, DataSlot(f, p / BY2BLK));
    if b < |im.data| && p % BY2BLK < |im.data[b]| then im.data[b][p % BY2BLK] else 0
  }

  predicate ByteOk(im: Image, f: nat, content: seq<nat>, p: nat) {
    p < |content| ==> Value(im.d, DataSlot(f, p / BY2BLK)) != 0 && ReadByte(im, f, p) == content[p]
  }

  /** The tree at struct File c, as the file server reads it. */
  ghost predicate Stored(im: Image, c: nat, t: Tree)
    decreases t, 0
  {
    && InUse(im, c) && c < |im.ftype| && im.name[c] == t.name
    && match t
       case Reg(_, content) =>
         im.ftype[c] == FTYPE_REG && Size(im, c) == |content| && forall p: nat :: ByteOk(im, c, content, p)
       case Dir(_, ts) =>
         im.ftype[c] == FTYPE_DIR && StoredAll(im, c, ts)
  }

  ghost predicate StoredAll(im: Image, x: nat, ts: seq<Tree>)
    decreases ts, 0
  {
    forall k :: 0 <= k < |ts| ==> StoredIn(im, x, ts[k])
  }

  /** dir_lookup finds the tree under its name in directory x. */
  ghost predicate StoredIn(im: Image, x: nat, t: Tree)
    decreases t, 1
  {
    exists c: nat :: Found(im, x, c) && Stored(im, c, t)
  }

  // ----- what stays when the image grows

  lemma {:induction false} StoredKept(im: Image, im': Image, c: nat, t: Tree)
    requires Core(im) && Extends(im, im') && Stored(im, c, t)
    ensures Stored(im', c, t)
    decreases t, 0
  {
    assert FileKept(im, im', c);
    match t
    case Reg(_, content) =>
      forall p: nat ensures ByteOk(im', c, content, p) {
        var o := DataSlot(c, p / BY2BLK);
        assert ByteOk(im, c, content, p) && SlotKept(im, im', o) && SlotOk(im.d, o);
        BitsFromFree(im.d.n, im.next, Value(im.d, o));
        assert DataKept(im, im', Value(im.d, o));
      }
    case Dir(_, ts) => StoredAllKept(im, im', c, ts);
  }

  lemma {:induction false} StoredAllKept(im: Image, im': Image, x: nat, ts: seq<Tree>)
    requires Core(im) && Extends(im, im') && IsDir(im, x) && StoredAll(im, x, ts)
    ensures StoredAll(im', x, ts)
    decreases ts, 0
  {
    forall k | 0 <= k < |ts| ensures StoredIn(im', x, ts[k]) { StoredInKept(im, im', x, ts[k]); }
  }

  lemma {:induction false} StoredInKept(im: Image, im': Image, x: nat, t: Tree)
    requires Core(im) && Extends(im, im') && IsDir(im, x) && StoredIn(im, x, t)
    ensures StoredIn(im', x, t)
    decreases t, 1
  {
    var c: nat :| Found(im, x, c) && Stored(im, c, t);
    StoredKept(im, im', c, t);
    assert FoundKept(im, im', x, c);
  }

  // ----- the blocks of a regular file

  predicate RestZero(im: Image, f: nat, iblk: nat, i: nat) {
    i >= iblk ==> Value(im.d, DataSlot(f, i)) == 0
  }

  ghost predicate Filling(im: Image, f: nat, iblk: nat) {
    && Tidy(im) && InUse(im, f) && im.ftype[f] != FTYPE_DIR
    && (forall i: nat :: RestZero(im, f, iblk, i))
  }

  lemma PutDataTidy(im: Image, chunk: seq<nat>)
    requires Tidy(im) && |chunk| <= BY2BLK
    ensures var im' := PutData(im, im.next, chunk); Tidy(im') && Extends(im, im') && im'.d == im.d && im'.next == im.next
    ensures var im' := PutData(im, im.next, chunk); im'.name == im.name && im'.ftype == im.ftype && im'.ok == im.ok
    ensures forall x: nat, c: nat :: SameLists(im, PutData(im, im.next, chunk), x, c)
  {
    var im' := PutData(im, im.next, chunk);
    forall b: nat ensures Cached(im', b) && BlankBlock(im', b) { assert Cached(im, b) && BlankBlock(im, b); }
    forall y: nat, i: nat ensures DirOk(im', y, i) { assert DirOk(im, y, i); }
    forall f: nat ensures FileOk(im', f) { assert FileOk(im, f); }
    forall p: Slot ensures SlotZero(im', p) { assert SlotZero(im, p); }
    forall b: nat ensures Linked(im', b) { assert Linked(im, b); }
    forall x: nat, c: nat ensures SameLists(im, im', x, c) {
      forall i: nat ensures HoldsAt(im', x, i, c) <==> HoldsAt(im, x, i, c) {}
    }
    forall x: nat, c: nat ensures FoundKept(im, im', x, c) {
      assert SameLists(im, im', x, c);
      forall c2: nat ensures SameName(im', x, c2, c) <==> SameName(im, x, c2, c) { assert SameLists(im, im', x, c2); }
    }
  }

  ghost predicate SameLists(im: Image, im': Image, x: nat, c: nat) {
    Lists(im', x, c) <==> Lists(im, x, c)
  }

  lemma AddBlockTidy(im: Image, f: nat, iblk: nat)
    requires Filling(im, f, iblk) && AddBlock(im, f, iblk).ok
    ensures Filling(AddBlock(im, f, iblk), f, iblk + 1)
  {
    var im' := AddBlock(im, f, iblk);
    assert RestZero(im, f, iblk, iblk);
    AddBlockEffect(im, f, iblk, Indirect(f));
    forall y: nat, i: nat ensures DirOk(im', y, i) { AddBlockDir(im, f, iblk, y, i); }
    forall g: nat ensures FileOk(im', g) {
      assert FileOk(im, g);
      AddBlockEffect(im, f, iblk, Indirect(g));
    }
    forall p: Slot ensures SlotZero(im', p) {
      assert SlotZero(im, p);
      AddBlockEffect(im, f, iblk, p);
    }
    var rest := iblk + 1;
    forall i: nat ensures RestZero(im', f, rest, i) {
      assert RestZero(im, f, iblk, i);
      AddBlockEffect(im, f, iblk, DataSlot(f, i));
    }
    forall b: nat ensures Linked(im', b) { AddBlockLinks(im, f, iblk, b); }
  }

  lemma AddBlockDir(im: Image, f: nat, iblk: nat, y: nat, i: nat)
    requires Filling(im, f, iblk) && AddBlock(im, f, iblk).ok
    ensures DirOk(AddBlock(im, f, iblk), y, i)
  {
    assert DirOk(im, y, i) && RestZero(im, f, iblk, iblk);
    AddBlockEffect(im, f, iblk, DataSlot(y, i));
  }

  lemma AddBlockLinks(im: Image, f: nat, iblk: nat, b: nat)
    requires Filling(im, f, iblk) && AddBlock(im, f, iblk).ok
    ensures Linked(AddBlock(im, f, iblk), b)
  {
    var im' := AddBlock(im, f, iblk);
    assert RestZero(im, f, iblk, iblk);
    AddBlockEffect(im, f, iblk, Indirect(f));
    AddBlockEffect(im, f, iblk, DataSlot(f, iblk));
    assert Linked(im, b);
    if im.d.lo <= b < im.next {
      var p: Slot :| OwnedBlock(im.d, b, p);
      AddBlockEffect(im, f, iblk, p);
      assert OwnedBlock(im'.d, b, p);
    } else if b == im.next {
      assert OwnedBlock(im'.d, b, DataSlot(f, iblk));
    } else if b == im.next + 1 && b < im'.next {
      assert OwnedBlock(im'.d, b, Indirect(f));
    }
  }

  /** A regular file's new block changes no directory. */
  lemma AddBlockLists(im: Image, f: nat, iblk: nat, x: nat, c: nat)
    requires Filling(im, f, iblk) && AddBlock(im, f, iblk).ok && IsDir(im, x)
    ensures Lists(AddBlock(im, f, iblk), x, c) <==> Lists(im, x, c)
  {
    var im' := AddBlock(im, f, iblk);
    assert RestZero(im, f, iblk, iblk);
    AddBlockEffect(im, f, iblk, Indirect(f));
    forall i: nat ensures HoldsAt(im', x, i, c) <==> HoldsAt(im, x, i, c) {
      AddBlockEffect(im, f, iblk, DataSlot(x, i));
    }
  }

  lemma AddBlockKept(im: Image, f: nat, iblk: nat)
    requires Filling(im, f, iblk) && AddBlock(im, f, iblk).ok
    ensures Extends(im, AddBlock(im, f, iblk))
  {
    var im' := AddBlock(im, f, iblk);
    assert RestZero(im, f, iblk, iblk);
    AddBlockEffect(im, f, iblk, Indirect(f));
    forall p: Slot ensures SlotKept(im, im', p) { AddBlockEffect(im, f, iblk, p); }
    forall g: nat ensures FileKept(im, im', g) { AddBlockEffect(im, f, iblk, Indirect(g)); }
    forall b: nat ensures DataKept(im, im', b) {}
    forall x: nat, c: nat ensures FoundKept(im, im', x, c) {
      if IsDir(im, x) && Found(im, x, c) {
        AddBlockLists(im, f, iblk, x, c);
        forall c2: nat ensures SameName(im', x, c2, c) ==> c2 == c {
          AddBlockLists(im, f, iblk, x, c2);
          assert SameName(im, x, c2, c) ==> c2 == c;
        }
      }
    }
  }

  lemma {:induction false} BlocksOk(im: Image, f: nat, iblk: nat, content: seq<nat>)
    requires WriteBlocks(im, f, iblk, content).ok
    ensures im.ok
    decreases |content|
  {
    if content != [] {
      var k := Chunk(content);
      BlocksOk(Turn(im, f, iblk, content[..k]), f, iblk + 1, content[k..]);
    }
  }

  lemma BlocksFail(im: Image, f: nat, iblk: nat, content: seq<nat>)
    requires !im.ok
    ensures !WriteBlocks(im, f, iblk, content).ok
  {
    if WriteBlocks(im, f, iblk, content).ok { BlocksOk(im, f, iblk, content); }
  }

  lemma TurnKept(im: Image, f: nat, iblk: nat, chunk: seq<nat>)
    requires Filling(im, f, iblk) && |chunk| <= BY2BLK && Turn(im, f, iblk, chunk).ok
    ensures var im' := Turn(im, f, iblk, chunk); Filling(im', f, iblk + 1) && Extends(im, im') && im'.name == im.name
  {
    var im1 := PutData(im, im.next, chunk);
    PutDataTidy(im, chunk);
    forall i: nat ensures RestZero(im1, f, iblk, i) { assert RestZero(im, f, iblk, i); }
    AddBlockTidy(im1, f, iblk);
    AddBlockKept(im1, f, iblk);
    assert RestZero(im1, f, iblk, iblk);
    AddBlockEffect(im1, f, iblk, Indirect(f));
    ExtendsTransitive(im, im1, AddBlock(im1, f, iblk));
  }

  /** The blocks written from iblk on, read back at their place. */
  lemma {:induction false} BlocksWritten(im: Image, f: nat, iblk: nat, content: seq<nat>)
    requires Filling(im, f, iblk) && WriteBlocks(im, f, iblk, content).ok
    ensures var im' := WriteBlocks(im, f, iblk, content);
      && Tidy(im') && Extends(im, im')
      && forall p: nat :: PlacedOk(im', f, iblk, content, p)
    decreases |content|
  {
    if content == [] {
      ExtendsSelf(im);
    } else {
      var k := Chunk(content);
      var im1, im' := Turn(im, f, iblk, content[..k]), WriteBlocks(im, f, iblk, content);
      BlocksOk(im1, f, iblk + 1, content[k..]);
      TurnKept(im, f, iblk, content[..k]);
      BlocksWritten(im1, f, iblk + 1, content[k..]);
      ExtendsTransitive(im, im1, im');
      forall p: nat ensures PlacedOk(im', f, iblk, content, p) {
        if p < BY2BLK {
          FirstChunk(im, im', f, iblk, content, p);
        } else {
          LaterChunk(im', f, iblk, content, p);
        }
      }
    }
  }

  lemma LaterChunk(im: Image, f: nat, iblk: nat, content: seq<nat>, p: nat)
    requires p >= BY2BLK && PlacedOk(im, f, iblk + 1, content[Chunk(content)..], p - BY2BLK)
    ensures PlacedOk(im, f, iblk, content, p)
  {}

  predicate PlacedOk(im: Image, f: nat, iblk: nat, content: seq<nat>, p: nat) {
    p < |content| ==>
      var q := BY2BLK * iblk + p;
      Value(im.d, DataSlot(f, q / BY2BLK)) != 0 && ReadByte(im, f, q) == content[p]
  }

  lemma FirstChunk(im: Image, im': Image, f: nat, iblk: nat, content: seq<nat>, p: nat)
    requires Filling(im, f, iblk) && content != [] && p < BY2BLK
    requires var im1 := Turn(im, f, iblk, content[..Chunk(content)]); im1.ok && Extends(im1, im')
    ensures PlacedOk(im', f, iblk, content, p)
  {
    var k := Chunk(content);
    var im1 := PutData(im, im.next, content[..k]);
    ChunkKept(im, im', f, iblk, content);
    assert (BY2BLK * iblk + p) / BY2BLK == iblk && (BY2BLK * iblk + p) % BY2BLK == p;
    assert p < |content| ==> im1.data[im.next][p] == content[p];
  }

  /** The new block is linked at iblk, with the data that was read into it. */
  lemma ChunkKept(im: Image, im': Image, f: nat, iblk: nat, content: seq<nat>)
    requires Filling(im, f, iblk) && content != []
    requires var im1 := Turn(im, f, iblk, content[..Chunk(content)]); im1.ok && Extends(im1, im')
    ensures var im1 := PutData(im, im.next, content[..Chunk(content)]);
      && im.next < |im1.data| && |im1.data| == |im'.data| && |im1.data[im.next]| == BY2BLK
      && im'.data[im.next] == im1.data[im.next] && Value(im'.d, DataSlot(f, iblk)) == im.next != 0
  {
    var k := Chunk(content);
    var im1 := PutData(im, im.next, content[..k]);
    var im2, o := AddBlock(im1, f, iblk), DataSlot(f, iblk);
    PutDataTidy(im, content[..k]);
    assert RestZero(im, f, iblk, iblk);
    AddBlockEffect(im1, f, iblk, o);
    assert SlotKept(im2, im', o) && DataKept(im2, im', im.next);
  }

  lemma TurnLists(im: Image, f: nat, iblk: nat, chunk: seq<nat>, x: nat, c: nat)
    requires Filling(im, f, iblk) && |chunk| <= BY2BLK && Turn(im, f, iblk, chunk).ok && IsDir(im, x)
    ensures Lists(Turn(im, f, iblk, chunk), x, c) <==> Lists(im, x, c)
  {
    var im1 := PutData(im, im.next, chunk);
    PutDataTidy(im, chunk);
    forall i: nat ensures RestZero(im1, f, iblk, i) { assert RestZero(im, f, iblk, i); }
    AddBlockLists(im1, f, iblk, x, c);
    assert SameLists(im, im1, x, c);
  }

  lemma {:induction false} BlocksLists(im: Image, f: nat, iblk: nat, content: seq<nat>, x: nat, c: nat)
    requires Filling(im, f, iblk) && WriteBlocks(im, f, iblk, content).ok && IsDir(im, x)
    ensures var im' := WriteBlocks(im, f, iblk, content);
      (Lists(im', x, c) <==> Lists(im, x, c)) && im'.name == im.name
    decreases |content|
  {
    if content != [] {
      var k := Chunk(content);
      var im1 := Turn(im, f, iblk, content[..k]);
      BlocksOk(im1, f, iblk + 1, content[k..]);
      TurnKept(im, f, iblk, content[..k]);
      TurnLists(im, f, iblk, content[..k], x, c);
      assert FileKept(im, im1, x);
      BlocksLists(im1, f, iblk + 1, content[k..], x, c);
    }
  }

  // ----- whole trees

  lemma {:induction false} TreeOk(im: Image, x: nat, t: Tree)
    requires WriteTree(im, x, t).0.ok
    ensures im.ok
    decreases t
  {
    match t
    case Reg(nm, content) => BlocksOk(AddEntry(im, x, nm, FTYPE_REG, |content|).0, AddEntry(im, x, nm, FTYPE_REG, |content|).1, 0, content);
    case Dir(nm, ts) =>
      var (im1, c) := AddEntry(im, x, Clip(nm), FTYPE_DIR, 0);
      AllOk(im1, c, ts);
  }

  lemma {:induction false} AllOk(im: Image, x: nat, ts: seq<Tree>)
    requires WriteAll(im, x, ts).ok
    ensures im.ok
    decreases ts
  {
    if ts != [] {
      AllOk(WriteTree(im, x, ts[0]).0, x, ts[1..]);
      TreeOk(im, x, ts[0]);
    }
  }

  lemma AllFail(im: Image, x: nat, ts: seq<Tree>)
    requires !im.ok
    ensures !WriteAll(im, x, ts).ok
  {
    if WriteAll(im, x, ts).ok { AllOk(im, x, ts); }
  }

  ghost predicate Ready(im: Image, x: nat, t: Tree) {
    Tidy(im) && IsDir(im, x) && Good(t) && Absent(im, x, t.name)
  }

  /** What the new struct File of a tree looks like before its blocks or children are written. */
  lemma EntryReady(im: Image, x: nat, t: Tree)
    requires Ready(im, x, t)
    requires var size := if t.Reg? then |t.content| else 0; AddEntry(im, x, t.name, if t.Reg? then FTYPE_REG else FTYPE_DIR, size).0.ok
    ensures var size, ty := if t.Reg? then |t.content| else 0, if t.Reg? then FTYPE_REG else FTYPE_DIR;
      var (im1, c) := AddEntry(im, x, t.name, ty, size);
      && Extends(im, im1) && Found(im1, x, c) && !InUse(im, c) && IsDir(im1, x)
      && InUse(im1, c) && im1.name[c] == t.name && im1.ftype[c] == ty && Size(im1, c) == size
      && Tidy(im1) && (t.Reg? ==> Filling(im1, c, 0)) && (t.Dir? ==> forall nm: string :: Absent(im1, c, nm))
  {
    var size, ty := if t.Reg? then |t.content| else 0, if t.Reg? then FTYPE_REG else FTYPE_DIR;
    var (im1, c) := AddEntry(im, x, t.name, ty, size);
    AddTidy(im, x, t.name, ty, size);
    AddFound(im, x, t.name, ty, size);
    assert FileKept(im, im1, x);
    forall i: nat ensures RestZero(im1, c, 0, i) {}
    if t.Dir? {
      forall nm: string, f: nat ensures NotNamed(im1, c, f, nm) { AddLists(im, x, t.name, ty, size, c, f); }
    }
  }

  lemma FileWritten(im: Image, x: nat, t: Tree)
    requires Ready(im, x, t) && t.Reg? && WriteTree(im, x, t).0.ok
    ensures var (im', c) := WriteTree(im, x, t); Tidy(im') && Extends(im, im') && Found(im', x, c) && Stored(im', c, t)
  {
    var (im', c) := WriteTree(im, x, t);
    var im1 := AddEntry(im, x, t.name, FTYPE_REG, |t.content|).0;
    BlocksOk(im1, c, 0, t.content);
    EntryReady(im, x, t);
    BlocksWritten(im1, c, 0, t.content);
    ExtendsTransitive(im, im1, im');
    assert FileKept(im1, im', c) && FoundKept(im1, im', x, c);
    PlacedBytes(im', c, t.content);
  }

  lemma PlacedBytes(im: Image, f: nat, content: seq<nat>)
    requires forall p: nat :: PlacedOk(im, f, 0, content, p)
    ensures forall p: nat :: ByteOk(im, f, content, p)
  {
    forall p: nat ensures ByteOk(im, f, content, p) {
      assert PlacedOk(im, f, 0, content, p);
      assert BY2BLK * 0 + p == p;
    }
  }

  /** A written tree is found under its name and reads back as it was, and nothing else was lost. */
  lemma {:induction false} TreeWritten(im: Image, x: nat, t: Tree)
    requires Ready(im, x, t) && WriteTree(im, x, t).0.ok
    ensures var (im', c) := WriteTree(im, x, t); Tidy(im') && Extends(im, im') && Found(im', x, c) && Stored(im', c, t)
    decreases t
  {
    match t
    case Reg(nm, content) => FileWritten(im, x, t);
    case Dir(nm, ts) =>
      var (im', c) := WriteTree(im, x, t);
      var im1 := AddEntry(im, x, nm, FTYPE_DIR, 0).0;
      AllOk(im1, c, ts);
      EntryReady(im, x, t);
      AllWritten(im1, c, ts);
      ExtendsTransitive(im, im1, im');
      assert FileKept(im1, im', c) && FoundKept(im1, im', x, c);
  }

  lemma {:induction false} AllWritten(im: Image, x: nat, ts: seq<Tree>)
    requires Tidy(im) && IsDir(im, x) && AllGood(ts) && WriteAll(im, x, ts).ok
    requires forall k :: 0 <= k < |ts| ==> Absent(im, x, ts[k].name)
    ensures var im' := WriteAll(im, x, ts); Tidy(im') && Extends(im, im') && StoredAll(im', x, ts)
    decreases ts
  {
    if ts == [] {
      ExtendsSelf(im);
    } else {
      var (im1, c) := WriteTree(im, x, ts[0]);
      var rest := ts[1..];
      AllOk(im1, x, rest);
      TreeWritten(im, x, ts[0]);
      assert FileKept(im, im1, x);
      forall k | 0 <= k < |rest| ensures Absent(im1, x, rest[k].name) {
        assert rest[k] == ts[k + 1];
        TreeAbsent(im, x, ts[0], x, rest[k].name);
      }
      AllWritten(im1, x, rest);
      var im' := WriteAll(im1, x, rest);
      ExtendsTransitive(im, im1, im');
      StoredInKept(im1, im', x, ts[0]);
      forall k | 0 <= k < |ts| ensures StoredIn(im', x, ts[k]) {
        if k > 0 { assert rest[k - 1] == ts[k]; }
      }
    }
  }

  /** Writing a tree puts no other name into any directory that was there. */
  lemma {:induction false} TreeAbsent(im: Image, x: nat, t: Tree, y: nat, other: string)
    requires Ready(im, x, t) && WriteTree(im, x, t).0.ok
    requires IsDir(im, y) && Absent(im, y, other) && (y != x || other != t.name)
    ensures Absent(WriteTree(im, x, t).0, y, other)
    decreases t
  {
    var (im', c) := WriteTree(im, x, t);
    match t
    case Reg(nm, content) =>
      var im1 := AddEntry(im, x, nm, FTYPE_REG, |content|).0;
      BlocksOk(im1, c, 0, content);
      EntryReady(im, x, t);
      AddAbsent(im, x, nm, FTYPE_REG, |content|, y, other);
      assert FileKept(im, im1, y);
      forall f: nat ensures NotNamed(im', y, f, other) {
        BlocksLists(im1, c, 0, content, y, f);
        assert NotNamed(im1, y, f, other);
      }
    case Dir(nm, ts) =>
      var im1 := AddEntry(im, x, nm, FTYPE_DIR, 0).0;
      AllOk(im1, c, ts);
      EntryReady(im, x, t);
      AddAbsent(im, x, nm, FTYPE_DIR, 0, y, other);
      assert FileKept(im, im1, y);
      AllAbsent(im1, c, ts, y, other);
  }

  lemma {:induction false} AllAbsent(im: Image, x: nat, ts: seq<Tree>, y: nat, other: string)
    requires Tidy(im) && IsDir(im, x) && AllGood(ts) && WriteAll(im, x, ts).ok
    requires forall k :: 0 <= k < |ts| ==> Absent(im, x, ts[k].name)
    requires IsDir(im, y) && Absent(im, y, other) && y != x
    ensures Absent(WriteAll(im, x, ts), y, other)
    decreases ts
  {
    if ts != [] {
      var im1, rest := WriteTree(im, x, ts[0]).0, ts[1..];
      AllOk(im1, x, rest);
      TreeWritten(im, x, ts[0]);
      assert FileKept(im, im1, x) && FileKept(im, im1, y);
      TreeAbsent(im, x, ts[0], y, other);
      forall k | 0 <= k < |rest| ensures Absent(im1, x, rest[k].name) {
        assert rest[k] == ts[k + 1];
        TreeAbsent(im, x, ts[0], x, rest[k].name);
      }
      AllAbsent(im1, x, rest, y, other);
    }
  }

  // ----- the finished image

  lemma InitTidy(n: nat)
    requires InitDisk(n).ok
    ensures Tidy(InitDisk(n)) && forall nm: string :: Absent(InitDisk(n), 0, nm)
  {}

  /** The image of any list of trees with good names that fits on the disk: every tree is found in the root
      and reads back exactly, every block number names its own block in use, every block in use is named,
      and the bitmap that goes with it marks block i free iff nextbno <= i < n. */
  lemma ImageSound(n: nat, ts: seq<Tree>, b: nat)
    requires AllGood(ts) && WriteAll(InitDisk(n), 0, ts).ok
    ensures var im := WriteAll(InitDisk(n), 0, ts);
      && StoredAll(im, 0, ts) && Owned(im.d) && NoLeak(im.d)
      && im.next <= n && (Free(im.d, b) <==> im.next <= b < n)
  {
    var im := WriteAll(InitDisk(n), 0, ts);
    AllOk(InitDisk(n), 0, ts);
    InitTidy(n);
    AllWritten(InitDisk(n), 0, ts);
    BitsFromFree(im.d.n, im.next, b);
    forall c: nat | im.d.lo <= c < im.d.n && !Free(im.d, c) ensures exists p: Slot :: OwnedBlock(im.d, c, p) {
      BitsFromFree(im.d.n, im.next, c);
      assert Linked(im, c);
    }
  }

  /** On the finished image, what dir_lookup promises about a struct File it returns leaves it one choice:
      the root of the tree written under that name. */
  lemma LookupFinds(im: Image, x: nat, t: Tree, i: nat, c: nat)
    requires StoredIn(im, x, t) && t.name != "" && c < |im.name|
    requires ListedAt(im.d, x, i, c) && im.name[c] == t.name
    ensures Found(im, x, c) && Stored(im, c, t)
  {
    var root: nat :| Found(im, x, root) && Stored(im, root, t);
    assert HoldsAt(im, x, i, c);
    assert SameName(im, x, c, root);
  }

  /** And the search does not miss it, nor meet a hole on the way. */
  lemma LookupSucceeds(im: Image, x: nat, t: Tree, i: nat)
    requires Tidy(im) && IsDir(im, x) && StoredIn(im, x, t)
    ensures i < Size(im, x) / BY2BLK ==> Value(im.d, DataSlot(x, i)) != 0
    ensures exists j: nat, c: nat :: ListedAt(im.d, x, j, c) && c < |im.name| && im.name[c] == t.name
  {
    assert DirOk(im, x, i);
    var c: nat :| Found(im, x, c) && Stored(im, c, t);
    var j: nat :| HoldsAt(im, x, j, c);
  }
}
