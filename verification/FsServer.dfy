/** The file server's block operations as fs/fs.c runs them: on the bitmap, the block cache and the File
    records in place.  Each is proved against its function in module Fs. */
module FsServer {
  import opened Common
  import opened Bits
  import opened Fs
  import opened FsTheorems

  class Server {
    const n: nat                     // super->s_nblocks
    const lo: nat                    // the first data block
    const bitmap: array<Word>
    const block: array<seq<nat>>     // the words of each block, as the cache shows them
    const file: array<File>
    const name: array<string>        // f_name of each struct File, numbered as in ListedAt
    const ftype: array<nat>          // f_type
    var cached: set<nat>             // the blocks that block_is_mapped accepts

    /** fs_init on a disk image: the super block gives n, and blocks 2, 3, … hold the bitmap. */
    constructor (n: nat, lo: nat, bitmap: seq<Word>, block: seq<seq<nat>>, file: seq<File>, name: seq<string>, ftype: seq<nat>)
      ensures S() == Disk(n, lo, bitmap, block, {}, file) && this.name[..] == name && this.ftype[..] == ftype
      ensures fresh(this.bitmap) && fresh(this.block) && fresh(this.file) && fresh(this.name) && fresh(this.ftype)
    {
      this.n, this.lo, cached := n, lo, {};
      this.bitmap := new Word[|bitmap|](i requires 0 <= i < |bitmap| => bitmap[i]);
      this.block := new seq<nat>[|block|](i requires 0 <= i < |block| => block[i]);
      this.file := new File[|file|](i requires 0 <= i < |file| => file[i]);
      this.name := new string[|name|](i requires 0 <= i < |name| => name[i]);
      this.ftype := new nat[|ftype|](i requires 0 <= i < |ftype| => ftype[i]);
      new;
      assert this.bitmap[..] == bitmap && this.block[..] == block && this.file[..] == file;
      assert this.name[..] == name && this.ftype[..] == ftype;
    }

    function S(): Disk
      reads this, bitmap, block, file
    {
      Disk(n, lo, bitmap[..], block[..], cached, file[..])
    }

    function BlockIsFree(b: nat): (r: bool)
      requires n <= 32 * bitmap.Length
      reads this, bitmap
      ensures r <==> BitFree(n, bitmap[..], b)
    {
      if b >= n then false else b % 32 in bitmap[b / 32]
    }

    /** read_bitmap: its assertions hold iff block 0, the super block and the bitmap blocks are in use. */
    method ReadBitmap() returns (ok: bool)
      requires n <= 32 * bitmap.Length
      ensures ok <==> forall b: nat :: b < 2 + BitBlocks(n) ==> !BlockIsFree(b)
    {
      var nbitmap := n / BIT2BLK + if n % BIT2BLK != 0 then 1 else 0;
      ok := !BlockIsFree(0) && !BlockIsFree(1);
      for i := 0 to nbitmap
        invariant ok <==> forall b: nat :: b < 2 + i ==> !BlockIsFree(b)
      {
        ok := ok && !BlockIsFree(i + 2);
      }
    }

    method FreeBlock(b: nat)
      requires Shape(S())
      modifies bitmap
      ensures S() == Fs.FreeBlock(old(S()), b)
    {
      if b == 0 || b >= n { return; }
      bitmap[b / 32] := bitmap[b / 32] + {b % 32};
    }

    method AllocBlockNum() returns (r: int)
      requires Shape(S())
      modifies bitmap
      ensures var b := FirstFree(old(S()), 3);
        if b >= n then r == -E_NO_DISK && S() == old(S())
        else r == b && S() == old(S()).(bitmap := Clear(old(bitmap[..]), b))
    {
      var bno := 3;
      while bno < n
        invariant 3 <= bno && FirstFree(S(), bno) == FirstFree(S(), 3)
        invariant S() == old(S())
      {
        if bno % 32 in bitmap[bno / 32] {
          bitmap[bno / 32] := bitmap[bno / 32] - {bno % 32};
          return bno;
        }
        bno := bno + 1;
      }
      return -E_NO_DISK;
    }

    method MapBlock(b: nat, room: bool) returns (r: int)
      requires Shape(S()) && b < n
      modifies this`cached, block
      ensures r == if b in old(cached) || room then 0 else -E_NO_MEM
      ensures S() == if r == 0 then Fs.MapBlock(old(S()), b) else old(S())
    {
      if b in cached { return 0; }
      if !room { return -E_NO_MEM; }
      block[b] := ZeroBlock();
      cached := cached + {b};
      return 0;
    }

    method AllocBlock(room: bool) returns (r: int)
      requires Shape(S())
      modifies this`cached, bitmap, block
      ensures (S(), r) == Fs.AllocBlock(old(S()), room)
    {
      ghost var d, b := S(), FirstFree(S(), 3);
      r := AllocBlockNum();
      if r < 0 { return; }
      var bno := r;
      assert 3 <= bno < n && Free(d, bno);
      ShapeKept(d, bno);
      r := MapBlock(bno, room);
      if r < 0 {
        assert S() == d.(bitmap := Clear(d.bitmap, bno));
        FreeBlock(bno);
        SetClear(d.bitmap, bno);
        return;
      }
      return bno;
    }

    method ReadBlock(b: nat)
      requires Shape(S()) && b < n && !Free(S(), b)      // anything else panics
      modifies this`cached
      ensures S() == Fs.ReadBlock(old(S()), b)
    {
      cached := cached + {b};
    }

    /** The pointer is the slot of the block in the file, or of the word in the indirect block. */
    method FileBlockWalk(f: nat, bno: nat, alloc: bool, room: bool) returns (r: int, ptr: Slot)
      requires Owned(S()) && f < file.Length
      modifies this`cached, bitmap, block, file
      ensures (S(), r) == Walk(old(S()), f, bno, alloc, room)
      ensures r == 0 ==> ptr == DataSlot(f, bno)
    {
      ptr := Direct(f, bno);
      if bno < NDIRECT {
        r := 0;
      } else if bno < NINDIRECT {
        if file[f].indirect == 0 {
          if !alloc { r := -E_NOT_FOUND; return; }
          ghost var d := S();
          r := AllocBlock(room);
          if r < 0 { return; }
          ClaimEffect(d, Indirect(f), r);
          file[f] := file[f].(indirect := r);
        } else {
          assert SlotOk(S(), Indirect(f));
        }
        ReadBlock(file[f].indirect);
        ptr := Entry(f, bno);
        r := 0;
      } else {
        r := -E_INVAL;
      }
    }

    /** `*ptr` */
    function Load(ptr: Slot): (x: nat)
      reads this, bitmap, block, file
      ensures x == Value(S(), ptr)
    {
      Value(S(), ptr)
    }

    /** `*ptr = x` */
    method Store(ptr: Slot, x: nat)
      requires Shape(S()) && GoodSlot(S(), ptr) && !ptr.Indirect? && (ptr.Entry? ==> file[ptr.f].indirect < n)
      modifies block, file
      ensures S() == SetSlot(old(S()), ptr, x)
    {
      match ptr
      case Direct(f, i) =>
        file[f] := file[f].(direct := file[f].direct[i := x]);
      case Entry(f, i) =>
        var b := file[f].indirect;
        block[b] := block[b][i := x];
      case Indirect(f) =>
    }

    /** Needs what MapOwned needs: an indirect block that is created comes clean. */
    method FileMapBlock(f: nat, bno: nat, alloc: bool, rooms: (bool, bool)) returns (r: int)
      requires Owned(S()) && f < file.Length && (Creates(S(), f, bno, alloc) ==> CleanNext(S()))
      modifies this`cached, bitmap, block, file
      ensures (S(), r) == Map(old(S()), f, bno, alloc, rooms) && Owned(S())
    {
      MapOwned(S(), f, bno, alloc, rooms);
      WalkOwned(S(), f, bno, alloc, rooms.0);
      var ptr;
      r, ptr := FileBlockWalk(f, bno, alloc, rooms.0);
      if r < 0 { return; }
      if Load(ptr) == 0 {
        if !alloc { r := -E_NOT_FOUND; return; }
        r := AllocTo(ptr, rooms.1);
        return;
      }
      r := Load(ptr);
    }

    /** The branch of file_map_block for a block that does not exist yet. */
    method AllocTo(ptr: Slot, room: bool) returns (r: int)
      requires Owned(S()) && GoodSlot(S(), ptr) && !ptr.Indirect?
      modifies this`cached, bitmap, block, file
      ensures var (d, x) := Fs.AllocBlock(old(S()), room); r == x && S() == if r < 0 then d else SetSlot(d, ptr, r)
    {
      ghost var d := S();
      r := AllocBlock(room);
      if r < 0 { return; }
      ClaimEffect(d, ptr, r);
      assert SlotOk(d, Indirect(ptr.f));
      Store(ptr, r);
    }

    method FileGetBlock(f: nat, bno: nat, rooms: (bool, bool)) returns (r: int, blk: nat)
      requires Owned(S()) && f < file.Length && (Creates(S(), f, bno, true) ==> CleanNext(S()))
      modifies this`cached, bitmap, block, file
      ensures (S(), r) == GetBlock(old(S()), f, bno, rooms) && Owned(S())
      ensures r == 0 ==> blk == Value(S(), DataSlot(f, bno))
    {
      MapOwned(S(), f, bno, true, rooms);
      r := FileMapBlock(f, bno, true, rooms);
      blk := 0;
      if r < 0 { return; }
      blk := r;
      ReadOwned(S(), blk);
      assert SlotOk(S(), DataSlot(f, bno));
      ReadBlock(blk);
      r := 0;
    }

    /** Finds a struct File of that name in the blocks of the directory, and fails only if there is none. */
    method DirLookup(dir: nat, nm: string, rooms: (bool, bool)) returns (r: int, c: nat)
      requires Owned(S()) && dir < file.Length && name.Length == 1 + FILE2BLK * n
      requires forall i: nat :: NoHole(S(), dir, i)
      modifies this`cached, bitmap, block, file
      ensures Owned(S()) && S() == old(S()).(cached := cached) && (r == 0 || r == -E_NOT_FOUND)
      ensures r == 0 ==> c < name.Length && name[c] == nm && exists i: nat :: ListedAt(S(), dir, i, c)
      ensures r != 0 ==> forall i: nat, k: nat :: NotThere(S(), name[..], dir, nm, i, k)
    {
      ghost var d := S();
      var nblk := file[dir].size / BY2BLK;
      c := 0;
      for i := 0 to nblk
        invariant Owned(S()) && S() == d.(cached := cached)
        invariant forall j: nat, k: nat :: j < i ==> NotThere(d, name[..], dir, nm, j, k)
      {
        var blk;
        assert NoHole(d, dir, i);
        GetKnown(S(), dir, i, rooms);
        r, blk := FileGetBlock(dir, i, rooms);
        assert SlotOk(S(), DataSlot(dir, i));
        c := SearchBlock(nm, blk);
        if c > 0 {
          assert ListedAt(S(), dir, i, c);
          return 0, c;
        }
      }
      forall i: nat, k: nat ensures NotThere(S(), name[..], dir, nm, i, k) {
        assert NotThere(d, name[..], dir, nm, i, k);
      }
      r := -E_NOT_FOUND;
    }

    /** The inner loop of dir_lookup, over the struct Files of one block; 0 means not found. */
    method SearchBlock(nm: string, blk: nat) returns (c: nat)
      requires 1 + FILE2BLK * blk + FILE2BLK <= name.Length
      ensures c > 0 ==> c < name.Length && name[c] == nm && (c - 1) / FILE2BLK == blk
      ensures c == 0 ==> forall k: nat :: 0 < k < name.Length && (k - 1) / FILE2BLK == blk ==> name[k] != nm
    {
      for k := 0 to FILE2BLK
        invariant forall j: nat :: 1 + FILE2BLK * blk <= j < 1 + FILE2BLK * blk + k ==> name[j] != nm
      {
        if name[1 + FILE2BLK * blk + k] == nm { return 1 + FILE2BLK * blk + k; }
      }
      c := 0;
    }

    /** walk_path; `c` is the struct File it finds. */
    method WalkPath(path: string, rooms: (bool, bool)) returns (r: int, c: nat)
      requires Owned(S()) && 0 < file.Length <= ftype.Length && name.Length == 1 + FILE2BLK * n == file.Length
      requires forall x: nat, i: nat :: x < ftype.Length && ftype[x] == FTYPE_DIR ==> NoHole(S(), x, i)
      modifies this`cached, bitmap, block, file
      ensures S() == old(S()).(cached := cached)
      ensures Leads(old(S()), name[..], ftype[..], 0, Names(path), r, c)
    {
      ghost var d := S();
      c := 0;
      var p := SkipSlash(path);
      while |p| > 0
        invariant Owned(S()) && S() == d.(cached := cached) && c < file.Length
        invariant |p| > 0 ==> p[0] != '/'
        invariant forall r1: int, c1: nat ::
          Leads(d, name[..], ftype[..], c, Names(p), r1, c1) ==> Leads(d, name[..], ftype[..], 0, Names(path), r1, c1)
        decreases |p|
      {
        ghost var x, ns := c, Names(p);
        var nm := NextName(p);
        if |nm| >= MAXNAMELEN {
          assert Leads(d, name[..], ftype[..], x, ns, -E_BAD_PATH, c);
          return -E_BAD_PATH, c;
        }
        if ftype[c] != FTYPE_DIR {
          assert Leads(d, name[..], ftype[..], x, ns, -E_NOT_FOUND, c);
          return -E_NOT_FOUND, c;
        }
        r, c := LookupIn(d, c, nm, rooms);
        if r < 0 {
          assert Leads(d, name[..], ftype[..], x, ns, r, c);
          return;
        }
        NamesStep(p);
        p := SkipSlash(p[|nm|..]);
        ghost var i: nat :| Carries(d, name[..], x, nm, i, c);
        forall r1: int, c1: nat | Leads(d, name[..], ftype[..], c, Names(p), r1, c1)
          ensures Leads(d, name[..], ftype[..], 0, Names(path), r1, c1)
        {
          assert Leads(d, name[..], ftype[..], x, ns, r1, c1);
        }
      }
      r := 0;
      assert Leads(d, name[..], ftype[..], c, Names(p), r, c);
    }

    /** dir_lookup as walk_path uses it, for a disk that is d but for the cache. */
    method LookupIn(ghost d: Disk, dir: nat, nm: string, rooms: (bool, bool)) returns (r: int, c: nat)
      requires Owned(S()) && S() == d.(cached := cached) && dir < file.Length && name.Length == 1 + FILE2BLK * n == file.Length
      requires forall i: nat :: NoHole(d, dir, i)
      modifies this`cached, bitmap, block, file
      ensures Owned(S()) && S() == d.(cached := cached) && (r == 0 || r == -E_NOT_FOUND)
      ensures r == 0 ==> c < file.Length && exists i: nat :: Carries(d, name[..], dir, nm, i, c)
      ensures r != 0 ==> forall i: nat, y: nat :: !Carries(d, name[..], dir, nm, i, y)
    {
      forall i: nat ensures NoHole(S(), dir, i) { assert NoHole(d, dir, i); }
      r, c := DirLookup(dir, nm, rooms);
      if r == 0 {
        ghost var i: nat :| ListedAt(S(), dir, i, c);
        assert Carries(d, name[..], dir, nm, i, c);
      } else {
        forall i: nat, y: nat ensures !Carries(d, name[..], dir, nm, i, y) { assert NotThere(S(), name[..], dir, nm, i, y); }
      }
    }

    method FileClearBlock(f: nat, bno: nat)
      requires Owned(S()) && f < file.Length
      modifies this`cached, bitmap, block, file
      ensures S() == ClearBlock(old(S()), f, bno) && Owned(S())
    {
      ClearOwned(S(), f, bno);
      WalkOwned(S(), f, bno, false, false);
      var r, ptr := FileBlockWalk(f, bno, false, false);
      if r < 0 { return; }
      if Load(ptr) != 0 {
        ghost var d := S();
        assert SlotOk(d, ptr) && SlotOk(d, Indirect(f));
        FreeEffect(d, Load(ptr), ptr);
        FreeBlock(Load(ptr));
        Store(ptr, 0);
      }
    }

    method FileTruncate(f: nat, newsize: nat)
      requires Owned(S()) && f < file.Length
      modifies this`cached, bitmap, block, file
      ensures S() == Truncate(old(S()), f, newsize) && Owned(S())
    {
      TruncateExact(S(), f, newsize, Indirect(f), 0);
      var oldBlocks := file[f].size / BY2BLK + 1;
      var newBlocks := if newsize == 0 then 0 else newsize / BY2BLK + 1;
      CutBlocks(f, newBlocks, oldBlocks);
      file[f] := file[f].(size := newsize);
    }

    method CutBlocks(f: nat, newBlocks: nat, oldBlocks: nat)
      requires Owned(S()) && f < file.Length
      modifies this`cached, bitmap, block, file
      ensures var d := ClearFrom(old(S()), f, newBlocks, oldBlocks);
        S() == if newBlocks <= NDIRECT then FreeIndirect(d, f) else d
    {
      if newBlocks <= NDIRECT {
        ClearRange(f, newBlocks, oldBlocks);
        DropIndirect(f);
      } else {
        ClearRange(f, newBlocks, oldBlocks);
      }
    }

    /** The loop both branches of file_truncate run. */
    method ClearRange(f: nat, from: nat, end: nat)
      requires Owned(S()) && f < file.Length
      modifies this`cached, bitmap, block, file
      ensures S() == ClearFrom(old(S()), f, from, end) && Owned(S())
    {
      var bno := from;
      while bno < end
        invariant from <= bno && Owned(S())
        invariant ClearFrom(S(), f, bno, end) == ClearFrom(old(S()), f, from, end)
      {
        FileClearBlock(f, bno);
        bno := bno + 1;
      }
    }

    method DropIndirect(f: nat)
      requires Owned(S()) && f < file.Length
      modifies bitmap, file
      ensures S() == FreeIndirect(old(S()), f)
    {
      if file[f].indirect != 0 {
        assert SlotOk(S(), Indirect(f));
        FreeBlock(file[f].indirect);
        file[f] := file[f].(indirect := 0);
      }
    }

    method FileSetSize(f: nat, newsize: nat)
      requires Owned(S()) && f < file.Length
      modifies this`cached, bitmap, block, file
      ensures S() == SetSize(old(S()), f, newsize) && Owned(S())
    {
      SizeFieldOwned(S(), f, newsize);
      if file[f].size > newsize {
        FileTruncate(f, newsize);
      }
      file[f] := file[f].(size := newsize);
    }
  }

  lemma ShapeKept(d: Disk, b: nat)
    requires Shape(d) && b < d.n
    ensures Shape(d.(bitmap := Clear(d.bitmap, b)))
  {
    forall x: nat | x < d.lo ensures !BitFree(d.n, Clear(d.bitmap, b), x) { FreeAfter(d, b, x); }
  }

  // ----- paths

  function SkipSlash(path: string): (r: string)
    ensures |r| <= |path| && (|r| > 0 ==> r[0] != '/')
  {
    if |path| > 0 && path[0] == '/' then SkipSlash(path[1..]) else path
  }

  /** The characters up to the next slash. */
  function NextName(path: string): (r: string)
    ensures r <= path && '/' !in r && (|path| > 0 && path[0] != '/' ==> |r| > 0)
  {
    if |path| == 0 || path[0] == '/' then "" else [path[0]] + NextName(path[1..])
  }

  /** The names in a path. */
  function Names(path: string): seq<string>
    decreases |path|
  {
    var p := SkipSlash(path);
    if |p| == 0 then []
    else
      var nm := NextName(p);
      assert 0 < |nm| <= |p|;
      [nm] + Names(p[|nm|..])
  }

  lemma NamesStep(p: string)
    requires |p| > 0 && p[0] != '/'
    ensures Names(p) == [NextName(p)] + Names(SkipSlash(p[|NextName(p)|..]))
  {}

  predicate Carries(d: Disk, name: seq<string>, x: nat, nm: string, i: nat, c: nat) {
    c < |name| && ListedAt(d, x, i, c) && name[c] == nm
  }

  /** What the names lead to from struct File x: a code, and struct File c when it is 0. */
  ghost predicate Leads(d: Disk, name: seq<string>, ftype: seq<nat>, x: nat, names: seq<string>, r: int, c: nat)
    decreases |names|
  {
    if names == [] then r == 0 && c == x
    else if |names[0]| >= MAXNAMELEN then r == -E_BAD_PATH
    else if x >= |ftype| || ftype[x] != FTYPE_DIR then r == -E_NOT_FOUND
    else
      || (exists i: nat, y: nat :: Carries(d, name, x, names[0], i, y) && Leads(d, name, ftype, y, names[1..], r, c))
      || (r == -E_NOT_FOUND && forall i: nat, y: nat :: !Carries(d, name, x, names[0], i, y))
  }

  /** The blocks a directory's size speaks of are all there. */
  predicate NoHole(d: Disk, dir: nat, i: nat) {
    i < FileAt(d, dir).size / BY2BLK ==> Value(d, DataSlot(dir, i)) != 0
  }

  predicate NotThere(d: Disk, name: seq<string>, dir: nat, nm: string, i: nat, c: nat) {
    c < |name| && ListedAt(d, dir, i, c) ==> name[c] != nm
  }

  /** file_get_block of a block that exists only fills the cache. */
  lemma GetKnown(d: Disk, f: nat, bno: nat, rooms: (bool, bool))
    requires Owned(d) && f < |d.file| && Value(d, DataSlot(f, bno)) != 0
    ensures !Creates(d, f, bno, true)
    ensures var (d', r) := GetBlock(d, f, bno, rooms); r == 0 && d' == d.(cached := d'.cached)
  {
    assert SlotOk(d, Indirect(f));
  }
}
