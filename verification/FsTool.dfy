/** The image writer as tools/fsformat.c runs it: on the disk array and the bytes of its bitmap, in place. */
module FsTool {
  import opened Bits
  import opened Fs
  import opened FsTheorems
  import opened Fsformat
  import opened FsformatDir
  import opened FsformatTree

  type Byte = set<nat>

  // ----- the bitmap in bytes

  /** Bit i of a little-endian bitmap. */
  predicate BitAt(bytes: seq<Byte>, i: nat) {
    i / 8 < |bytes| && i % 8 in bytes[i / 8]
  }

  predicate BitIs(bytes: seq<Byte>, lo: nat, i: nat, hi: nat) {
    BitAt(bytes, i) <==> lo <= i < hi
  }

  /** The same bytes as the file server reads them, in words. */
  function WordsOf(bytes: seq<Byte>): (r: seq<Word>)
    ensures |r| == |bytes| / 4
  {
    seq(|bytes| / 4, w requires 0 <= w < |bytes| / 4 => set j: nat | j < 32 && WordBit(bytes, w, j))
  }

  predicate WordBit(bytes: seq<Byte>, w: nat, j: nat) {
    4 * w + j / 8 < |bytes| && j % 8 in bytes[4 * w + j / 8]
  }

  /** block_is_free reads the bit that is at place i in the bytes. */
  lemma WordsBit(bytes: seq<Byte>, i: nat)
    requires |bytes| % 4 == 0
    ensures In(WordsOf(bytes), i) <==> BitAt(bytes, i)
  {}

  /** The bitmap the tool leaves: memset works in whole bytes, so the last n % 8 blocks are never marked
      free. It is right for every block exactly when n is a multiple of 8 or no block is left. */
  lemma BitmapExact(n: nat, next: nat)
    requires next <= n
    ensures (forall i: nat :: TailOk(n, next, i)) <==> n % 8 == 0 || next == n
  {
    if n % 8 != 0 && next != n { assert !TailOk(n, next, n - 1); }
  }

  predicate TailOk(n: nat, next: nat, i: nat) {
    next <= i < 8 * (n / 8) <==> next <= i < n
  }

  lemma WordsAre(n: nat, next: nat, bytes: seq<Byte>)
    requires n % 8 == 0 && |bytes| == BY2BLK * BitBlocks(n) && forall i: nat :: BitIs(bytes, next, i, n)
    ensures WordsOf(bytes) == BitsFrom(n, next)
  {
    var x, y := WordsOf(bytes), BitsFrom(n, next);
    forall w | 0 <= w < |x| ensures x[w] == y[w] {
      forall j: nat ensures j in x[w] <==> j in y[w] {
        if j < 32 {
          var i := 32 * w + j;
          assert BitIs(bytes, next, i, n);
          assert i / 8 == 4 * w + j / 8 && i % 8 == j % 8;
        }
      }
    }
  }

  /** Where bit i lies: block, word in the block, bit in the word. */
  lemma BitPlace(n: nat, i: nat)
    requires i < n
    ensures i == 8 * (BY2BLK * (i / BIT2BLK) + 4 * (i % BIT2BLK / 32)) + i % 32
    ensures BY2BLK * (i / BIT2BLK) + 4 * (i % BIT2BLK / 32) + 3 < BY2BLK * BitBlocks(n)
  {
    assert i / BIT2BLK < BitBlocks(n);
  }

  class Formatter {
    const n: nat                          // NBLOCK
    const bits: array<Byte>               // the data of the bitmap blocks
    const block: array<seq<nat>>          // the words of each block
    const data: array<seq<nat>>           // the bytes of each block
    const file: array<File>
    const name: array<string>
    const ftype: array<nat>
    var nextbno: nat
    var ok: bool

    function S(): Image
      reads this, block, data, file, name, ftype
    {
      Image(Disk(n, 2 + BitBlocks(n), BitsFrom(n, nextbno), block[..], AllBlocks(n), file[..]),
            nextbno, name[..], ftype[..], data[..], ok)
    }

    /** init_disk, without the bitmap */
    constructor (n: nat)
      ensures S() == InitDisk(n) && this.n == n && bits.Length == BY2BLK * BitBlocks(n)
      ensures fresh(bits) && fresh(block) && fresh(data) && fresh(file) && fresh(name) && fresh(ftype)
      ensures block != data
    {
      var files := 1 + FILE2BLK * n;
      this.n := n;
      bits := new Byte[BY2BLK * BitBlocks(n)](_ => {});
      block := new seq<nat>[n](_ => ZeroBlock());
      data := new seq<nat>[n](_ => seq(BY2BLK, _ => 0));
      file := new File[files](_ => BlankFile());
      name := new string[files](i => if i == 0 then "/" else "");
      ftype := new nat[files](i => if i == 0 then FTYPE_DIR else 0);
      nextbno := 2 + BitBlocks(n);
      ok := 2 + BitBlocks(n) <= n;
      new;
      assert block[..] == InitDisk(n).d.block;
      assert data[..] == InitDisk(n).data;
      assert file[..] == InitDisk(n).d.file;
      assert name[..] == InitDisk(n).name;
      assert ftype[..] == InitDisk(n).ftype;
    }

    method Memset(from: nat, to: nat, value: Byte)
      requires from <= to <= bits.Length
      modifies bits
      ensures forall k :: 0 <= k < bits.Length ==> bits[k] == if from <= k < to then value else old(bits[k])
    {
      for k := from to to
        invariant forall j :: 0 <= j < bits.Length ==> bits[j] == if from <= j < k then value else old(bits[j])
      {
        bits[k] := value;
      }
    }

    /** The bitmap part of init_disk. */
    method InitBitmap()
      requires bits.Length == BY2BLK * BitBlocks(n)
      modifies bits
      ensures forall i: nat :: BitIs(bits[..], 0, i, 8 * (n / 8))
    {
      var all: Byte := {0, 1, 2, 3, 4, 5, 6, 7};
      var nbitblock := n / BIT2BLK + if n % BIT2BLK != 0 then 1 else 0;
      for i := 0 to nbitblock
        invariant forall k :: 0 <= k < BY2BLK * i ==> bits[k] == all
      {
        Memset(BY2BLK * i, BY2BLK * i + BY2BLK, all);
      }
      if n != nbitblock * BIT2BLK {
        var diff := n % BIT2BLK / 8;
        Memset(BY2BLK * (nbitblock - 1) + diff, BY2BLK * nbitblock, {});
      }
      forall i: nat ensures BitIs(bits[..], 0, i, 8 * (n / 8)) {
        assert i / 8 < n / 8 <==> i < 8 * (n / 8);
      }
    }

    /** `word[k] &= ~(1 << j)` in bitmap block blk */
    method ClearBit(blk: nat, k: nat, j: nat)
      requires BY2BLK * blk + 4 * k + 3 < bits.Length && j < 32
      modifies bits
      ensures forall i: nat :: BitAt(bits[..], i) <==> old(BitAt(bits[..], i)) && i != 8 * (BY2BLK * blk + 4 * k) + j
    {
      var b := BY2BLK * blk + 4 * k + j / 8;
      bits[b] := bits[b] - {j % 8};
      forall i: nat ensures BitAt(bits[..], i) <==> old(BitAt(bits[..], i)) && i != 8 * (BY2BLK * blk + 4 * k) + j {
        assert i == 8 * (BY2BLK * blk + 4 * k) + j <==> i / 8 == b && i % 8 == j % 8;
      }
    }

    /** flush_bitmap */
    method FlushBitmap()
      requires bits.Length == BY2BLK * BitBlocks(n) && nextbno <= n
      requires forall i: nat :: BitIs(bits[..], 0, i, 8 * (n / 8))
      modifies bits
      ensures forall i: nat :: BitIs(bits[..], nextbno, i, 8 * (n / 8))
      ensures n % 8 == 0 ==> WordsOf(bits[..]) == S().d.bitmap
    {
      ClearUsed();
      if n % 8 == 0 {
        assert 8 * (n / 8) == n;
        WordsAre(n, nextbno, bits[..]);
      }
    }

    method ClearUsed()
      requires bits.Length == BY2BLK * BitBlocks(n) && nextbno <= n
      requires forall i: nat :: BitIs(bits[..], 0, i, 8 * (n / 8))
      modifies bits
      ensures forall i: nat :: BitIs(bits[..], nextbno, i, 8 * (n / 8))
    {
      ghost var hi := 8 * (n / 8);
      for i := 0 to nextbno
        invariant forall j: nat :: BitIs(bits[..], i, j, hi)
      {
        BitPlace(n, i);
        ghost var was, up := bits[..], i + 1;
        ClearBit(i / BIT2BLK, i % BIT2BLK / 32, i % 32);
        forall j: nat ensures BitIs(bits[..], up, j, hi) { assert BitIs(was, i, j, hi); }
      }
    }

    // ----- writing files

    method NextBlock() returns (bno: nat)
      requires Core(S()) && ok
      modifies this`nextbno, this`ok
      ensures bno == old(nextbno) && S() == Fsformat.NextBlock(old(S()))
    {
      bno := nextbno;
      if nextbno >= n { ok := false; return; }
      nextbno := nextbno + 1;
      ClearBits(n, bno);
      assert IsBlock(n, bno);
    }

    method SaveBlockLink(f: nat, nblk: nat, bno: nat)
      requires Core(S()) && ok && f < file.Length
      modifies this`nextbno, this`ok, block, file
      ensures ok == Fsformat.SaveBlockLink(old(S()), f, nblk, bno).ok
      ensures ok ==> S() == Fsformat.SaveBlockLink(old(S()), f, nblk, bno)
    {
      if nblk >= NINDIRECT { ok := false; return; }
      if nblk < NDIRECT {
        file[f] := file[f].(direct := file[f].direct[nblk := bno]);
      } else {
        if file[f].indirect == 0 {
          var b := NextBlock();
          if !ok { return; }
          file[f] := file[f].(indirect := b);
        } else {
          assert SlotOk(S().d, Indirect(f));
        }
        var b := file[f].indirect;
        block[b] := block[b][nblk := bno];
      }
    }

    method MakeLinkBlock(x: nat, nblk: nat) returns (bno: nat)
      requires Core(S()) && ok && x < file.Length
      modifies this`nextbno, this`ok, block, file
      ensures ok == Fsformat.MakeLinkBlock(old(S()), x, nblk).ok && bno == old(nextbno)
      ensures ok ==> S() == Fsformat.MakeLinkBlock(old(S()), x, nblk)
    {
      ghost var im := S();
      bno := NextBlock();
      if !ok { return; }
      NextEffect(im, Indirect(x));
      SaveBlockLink(x, nblk, bno);
      if !ok { return; }
      file[x] := file[x].(size := file[x].size + BY2BLK);
    }

    method CreateFile(x: nat) returns (c: nat)
      requires Tidy(S()) && ok && IsDir(S(), x)
      modifies this`nextbno, this`ok, block, file
      ensures ok == Fsformat.CreateFile(old(S()), x).0.ok
      ensures ok ==> (S(), c) == Fsformat.CreateFile(old(S()), x)
    {
      ghost var im := S();
      var nblk := file[x].size / BY2BLK;
      for i := 0 to nblk
        invariant S() == im && FindUnused(im, x, i) == FindUnused(im, x, 0)
      {
        c := ScanBlock(x, i);
        if c > 0 { return; }
      }
      var bno := MakeLinkBlock(x, nblk);
      c := 1 + FILE2BLK * bno;
    }

    /** The inner loop of create_file: the first struct File of block i that is not in use, or 0. */
    method ScanBlock(x: nat, i: nat) returns (c: nat)
      requires Tidy(S()) && IsDir(S(), x) && i < Size(S(), x) / BY2BLK
      ensures FindUnused(S(), x, i) == if c > 0 then c else FindUnused(S(), x, i + 1)
    {
      var bno := DirBlock(x, i);
      var k := ScanNames(bno);
      c := if k < FILE2BLK then 1 + FILE2BLK * bno + k else 0;
    }

    method ScanNames(bno: nat) returns (k: nat)
      requires 1 + FILE2BLK * bno + FILE2BLK <= name.Length
      ensures k == UnusedIn(name[..], bno, 0)
    {
      k := 0;
      while k < FILE2BLK
        invariant k <= FILE2BLK && UnusedIn(name[..], bno, k) == UnusedIn(name[..], bno, 0)
      {
        if name[1 + FILE2BLK * bno + k] == "" { return; }
        k := k + 1;
      }
    }

    /** The number of block i of a directory, as create_file fetches it. */
    method DirBlock(x: nat, i: nat) returns (bno: nat)
      requires Tidy(S()) && IsDir(S(), x) && i < Size(S(), x) / BY2BLK
      ensures bno == Value(S().d, DataSlot(x, i)) && 1 + FILE2BLK * bno + FILE2BLK <= name.Length
    {
      assert DirOk(S(), x, i) && SlotOk(S().d, DataSlot(x, i)) && SlotOk(S().d, Indirect(x));
      if i < NDIRECT { return file[x].direct[i]; }
      bno := block[file[x].indirect][i];
    }

    /** Fill in the struct File that create_file returned. */
    method NameFile(c: nat, nm: string, ty: nat, size: nat)
      requires Core(S()) && c < file.Length
      modifies file, name, ftype
      ensures S() == Fsformat.NameFile(old(S()), c, nm, ty, size)
    {
      name[c] := nm;
      file[c] := file[c].(size := size);
      ftype[c] := ty;
    }

    method AddEntry(x: nat, nm: string, ty: nat, size: nat) returns (c: nat)
      requires Tidy(S()) && ok && IsDir(S(), x)
      modifies this`nextbno, this`ok, block, file, name, ftype
      ensures ok == Fsformat.AddEntry(old(S()), x, nm, ty, size).0.ok
      ensures ok ==> (S(), c) == Fsformat.AddEntry(old(S()), x, nm, ty, size)
    {
      ghost var im := S();
      c := CreateFile(x);
      if !ok { return; }
      CreateVacant(im, x);
      NameFile(c, nm, ty, size);
    }

    /** One turn of the loop of write_file. */
    method WriteBlock(f: nat, iblk: nat, chunk: seq<nat>)
      requires Filling(S(), f, iblk) && ok && |chunk| <= BY2BLK
      modifies this`nextbno, this`ok, block, file, data
      ensures ok == Turn(old(S()), f, iblk, chunk).ok
      ensures ok ==> S() == Turn(old(S()), f, iblk, chunk)
    {
      ghost var im := S();
      PutDataTidy(im, chunk);
      if nextbno >= n {
        NextStep(im, f, iblk, chunk);
        ok := false;
        return;
      }
      data[nextbno] := chunk + data[nextbno][|chunk|..];
      ghost var im1 := S();
      assert im1 == PutData(im, im.next, chunk);
      var bno := NextBlock();
      NextEffect(im1, Indirect(f));
      SaveBlockLink(f, iblk, bno);
    }

    method WriteFile(x: nat, nm: string, content: seq<nat>) returns (c: nat)
      requires Ready(S(), x, Reg(nm, content)) && ok
      modifies this`nextbno, this`ok, block, file, data, name, ftype
      ensures ok == FsformatTree.WriteFile(old(S()), x, nm, content).0.ok
      ensures ok ==> (S(), c) == FsformatTree.WriteFile(old(S()), x, nm, content)
    {
      ghost var im := S();
      c := AddEntry(x, nm, FTYPE_REG, |content|);
      ghost var (im1, c1) := Fsformat.AddEntry(im, x, nm, FTYPE_REG, |content|);
      if !ok { BlocksFail(im1, c1, 0, content); return; }
      EntryReady(im, x, Reg(nm, content));
      WriteBlocks(c, content);
    }

    /** The loop of write_file. */
    method WriteBlocks(f: nat, content: seq<nat>)
      requires Filling(S(), f, 0) && ok
      modifies this`nextbno, this`ok, block, file, data
      ensures ok == FsformatTree.WriteBlocks(old(S()), f, 0, content).ok
      ensures ok ==> S() == FsformatTree.WriteBlocks(old(S()), f, 0, content)
    {
      ghost var goal := FsformatTree.WriteBlocks(S(), f, 0, content);
      var iblk, rest := 0, content;
      while rest != []
        invariant Filling(S(), f, iblk) && ok && FsformatTree.WriteBlocks(S(), f, iblk, rest) == goal
        decreases |rest|
      {
        rest := WriteTurn(f, iblk, rest);
        if !ok { return; }
        iblk := iblk + 1;
      }
    }

    method WriteTurn(f: nat, iblk: nat, content: seq<nat>) returns (rest: seq<nat>)
      requires Filling(S(), f, iblk) && ok && content != []
      modifies this`nextbno, this`ok, block, file, data
      ensures !ok ==> !FsformatTree.WriteBlocks(old(S()), f, iblk, content).ok
      ensures ok ==> Filling(S(), f, iblk + 1) && |rest| < |content|
      ensures ok ==> FsformatTree.WriteBlocks(S(), f, iblk + 1, rest) == FsformatTree.WriteBlocks(old(S()), f, iblk, content)
    {
      ghost var im := S();
      var k := if |content| < BY2BLK then |content| else BY2BLK;
      var chunk := content[..k];
      rest := content[k..];
      WriteBlock(f, iblk, chunk);
      if ok {
        TurnKept(im, f, iblk, chunk);
      } else {
        BlocksFail(Turn(im, f, iblk, chunk), f, iblk + 1, rest);
      }
    }

    /** write_file or write_directory */
    method WriteTree(x: nat, t: Tree) returns (c: nat)
      requires Ready(S(), x, t) && ok
      modifies this`nextbno, this`ok, block, file, data, name, ftype
      ensures ok == FsformatTree.WriteTree(old(S()), x, t).0.ok
      ensures ok ==> (S(), c) == FsformatTree.WriteTree(old(S()), x, t)
      decreases t
    {
      match t
      case Reg(nm, content) => c := WriteFile(x, nm, content);
      case Dir(nm, ts) =>
        ghost var im := S();
        c := AddEntry(x, nm, FTYPE_DIR, 0);
        ghost var (im1, c1) := Fsformat.AddEntry(im, x, nm, FTYPE_DIR, 0);
        if !ok { AllFail(im1, c1, ts); return; }
        EntryReady(im, x, t);
        WriteAll(c, ts);
    }

    /** The loop over the entries of a directory, or over the arguments of the tool. */
    method WriteAll(x: nat, ts: seq<Tree>)
      requires Tidy(S()) && IsDir(S(), x) && AllGood(ts) && ok
      requires forall k :: 0 <= k < |ts| ==> Absent(S(), x, ts[k].name)
      modifies this`nextbno, this`ok, block, file, data, name, ftype
      ensures ok == FsformatTree.WriteAll(old(S()), x, ts).ok
      ensures ok ==> S() == FsformatTree.WriteAll(old(S()), x, ts)
      decreases ts
    {
      if ts == [] { return; }
      ghost var im := S();
      var _ := WriteTree(x, ts[0]);
      ghost var im1, rest := FsformatTree.WriteTree(im, x, ts[0]).0, ts[1..];
      if !ok { AllFail(im1, x, rest); return; }
      TreeWritten(im, x, ts[0]);
      assert FileKept(im, im1, x);
      forall k | 0 <= k < |rest| ensures Absent(im1, x, rest[k].name) {
        assert rest[k] == ts[k + 1];
        TreeAbsent(im, x, ts[0], x, rest[k].name);
      }
      WriteAll(x, ts[1..]);
    }

    /** The tool from end to end, on a disk whose size is a multiple of 8: what it leaves in memory is a
        disk the file server can mount. */
    method Build(ts: seq<Tree>)
      requires S() == InitDisk(n) && ok && AllGood(ts) && n % 8 == 0 && bits.Length == BY2BLK * BitBlocks(n)
      modifies this`nextbno, this`ok, bits, block, file, data, name, ftype
      ensures ok == FsformatTree.WriteAll(InitDisk(n), 0, ts).ok
      ensures ok ==> S() == FsformatTree.WriteAll(InitDisk(n), 0, ts)
      ensures ok ==> StoredAll(S(), 0, ts) && Owned(S().d) && NoLeak(S().d) && WordsOf(bits[..]) == S().d.bitmap
    {
      InitBitmap();
      WriteRoot(ts);
      if ok {
        ImageSound(n, ts, 0);
        FlushBitmap();
      }
    }

    /** The loop of main over its arguments. */
    method WriteRoot(ts: seq<Tree>)
      requires S() == InitDisk(n) && ok && AllGood(ts)
      modifies this`nextbno, this`ok, block, file, data, name, ftype
      ensures ok == FsformatTree.WriteAll(InitDisk(n), 0, ts).ok
      ensures ok ==> S() == FsformatTree.WriteAll(InitDisk(n), 0, ts)
    {
      InitTidy(n);
      forall k | 0 <= k < |ts| ensures Absent(S(), 0, ts[k].name) {}
      WriteAll(0, ts);
    }
  }

  lemma NextStep(im: Image, f: nat, iblk: nat, chunk: seq<nat>)
    requires im.next >= im.d.n
    ensures !Turn(im, f, iblk, chunk).ok
  {}
}
