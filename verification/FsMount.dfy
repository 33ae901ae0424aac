/** The file server on a disk the image writer made: what a path leads to. */
module FsMount {
  import opened Common
  import opened Fs
  import opened Fsformat
  import opened FsformatDir
  import opened FsformatTree
  import opened FsformatNames
  import opened FsServer
  import opened FsTool

  // ----- paths in a tree

  datatype Target = Here(t: Tree) | Bad(code: int)

  function Pick(ts: seq<Tree>, nm: string): (k: nat)
    ensures k <= |ts| && (k < |ts| ==> ts[k].name == nm)
    ensures k == |ts| ==> Other(ts, nm)
  {
    if ts == [] then 0 else if ts[0].name == nm then 0 else 1 + Pick(ts[1..], nm)
  }

  /** Where the names lead from t, or the error walk_path gives. */
  function Seek(t: Tree, names: seq<string>): Target
    decreases |names|
  {
    if names == [] then Here(t)
    else if |names[0]| >= MAXNAMELEN then Bad(-E_BAD_PATH)
    else if t.Reg? then Bad(-E_NOT_FOUND)
    else
      var k := Pick(t.children, names[0]);
      if k == |t.children| then Bad(-E_NOT_FOUND) else Seek(t.children[k], names[1..])
  }

  /** "/a/b/c" */
  function Join(names: seq<string>): string {
    if names == [] then "" else "/" + names[0] + Join(names[1..])
  }

  predicate Plain(nm: string) {
    nm != "" && '/' !in nm
  }

  /** Every list of names is the list of names of a path. */
  lemma {:induction false} NamesOfJoin(names: seq<string>)
    requires forall k :: 0 <= k < |names| ==> Plain(names[k])
    ensures Names(Join(names)) == names
  {
    if names != [] {
      var nm, rest := names[0], Join(names[1..]);
      NamesOfJoin(names[1..]);
      var p := nm + rest;
      assert Plain(nm);
      assert SkipSlash(Join(names)) == p by { assert Join(names)[1..] == p; }
      FirstName(nm, rest);
      assert p[|nm|..] == rest;
    }
  }

  lemma {:induction false} FirstName(nm: string, rest: string)
    requires '/' !in nm && (rest != "" ==> rest[0] == '/')
    ensures NextName(nm + rest) == nm
  {
    if nm != "" {
      assert (nm + rest)[1..] == nm[1..] + rest;
      FirstName(nm[1..], rest);
    } else {
      assert nm + rest == rest;
    }
  }

  lemma {:induction false} NamesPlain(path: string)
    ensures forall k :: 0 <= k < |Names(path)| ==> Plain(Names(path)[k])
    decreases |path|
  {
    var p := SkipSlash(path);
    if |p| > 0 { NamesPlain(p[|NextName(p)|..]); }
  }

  // ----- what the server finds

  /** A struct File that carries the name nm in directory x is an entry of x. */
  lemma CarriesLists(im: Image, x: nat, nm: string, i: nat, y: nat)
    requires nm != "" && Carries(im.d, im.name, x, nm, i, y)
    ensures Lists(im, x, y)
  {
    assert HoldsAt(im, x, i, y);
  }

  /** The one entry called nm is the root of the tree with that name. */
  lemma PickFound(im0: Image, im: Image, x: nat, t: Tree) returns (root: nat)
    requires StoredIn(im, x, t) && ClosedIn(im0, im, x, t) && t.name != ""
    ensures Found(im, x, root) && Stored(im, root, t) && Closed(im0, im, root, t)
    ensures exists i: nat :: Carries(im.d, im.name, x, t.name, i, root)
    ensures forall i: nat, y: nat :: Carries(im.d, im.name, x, t.name, i, y) ==> y == root
  {
    root :| Found(im, x, root) && Stored(im, root, t);
    var c: nat :| Found(im, x, c) && im.name[c] == t.name && Closed(im0, im, c, t);
    assert SameName(im, x, c, root);
    var j: nat :| HoldsAt(im, x, j, root);
    assert Carries(im.d, im.name, x, t.name, j, root);
    forall i: nat, y: nat | Carries(im.d, im.name, x, t.name, i, y) ensures y == root {
      CarriesLists(im, x, t.name, i, y);
      assert SameName(im, x, y, root);
    }
  }

  /** The code, and with 0 the struct File of that very tree. */
  ghost predicate Answers(im: Image, goal: Target, r: int, c: nat) {
    match goal
    case Here(u) => r == 0 && Stored(im, c, u)
    case Bad(code) => r == code
  }

  /** Looking up names in the blocks of the disk is looking them up in the tree. */
  lemma {:induction false} LeadsSeeks(im0: Image, im: Image, x: nat, t: Tree, names: seq<string>, r: int, c: nat)
    requires |im.ftype| == |im.name| && Stored(im, x, t) && Closed(im0, im, x, t)
    requires forall k :: 0 <= k < |names| ==> Plain(names[k])
    requires Leads(im.d, im.name, im.ftype, x, names, r, c)
    ensures Answers(im, Seek(t, names), r, c)
    decreases |names|
  {
    if names != [] && |names[0]| < MAXNAMELEN && t.Dir? {
      var nm, k := names[0], Pick(t.children, names[0]);
      assert Plain(nm);
      if k == |t.children| {
        assert OnlyNamed(im, x, t.children, nm);
        forall i: nat, y: nat ensures !Carries(im.d, im.name, x, nm, i, y) {
          assert NotNamed(im, x, y, nm);
          if Carries(im.d, im.name, x, nm, i, y) { CarriesLists(im, x, nm, i, y); }
        }
      } else {
        var u := t.children[k];
        assert StoredIn(im, x, u) && ClosedIn(im0, im, x, u);
        var root := PickFound(im0, im, x, u);
        assert Leads(im.d, im.name, im.ftype, root, names[1..], r, c);
        forall j | 0 <= j < |names[1..]| ensures Plain(names[1..][j]) { assert Plain(names[j + 1]); }
        LeadsSeeks(im0, im, root, u, names[1..], r, c);
      }
    }
  }

  /** The finished image, seen from its root. */
  lemma ImageTree(n: nat, ts: seq<Tree>) returns (im0: Image)
    requires AllGood(ts) && WriteAll(InitDisk(n), 0, ts).ok
    ensures var im := WriteAll(InitDisk(n), 0, ts);
      Tidy(im) && Stored(im, 0, Dir("/", ts)) && Closed(im0, im, 0, Dir("/", ts))
  {
    var init, im := InitDisk(n), WriteAll(InitDisk(n), 0, ts);
    im0 := init.(name := []);
    AllOk(init, 0, ts);
    InitTidy(n);
    AllWritten(init, 0, ts);
    AllClosed(init, 0, ts);
    assert FileKept(init, im, 0);
    forall nm: string ensures OnlyNamed(im, 0, ts, nm) {
      if Other(ts, nm) { AllOther(init, 0, ts, nm); }
    }
    forall k | 0 <= k < |ts| ensures ClosedIn(im0, im, 0, ts[k]) { ClosedInSince(im0, init, im, 0, ts[k]); }
  }

  /** Every path, on the disk of any trees: walk_path returns the root of the tree at that path, or the
      error that fits, and nothing else. */
  lemma PathSound(n: nat, ts: seq<Tree>, path: string, r: int, c: nat)
    requires AllGood(ts) && WriteAll(InitDisk(n), 0, ts).ok
    requires var im := WriteAll(InitDisk(n), 0, ts); Leads(im.d, im.name, im.ftype, 0, Names(path), r, c)
    ensures Answers(WriteAll(InitDisk(n), 0, ts), Seek(Dir("/", ts), Names(path)), r, c)
  {
    var im0 := ImageTree(n, ts);
    NamesPlain(path);
    LeadsSeeks(im0, WriteAll(InitDisk(n), 0, ts), 0, Dir("/", ts), Names(path), r, c);
  }

  // ----- from the tool to the server

  /** fs_init on the disk the tool left: the reserved blocks are in use, so no assertion fails. */
  method Mount(t: Formatter, ghost ts: seq<Tree>) returns (s: Server, ok: bool)
    requires AllGood(ts) && t.ok && t.S() == WriteAll(InitDisk(t.n), 0, ts) && WordsOf(t.bits[..]) == t.S().d.bitmap
    ensures ok && fresh(s) && fresh(s.bitmap) && fresh(s.block) && fresh(s.file)
    ensures s.S() == t.S().d.(cached := {}) && s.name[..] == t.name[..] && s.ftype[..] == t.ftype[..]
    ensures Owned(s.S()) && s.file.Length == s.name.Length == s.ftype.Length == 1 + FILE2BLK * s.n
    ensures forall x: nat, i: nat :: x < s.ftype.Length && s.ftype[x] == FTYPE_DIR ==> NoHole(s.S(), x, i)
  {
    s := new Server(t.n, 2 + BitBlocks(t.n), WordsOf(t.bits[..]), t.block[..], t.file[..], t.name[..], t.ftype[..]);
    ghost var im := t.S();
    ghost var im0 := ImageTree(t.n, ts);
    Uncached(im.d);
    ok := s.ReadBitmap();
    forall x: nat, i: nat | x < s.ftype.Length && s.ftype[x] == FTYPE_DIR ensures NoHole(s.S(), x, i) {
      assert DirOk(im, x, i) && FileOk(im, x);
    }
  }

  lemma Uncached(d: Disk)
    requires Owned(d)
    ensures Owned(d.(cached := {}))
  {
    var d' := d.(cached := {});
    forall o: Slot ensures SlotOk(d', o) { assert SlotOk(d, o); }
    forall o: Slot, p: Slot ensures Fs.Apart(d', o, p) { assert Fs.Apart(d, o, p); }
  }

  /** Main result.  Build a disk from any trees with good names, mount it, and open any path: the server
      returns the struct File of exactly the tree at that path, from which its bytes or entries read back. */
  method BuildAndOpen(n: nat, ts: seq<Tree>, path: string, rooms: (bool, bool)) returns (built: bool, r: int, c: nat)
    requires AllGood(ts) && n % 8 == 0
    ensures built <==> WriteAll(InitDisk(n), 0, ts).ok
    ensures built ==> Answers(WriteAll(InitDisk(n), 0, ts), Seek(Dir("/", ts), Names(path)), r, c)
  {
    r, c := 0, 0;
    var t := new Formatter(n);
    if !t.ok {
      AllFail(InitDisk(n), 0, ts);
      return false, r, c;
    }
    t.Build(ts);
    built := t.ok;
    if built {
      var s, mounted := Mount(t, ts);
      r, c := s.WalkPath(path, rooms);
      ghost var im := t.S();
      LeadsCached(im.d, im.name, im.ftype, 0, Names(path), r, c);
      PathSound(n, ts, path, r, c);
    }
  }

  /** The cache has no say in where names lead. */
  lemma {:induction false} LeadsCached(d: Disk, name: seq<string>, ftype: seq<nat>, x: nat, names: seq<string>, r: int, c: nat)
    requires Leads(d.(cached := {}), name, ftype, x, names, r, c)
    ensures Leads(d, name, ftype, x, names, r, c)
    decreases |names|
  {
    if names != [] && |names[0]| < MAXNAMELEN && x < |ftype| && ftype[x] == FTYPE_DIR {
      var d' := d.(cached := {});
      forall i: nat, y: nat ensures Carries(d', name, x, names[0], i, y) <==> Carries(d, name, x, names[0], i, y) {}
      if i: nat, y: nat :| Carries(d', name, x, names[0], i, y) && Leads(d', name, ftype, y, names[1..], r, c) {
        LeadsCached(d, name, ftype, y, names[1..], r, c);
        assert Carries(d, name, x, names[0], i, y);
      }
    }
  }
}
