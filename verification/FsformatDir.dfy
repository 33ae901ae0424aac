/** Adding entries to the directories of an image, and what that leaves alone. */
module FsformatDir {
  import opened Fs
  import opened FsTheorems
  import opened Fsformat

  /** c is the one entry of x with its name, so dir_lookup of that name finds it. */
  ghost predicate Found(im: Image, x: nat, c: nat) {
    Lists(im, x, c) && forall c2: nat :: SameName(im, x, c2, c) ==> c2 == c
  }

  ghost predicate SameName(im: Image, x: nat, c2: nat, c: nat) {
    Lists(im, x, c2) && c < |im.name| && im.name[c2] == im.name[c]
  }

  ghost predicate Absent(im: Image, x: nat, nm: string) {
    forall c: nat :: NotNamed(im, x, c, nm)
  }

  ghost predicate NotNamed(im: Image, x: nat, c: nat, nm: string) {
    Lists(im, x, c) ==> im.name[c] != nm
  }

  // ----- growing images

  predicate SlotKept(im: Image, im': Image, p: Slot) {
    Value(im.d, p) != 0 ==> Value(im'.d, p) == Value(im.d, p)
  }

  predicate FileKept(im: Image, im': Image, f: nat) {
    InUse(im, f) && f < |im.ftype| ==>
      InUse(im', f) && f < |im'.ftype| && im'.name[f] == im.name[f] && im'.ftype[f] == im.ftype[f]
      && (im.ftype[f] != FTYPE_DIR ==> Size(im', f) == Size(im, f))
  }

  predicate DataKept(im: Image, im': Image, b: nat) {
    b < im.next && b < |im.data| ==> b < |im'.data| && im'.data[b] == im.data[b]
  }

  ghost predicate FoundKept(im: Image, im': Image, x: nat, c: nat) {
    IsDir(im, x) && Found(im, x, c) ==> Found(im', x, c)
  }

  /** im' has all that im has: block numbers, names, data, and what is found in each directory. */
  ghost predicate Extends(im: Image, im': Image) {
    && im.d.n == im'.d.n && im.next <= im'.next && |im.data| == |im'.data| && |im.ftype| == |im.name| == |im'.name| == |im'.ftype|
    && (forall p: Slot :: SlotKept(im, im', p)) && (forall f: nat :: FileKept(im, im', f))
    && (forall b: nat :: DataKept(im, im', b)) && (forall x: nat, c: nat :: FoundKept(im, im', x, c))
  }

  lemma ExtendsTransitive(a: Image, b: Image, c: Image)
    requires Extends(a, b) && Extends(b, c)
    ensures Extends(a, c)
  {
    forall p: Slot ensures SlotKept(a, c, p) { assert SlotKept(a, b, p) && SlotKept(b, c, p); }
    forall f: nat ensures FileKept(a, c, f) { assert FileKept(a, b, f) && FileKept(b, c, f); }
    forall x: nat ensures DataKept(a, c, x) { assert DataKept(a, b, x) && DataKept(b, c, x); }
    forall x: nat, f: nat ensures FoundKept(a, c, x, f) {
      assert FoundKept(a, b, x, f) && FoundKept(b, c, x, f) && FileKept(a, b, x);
    }
  }

  lemma ExtendsSelf(im: Image)
    requires |im.ftype| == |im.name|
    ensures Extends(im, im)
  {}

  // ----- create_file

  /** c is an unused struct File of directory x. */
  ghost predicate Vacant(im: Image, x: nat, c: nat) {
    0 < c < |im.name| && !InUse(im, c) && BlockOf(c) < im.next && exists i: nat :: HoldsAt(im, x, i, c)
  }

  lemma {:induction false} VacantAt(im: Image, x: nat, i: nat)
    requires Tidy(im) && IsDir(im, x)
    ensures FindUnused(im, x, i) > 0 ==> Vacant(im, x, FindUnused(im, x, i))
    decreases Size(im, x) / BY2BLK - i
  {
    if i < Size(im, x) / BY2BLK {
      var b := Value(im.d, DataSlot(x, i));
      assert DirOk(im, x, i) && SlotOk(im.d, DataSlot(x, i));
      BitsFromFree(im.d.n, im.next, b);
      var k := UnusedIn(im.name, b, 0);
      if k < FILE2BLK {
        assert HoldsAt(im, x, i, 1 + FILE2BLK * b + k);
      } else {
        VacantAt(im, x, i + 1);
      }
    }
  }

  lemma CreateVacant(im: Image, x: nat)
    requires Tidy(im) && IsDir(im, x) && CreateFile(im, x).0.ok
    ensures var (im', c) := CreateFile(im, x); Tidy(im') && Vacant(im', x, c) && im'.name == im.name && im'.ftype == im.ftype
  {
    if FindUnused(im, x, 0) > 0 {
      VacantAt(im, x, 0);
    } else {
      var nblk := Size(im, x) / BY2BLK;
      var im', c := MakeLinkBlock(im, x, nblk), 1 + FILE2BLK * im.next;
      MakeLinkTidy(im, x);
      MakeLinkEffect(im, x, DataSlot(x, nblk));
      assert BlockOf(c) == im.next;
      assert FileOk(im, c);
      assert HoldsAt(im', x, nblk, c);
    }
  }

  /** Entries stay put while create_file makes room. */
  lemma CreateLists(im: Image, x: nat, y: nat, f: nat)
    requires Tidy(im) && IsDir(im, x) && CreateFile(im, x).0.ok
    ensures Lists(CreateFile(im, x).0, y, f) <==> Lists(im, y, f)
  {
    if FindUnused(im, x, 0) == 0 { MakeLinkLists(im, x, y, f); }
  }

  lemma MakeLinkLists(im: Image, x: nat, y: nat, f: nat)
    requires Tidy(im) && IsDir(im, x) && MakeLinkBlock(im, x, Size(im, x) / BY2BLK).ok
    ensures Lists(MakeLinkBlock(im, x, Size(im, x) / BY2BLK), y, f) <==> Lists(im, y, f)
  {
    var im', nblk := MakeLinkBlock(im, x, Size(im, x) / BY2BLK), Size(im, x) / BY2BLK;
    MakeLinkEffect(im, x, Indirect(x));
    if InUse(im, f) && f > 0 {
      assert FileOk(im, f) && DirOk(im, x, nblk);
      forall i: nat ensures HoldsAt(im', y, i, f) <==> HoldsAt(im, y, i, f) {
        MakeLinkEffect(im, x, DataSlot(y, i));
        assert DirOk(im, x, i);
      }
    }
  }

  lemma CreateKept(im: Image, x: nat)
    requires Tidy(im) && IsDir(im, x) && CreateFile(im, x).0.ok
    ensures Extends(im, CreateFile(im, x).0)
  {
    var im' := CreateFile(im, x).0;
    var nblk := Size(im, x) / BY2BLK;
    if im' == im {
      ExtendsSelf(im);
    } else {
      MakeLinkEffect(im, x, Indirect(x));
      forall p: Slot ensures SlotKept(im, im', p) {
        assert DirOk(im, x, nblk);
        MakeLinkEffect(im, x, p);
      }
      forall f: nat ensures FileKept(im, im', f) { MakeLinkEffect(im, x, Indirect(f)); }
      forall b: nat ensures DataKept(im, im', b) {}
      forall y: nat, c: nat ensures FoundKept(im, im', y, c) {
        CreateLists(im, x, y, c);
        forall c2: nat ensures SameName(im', y, c2, c) <==> SameName(im, y, c2, c) { CreateLists(im, x, y, c2); }
      }
    }
  }

  // ----- naming the new struct File

  lemma NameTidy(im: Image, x: nat, c: nat, nm: string, ty: nat, size: nat)
    requires Tidy(im) && Vacant(im, x, c) && nm != "" && (ty == FTYPE_DIR ==> size == 0)
    ensures Tidy(NameFile(im, c, nm, ty, size))
  {
    var im' := NameFile(im, c, nm, ty, size);
    var im1 := im.(d := SetSizeField(im.d, c, size));
    SizeEffect(im, c, size, Indirect(c));
    forall b: nat ensures Cached(im', b) && BlankBlock(im', b) { assert Cached(im1, b) && BlankBlock(im1, b); }
    forall y: nat, i: nat ensures DirOk(im', y, i) {
      assert DirOk(im, y, i) && SlotZero(im, DataSlot(y, i));
      SizeEffect(im, c, size, DataSlot(y, i));
    }
    forall f: nat ensures FileOk(im', f) {
      assert FileOk(im, f);
      SizeEffect(im, c, size, Indirect(f));
    }
    forall p: Slot ensures SlotZero(im', p) {
      assert SlotZero(im, p);
      SizeEffect(im, c, size, p);
    }
    forall b: nat ensures Linked(im', b) {
      assert Linked(im, b);
      if im.d.lo <= b < im.next {
        var p: Slot :| OwnedBlock(im.d, b, p);
        SizeEffect(im, c, size, p);
        assert OwnedBlock(im'.d, b, p);
      }
    }
  }

  /** The directory gains exactly that entry. */
  lemma NameLists(im: Image, x: nat, c: nat, nm: string, ty: nat, size: nat, y: nat, f: nat)
    requires Tidy(im) && IsDir(im, x) && Vacant(im, x, c) && nm != "" && (ty == FTYPE_DIR ==> size == 0)
    ensures IsDir(im, y) ==> (Lists(NameFile(im, c, nm, ty, size), y, f) <==> Lists(im, y, f) || (y == x && f == c))
    ensures ty == FTYPE_DIR ==> !Lists(NameFile(im, c, nm, ty, size), c, f)
  {
    var im' := NameFile(im, c, nm, ty, size);
    forall i: nat ensures y != c ==> (HoldsAt(im', y, i, f) <==> HoldsAt(im, y, i, f)) {
      SizeEffect(im, c, size, DataSlot(y, i));
    }
    if IsDir(im, y) && f == c {
      var k: nat :| HoldsAt(im, x, k, c);
      assert HoldsAt(im', x, k, c);
      assert DirOk(im, x, k);
      forall i: nat | HoldsAt(im, y, i, c) ensures y == x {
        assert Apart(im.d, DataSlot(x, k), DataSlot(y, i));
      }
    }
  }

  lemma NameKept(im: Image, x: nat, c: nat, nm: string, ty: nat, size: nat)
    requires Tidy(im) && IsDir(im, x) && Vacant(im, x, c) && nm != "" && Absent(im, x, nm) && (ty == FTYPE_DIR ==> size == 0)
    ensures Extends(im, NameFile(im, c, nm, ty, size))
  {
    var im' := NameFile(im, c, nm, ty, size);
    forall p: Slot ensures SlotKept(im, im', p) { SizeEffect(im, c, size, p); }
    forall f: nat ensures FileKept(im, im', f) { SizeEffect(im, c, size, Indirect(f)); }
    forall b: nat ensures DataKept(im, im', b) {}
    forall y: nat, f: nat ensures FoundKept(im, im', y, f) {
      if IsDir(im, y) && Found(im, y, f) {
        NameLists(im, x, c, nm, ty, size, y, f);
        assert NotNamed(im, x, f, nm);
        forall c2: nat ensures SameName(im', y, c2, f) ==> c2 == f {
          NameLists(im, x, c, nm, ty, size, y, c2);
          assert SameName(im, y, c2, f) ==> c2 == f;
        }
      }
    }
  }

  // ----- the whole of AddEntry

  lemma AddTidy(im: Image, x: nat, nm: string, ty: nat, size: nat)
    requires Tidy(im) && IsDir(im, x) && nm != "" && Absent(im, x, nm) && (ty == FTYPE_DIR ==> size == 0)
    requires AddEntry(im, x, nm, ty, size).0.ok
    ensures var (im', c) := AddEntry(im, x, nm, ty, size);
      && Tidy(im') && Extends(im, im') && !InUse(im, c)
      && c < |im'.name| && im'.name[c] == nm && im'.ftype[c] == ty && Size(im', c) == size
      && (forall p: Slot :: p.f == c ==> Value(im'.d, p) == 0)
  {
    var (im1, c) := CreateFile(im, x);
    var im' := NameFile(im1, c, nm, ty, size);
    CreateVacant(im, x);
    CreateKept(im, x);
    AbsentAfterCreate(im, x, nm);
    NameTidy(im1, x, c, nm, ty, size);
    NameKept(im1, x, c, nm, ty, size);
    ExtendsTransitive(im, im1, im');
    SizeEffect(im1, c, size, Indirect(c));
    forall p: Slot ensures p.f == c ==> Value(im'.d, p) == 0 {
      SizeEffect(im1, c, size, p);
      assert SlotZero(im1, p);
    }
  }

  lemma AbsentAfterCreate(im: Image, x: nat, nm: string)
    requires Tidy(im) && IsDir(im, x) && CreateFile(im, x).0.ok && Absent(im, x, nm)
    ensures Absent(CreateFile(im, x).0, x, nm)
  {
    CreateVacant(im, x);
    forall c: nat ensures NotNamed(CreateFile(im, x).0, x, c, nm) {
      CreateLists(im, x, x, c);
      assert NotNamed(im, x, c, nm);
    }
  }

  /** What every directory lists afterwards. */
  lemma AddLists(im: Image, x: nat, nm: string, ty: nat, size: nat, y: nat, f: nat)
    requires Tidy(im) && IsDir(im, x) && nm != "" && (ty == FTYPE_DIR ==> size == 0)
    requires AddEntry(im, x, nm, ty, size).0.ok
    ensures var (im', c) := AddEntry(im, x, nm, ty, size);
      && (IsDir(im, y) ==> (Lists(im', y, f) <==> Lists(im, y, f) || (y == x && f == c)))
      && (ty == FTYPE_DIR ==> !Lists(im', c, f))
      && (Lists(im, y, f) ==> f != c && im'.name[f] == im.name[f])
  {
    var (im1, c) := CreateFile(im, x);
    CreateVacant(im, x);
    CreateKept(im, x);
    CreateLists(im, x, y, f);
    assert FileKept(im, im1, y) && FileKept(im, im1, x);
    NameLists(im1, x, c, nm, ty, size, y, f);
  }

  lemma AddFound(im: Image, x: nat, nm: string, ty: nat, size: nat)
    requires Tidy(im) && IsDir(im, x) && nm != "" && Absent(im, x, nm) && (ty == FTYPE_DIR ==> size == 0)
    requires AddEntry(im, x, nm, ty, size).0.ok
    ensures var (im', c) := AddEntry(im, x, nm, ty, size); Found(im', x, c)
  {
    var (im', c) := AddEntry(im, x, nm, ty, size);
    AddTidy(im, x, nm, ty, size);
    AddLists(im, x, nm, ty, size, x, c);
    forall c2: nat ensures SameName(im', x, c2, c) ==> c2 == c {
      AddLists(im, x, nm, ty, size, x, c2);
      assert NotNamed(im, x, c2, nm);
    }
  }

  lemma AddAbsent(im: Image, x: nat, nm: string, ty: nat, size: nat, y: nat, other: string)
    requires Tidy(im) && IsDir(im, x) && nm != "" && Absent(im, x, nm) && (ty == FTYPE_DIR ==> size == 0)
    requires AddEntry(im, x, nm, ty, size).0.ok
    requires IsDir(im, y) && Absent(im, y, other) && (y != x || other != nm)
    ensures Absent(AddEntry(im, x, nm, ty, size).0, y, other)
  {
    var (im', c) := AddEntry(im, x, nm, ty, size);
    AddTidy(im, x, nm, ty, size);
    forall f: nat ensures NotNamed(im', y, f, other) {
      AddLists(im, x, nm, ty, size, y, f);
      assert NotNamed(im, y, f, other);
    }
  }
}
