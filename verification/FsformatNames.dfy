/** The directories of a finished image hold the written names and no others. */
module FsformatNames {
  import opened Fs
  import opened Fsformat
  import opened FsformatDir
  import opened FsformatTree

  predicate Other(ts: seq<Tree>, nm: string) {
    forall k :: 0 <= k < |ts| ==> ts[k].name != nm
  }

  /** Below c there are no names but those of t, and the directories are new since im0. */
  ghost predicate Closed(im0: Image, im: Image, c: nat, t: Tree)
    decreases t, 0
  {
    t.Dir? ==>
      && !InUse(im0, c) && IsDir(im, c)
      && (forall nm: string :: OnlyNamed(im, c, t.children, nm))
      && forall k :: 0 <= k < |t.children| ==> ClosedIn(im0, im, c, t.children[k])
  }

  ghost predicate OnlyNamed(im: Image, x: nat, ts: seq<Tree>, nm: string) {
    Other(ts, nm) ==> Absent(im, x, nm)
  }

  ghost predicate ClosedIn(im0: Image, im: Image, x: nat, t: Tree)
    decreases t, 1
  {
    exists c: nat :: Found(im, x, c) && im.name[c] == t.name && Closed(im0, im, c, t)
  }

  /** The directories made since im0 get no names. */
  ghost predicate QuietAt(im0: Image, im: Image, im': Image, y: nat, nm: string) {
    IsDir(im, y) && !InUse(im0, y) && Absent(im, y, nm) ==> Absent(im', y, nm)
  }

  ghost predicate Quiet(im0: Image, im: Image, im': Image) {
    Extends(im, im') && forall y: nat, nm: string :: QuietAt(im0, im, im', y, nm)
  }

  lemma {:induction false} ClosedKept(im0: Image, im: Image, im': Image, c: nat, t: Tree)
    requires Quiet(im0, im, im') && Closed(im0, im, c, t)
    ensures Closed(im0, im', c, t)
    decreases t, 0
  {
    if t.Dir? {
      assert FileKept(im, im', c);
      forall nm: string ensures OnlyNamed(im', c, t.children, nm) {
        assert OnlyNamed(im, c, t.children, nm) && QuietAt(im0, im, im', c, nm);
      }
      forall k | 0 <= k < |t.children| ensures ClosedIn(im0, im', c, t.children[k]) {
        ClosedInKept(im0, im, im', c, t.children[k]);
      }
    }
  }

  lemma {:induction false} ClosedInKept(im0: Image, im: Image, im': Image, x: nat, t: Tree)
    requires Quiet(im0, im, im') && IsDir(im, x) && ClosedIn(im0, im, x, t)
    ensures ClosedIn(im0, im', x, t)
    decreases t, 1
  {
    var c: nat :| Found(im, x, c) && im.name[c] == t.name && Closed(im0, im, c, t);
    assert FoundKept(im, im', x, c) && FileKept(im, im', c);
    ClosedKept(im0, im, im', c, t);
  }

  ghost predicate UsedKept(im: Image, im': Image) {
    forall f: nat :: UsedAt(im, im', f)
  }

  predicate UsedAt(im: Image, im': Image, f: nat) {
    InUse(im, f) ==> InUse(im', f)
  }

  lemma {:induction false} ClosedSince(im0: Image, im1: Image, im: Image, c: nat, t: Tree)
    requires UsedKept(im0, im1) && Closed(im1, im, c, t)
    ensures Closed(im0, im, c, t)
    decreases t, 0
  {
    if t.Dir? {
      assert UsedAt(im0, im1, c);
      forall k | 0 <= k < |t.children| ensures ClosedIn(im0, im, c, t.children[k]) {
        ClosedInSince(im0, im1, im, c, t.children[k]);
      }
    }
  }

  lemma {:induction false} ClosedInSince(im0: Image, im1: Image, im: Image, x: nat, t: Tree)
    requires UsedKept(im0, im1) && ClosedIn(im1, im, x, t)
    ensures ClosedIn(im0, im, x, t)
    decreases t, 1
  {
    var c: nat :| Found(im, x, c) && im.name[c] == t.name && Closed(im1, im, c, t);
    ClosedSince(im0, im1, im, c, t);
  }

  lemma ExtendsUsed(im: Image, im': Image)
    requires Extends(im, im') && |im.ftype| == |im.name|
    ensures UsedKept(im, im')
  {
    forall f: nat ensures UsedAt(im, im', f) { assert FileKept(im, im', f); }
  }

  lemma {:induction false} AllOther(im: Image, x: nat, ts: seq<Tree>, nm: string)
    requires Tidy(im) && IsDir(im, x) && AllGood(ts) && WriteAll(im, x, ts).ok
    requires forall k :: 0 <= k < |ts| ==> Absent(im, x, ts[k].name)
    requires Absent(im, x, nm) && Other(ts, nm)
    ensures Absent(WriteAll(im, x, ts), x, nm)
    decreases ts
  {
    if ts != [] {
      var im1, rest := WriteTree(im, x, ts[0]).0, ts[1..];
      NextReady(im, x, ts);
      TreeAbsent(im, x, ts[0], x, nm);
      AllOther(im1, x, rest, nm);
    }
  }

  /** After the first tree the rest can be written. */
  lemma NextReady(im: Image, x: nat, ts: seq<Tree>)
    requires Tidy(im) && IsDir(im, x) && AllGood(ts) && WriteAll(im, x, ts).ok && ts != []
    requires forall k :: 0 <= k < |ts| ==> Absent(im, x, ts[k].name)
    ensures var (im1, c) := WriteTree(im, x, ts[0]); var rest := ts[1..];
      && im1.ok && Tidy(im1) && Extends(im, im1) && IsDir(im1, x) && Found(im1, x, c) && Stored(im1, c, ts[0])
      && AllGood(rest) && forall k :: 0 <= k < |rest| ==> Absent(im1, x, rest[k].name)
  {
    var (im1, c) := WriteTree(im, x, ts[0]);
    var rest := ts[1..];
    AllOk(im1, x, rest);
    TreeWritten(im, x, ts[0]);
    assert FileKept(im, im1, x);
    forall k | 0 <= k < |rest| ensures Absent(im1, x, rest[k].name) {
      assert rest[k] == ts[k + 1];
      TreeAbsent(im, x, ts[0], x, rest[k].name);
    }
  }

  lemma RestQuiet(im0: Image, im: Image, x: nat, ts: seq<Tree>)
    requires Tidy(im) && IsDir(im, x) && AllGood(ts) && WriteAll(im, x, ts).ok && InUse(im0, x)
    requires forall k :: 0 <= k < |ts| ==> Absent(im, x, ts[k].name)
    ensures Quiet(im0, im, WriteAll(im, x, ts))
  {
    AllWritten(im, x, ts);
    forall y: nat, nm: string ensures QuietAt(im0, im, WriteAll(im, x, ts), y, nm) {
      if IsDir(im, y) && !InUse(im0, y) && Absent(im, y, nm) { AllAbsent(im, x, ts, y, nm); }
    }
  }

  /** The directories of a written tree list its names and no other. */
  lemma {:induction false} TreeClosed(im: Image, x: nat, t: Tree)
    requires Ready(im, x, t) && WriteTree(im, x, t).0.ok
    ensures Closed(im, WriteTree(im, x, t).0, WriteTree(im, x, t).1, t)
    decreases t
  {
    if t.Dir? {
      var (im', c) := WriteTree(im, x, t);
      var im1, ts := AddEntry(im, x, t.name, FTYPE_DIR, 0).0, t.children;
      AllOk(im1, c, ts);
      EntryReady(im, x, t);
      AllWritten(im1, c, ts);
      AllClosed(im1, c, ts);
      ExtendsUsed(im, im1);
      assert FileKept(im1, im', c);
      forall nm: string ensures OnlyNamed(im', c, ts, nm) {
        if Other(ts, nm) { AllOther(im1, c, ts, nm); }
      }
      forall k | 0 <= k < |ts| ensures ClosedIn(im, im', c, ts[k]) { ClosedInSince(im, im1, im', c, ts[k]); }
    }
  }

  lemma {:induction false} AllClosed(im: Image, x: nat, ts: seq<Tree>)
    requires Tidy(im) && IsDir(im, x) && AllGood(ts) && WriteAll(im, x, ts).ok
    requires forall k :: 0 <= k < |ts| ==> Absent(im, x, ts[k].name)
    ensures forall k :: 0 <= k < |ts| ==> ClosedIn(im, WriteAll(im, x, ts), x, ts[k])
    decreases ts
  {
    if ts != [] {
      var (im1, c) := WriteTree(im, x, ts[0]);
      var rest, im' := ts[1..], WriteAll(im, x, ts);
      NextReady(im, x, ts);
      TreeClosed(im, x, ts[0]);
      AllClosed(im1, x, rest);
      RestQuiet(im, im1, x, rest);
      ClosedInKept(im, im1, im', x, ts[0]);
      ExtendsUsed(im, im1);
      forall k | 0 <= k < |ts| ensures ClosedIn(im, im', x, ts[k]) {
        if k > 0 {
          assert rest[k - 1] == ts[k];
          ClosedInSince(im, im1, im', x, rest[k - 1]);
        }
      }
    }
  }
}
