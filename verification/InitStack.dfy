/** The first stack page of a spawned program (init_stack in user/lib/spawn.c). */
module InitStack {
  import opened Common

  const USTACKTOP := 0x7f3f_e000
  const BOTTOM := USTACKTOP - BY2PG     // where the child sees the page

  /** A C string, without its terminating zero. */
  predicate CString(s: seq<nat>) {
    forall k :: 0 <= k < |s| ==> 0 < s[k] < 256
  }

  predicate Strings(argv: seq<seq<nat>>) {
    forall i :: 0 <= i < |argv| ==> CString(argv[i])
  }

  // ----- layout

  /** The bytes of the first i strings, each with its zero. */
  function Blob(argv: seq<seq<nat>>, i: nat): seq<nat>
    requires i <= |argv|
  {
    if i == 0 then [] else Blob(argv, i - 1) + argv[i - 1] + [0]
  }

  function Start(argv: seq<seq<nat>>, i: nat): nat
    requires i <= |argv|
  {
    |Blob(argv, i)|
  }

  function Total(argv: seq<seq<nat>>): nat {
    Start(argv, |argv|)
  }

  function Round4(n: nat): (r: nat)
    ensures r % 4 == 0 && n <= r < n + 4
  {
    (n + 3) / 4 * 4
  }

  /** Whole words for the strings, a pointer for each of them and one more, and two words for argc and argv. */
  function Needed(argv: seq<seq<nat>>): nat {
    Round4(Total(argv)) + 4 * (|argv| + 1) + 8
  }

  // ----- words in a page

  function WordAt(page: seq<nat>, off: nat): nat {
    if off + 4 <= |page| then page[off] + 0x100 * page[off + 1] + 0x1_0000 * page[off + 2] + 0x100_0000 * page[off + 3] else 0
  }

  /** `*(u_int *)off = w` */
  method StoreWord(page: array<nat>, off: nat, w: nat)
    requires off + 4 <= page.Length && w < 0x1_0000_0000
    modifies page
    ensures WordAt(page[..], off) == w
    ensures forall k :: 0 <= k < page.Length && !(off <= k < off + 4) ==> page[k] == old(page[k])
    ensures forall o: nat :: o + 4 <= off || off + 4 <= o ==> WordAt(page[..], o) == old(WordAt(page[..], o))
  {
    SplitWord(w);
    page[off], page[off + 1] := w % 0x100, w / 0x100 % 0x100;
    page[off + 2], page[off + 3] := w / 0x1_0000 % 0x100, w / 0x100_0000;
  }

  lemma SplitWord(w: nat)
    requires w < 0x1_0000_0000
    ensures w == w % 0x100 + 0x100 * (w / 0x100 % 0x100) + 0x1_0000 * (w / 0x1_0000 % 0x100) + 0x100_0000 * (w / 0x100_0000)
  {}

  // ----- what the child reads

  /** A load by the child; the page is all it looks at. */
  function ChildWord(page: seq<nat>, va: nat): nat {
    if va >= BOTTOM then WordAt(page, va - BOTTOM) else 0
  }

  /** The string that starts at off, up to the first zero. */
  function StringFrom(page: seq<nat>, off: nat): seq<nat>
    decreases |page| - off
  {
    if off >= |page| || page[off] == 0 then [] else [page[off]] + StringFrom(page, off + 1)
  }

  function ChildString(page: seq<nat>, va: nat): seq<nat> {
    if va >= BOTTOM then StringFrom(page, va - BOTTOM) else []
  }

  /** The arguments of main, from its stack pointer: argc, argv, and the strings argv points to. */
  function ChildArgs(page: seq<nat>, sp: nat): seq<seq<nat>> {
    var argc, argv := ChildWord(page, sp), ChildWord(page, sp + 4);
    seq(argc, i requires 0 <= i => ChildString(page, ChildWord(page, argv + 4 * i)))
  }

  // ----- the page is right

  /** Everything init_stack has to leave in the page, with `args` the offset of the pointer array. */
  predicate Filled(page: seq<nat>, argv: seq<seq<nat>>, args: nat) {
    && |page| == BY2PG && Total(argv) <= BY2PG && page[BY2PG - Total(argv)..] == Blob(argv, |argv|)
    && args >= 8 && WordAt(page, args - 8) == |argv| && WordAt(page, args - 4) == BOTTOM + args
    && forall i :: 0 <= i < |argv| ==> PointerOk(page, argv, args, i)
  }

  predicate PointerOk(page: seq<nat>, argv: seq<seq<nat>>, args: nat, i: nat)
    requires i <= |argv|
  {
    WordAt(page, args + 4 * i) == USTACKTOP - Total(argv) + Start(argv, i)
  }

  /** String i sits in the blob at its start, with its zero. */
  lemma {:induction false} BlobHolds(argv: seq<seq<nat>>, i: nat, n: nat)
    requires i < n <= |argv|
    ensures var at := Start(argv, i);
      && at + |argv[i]| < Start(argv, n)
      && Blob(argv, n)[at..at + |argv[i]|] == argv[i] && Blob(argv, n)[at + |argv[i]|] == 0
    decreases n
  {
    if i < n - 1 { BlobHolds(argv, i, n - 1); }
  }

  lemma {:induction false} StringThere(page: seq<nat>, off: nat, s: seq<nat>)
    requires CString(s) && off + |s| < |page| && page[off..off + |s|] == s && page[off + |s|] == 0
    ensures StringFrom(page, off) == s
    decreases |s|
  {
    if s != [] {
      assert page[off] == page[off..off + |s|][0];
      assert page[off + 1..off + 1 + |s[1..]|] == s[1..];
      StringThere(page, off + 1, s[1..]);
    }
  }

  lemma StringInside(page: seq<nat>, from: nat, blob: seq<nat>, at: nat, s: seq<nat>)
    requires from <= |page| && page[from..] == blob && CString(s)
    requires at + |s| < |blob| && blob[at..at + |s|] == s && blob[at + |s|] == 0
    ensures StringFrom(page, from + at) == s
  {
    assert page[from + at..from + at + |s|] == page[from..][at..at + |s|];
    StringThere(page, from + at, s);
  }

  lemma ChildReadsOne(page: seq<nat>, argv: seq<seq<nat>>, args: nat, i: nat)
    requires Strings(argv) && Filled(page, argv, args) && i < |argv|
    ensures ChildString(page, ChildWord(page, BOTTOM + args + 4 * i)) == argv[i]
  {
    var from, at := BY2PG - Total(argv), Start(argv, i);
    assert PointerOk(page, argv, args, i);
    BlobHolds(argv, i, |argv|);
    StringInside(page, from, Blob(argv, |argv|), at, argv[i]);
  }

  /** The child reads back the parent's arguments, all of them and nothing else. */
  lemma ChildReads(page: seq<nat>, argv: seq<seq<nat>>, args: nat)
    requires Strings(argv) && Filled(page, argv, args)
    ensures ChildArgs(page, BOTTOM + args - 8) == argv
  {
    var got := ChildArgs(page, BOTTOM + args - 8);
    assert |got| == |argv|;
    forall i | 0 <= i < |argv| ensures got[i] == argv[i] { ChildReadsOne(page, argv, args, i); }
  }

  /** The strings, the pointer array and the two words lie in this order in the page without overlap, and
      the stack pointer is inside it, exactly when the size check passes. */
  lemma LayoutExact(argv: seq<seq<nat>>)
    ensures var args: int := BY2PG - Round4(Total(argv)) - 4 * (|argv| + 1);
      && (args - 8 >= 0 <==> Round4(Total(argv)) + 4 * (|argv| + 3) <= BY2PG)
      && args % 4 == 0 && args + 4 * (|argv| + 1) <= BY2PG - Total(argv)
      && args + 4 * (|argv| + 1) + 4 > BY2PG - Total(argv)
  {}

  /** The word after the pointers is not a null pointer: it is the address of the last byte of the stack. */
  predicate EndOfArgs(page: seq<nat>, argv: seq<seq<nat>>, args: nat) {
    WordAt(page, args + 4 * |argv|) == USTACKTOP - 1
  }

  // ----- init_stack

  method CountArgs(argv: seq<seq<nat>>) returns (argc: nat, tot: nat)
    ensures argc == |argv| && tot == Total(argv)
  {
    argc, tot := 0, 0;
    while argc < |argv|
      invariant argc <= |argv| && tot == Start(argv, argc)
    {
      tot := tot + |argv[argc]| + 1;
      argc := argc + 1;
    }
  }

  lemma {:induction false} StartGrows(argv: seq<seq<nat>>, i: nat, n: nat)
    requires i <= n <= |argv|
    ensures Start(argv, i) <= Start(argv, n)
    ensures i < n ==> Start(argv, i) + |argv[i]| + 1 <= Start(argv, n)
    decreases n
  {
    if i < n { StartGrows(argv, i, n - 1); }
  }

  /** One string and its zero; the strings before it are in place from `strings` on. */
  method CopyString(page: array<nat>, strings: nat, at: nat, s: seq<nat>) returns (next: nat)
    requires strings <= at && at + |s| < page.Length
    modifies page
    ensures next == at + |s| + 1 && page[strings..next] == old(page[strings..at]) + s + [0]
    ensures page[..strings] == old(page[..strings])
  {
    next := at;
    for j := 0 to |s|
      invariant next == at + j && page[strings..next] == old(page[strings..at]) + s[..j]
      invariant page[..strings] == old(page[..strings])
    {
      page[next] := s[j];
      next := next + 1;
    }
    page[next] := 0;
    next := next + 1;
  }

  method CopyStrings(page: array<nat>, strings: nat, argv: seq<seq<nat>>)
    requires strings + Total(argv) == page.Length
    modifies page
    ensures page[strings..] == Blob(argv, |argv|) && page[..strings] == old(page[..strings])
  {
    var ctemp := strings;
    for i := 0 to |argv|
      invariant ctemp == strings + Start(argv, i) && strings <= ctemp <= page.Length
      invariant page[strings..ctemp] == Blob(argv, i) && page[..strings] == old(page[..strings])
    {
      StartGrows(argv, i, |argv|);
      ctemp := CopyString(page, strings, ctemp, argv[i]);
    }
  }

  /** The pointers, as the child will see the strings, and the word after them. */
  method StorePointers(page: array<nat>, args: nat, argv: seq<seq<nat>>)
    requires page.Length == BY2PG && Total(argv) <= BY2PG && args + 4 * (|argv| + 1) <= BY2PG - Total(argv)
    modifies page
    ensures forall i :: 0 <= i < |argv| ==> PointerOk(page[..], argv, args, i)
    ensures EndOfArgs(page[..], argv, args)
    ensures page[BY2PG - Total(argv)..] == old(page[BY2PG - Total(argv)..])
  {
    var ctemp: nat := USTACKTOP - Total(argv);
    ghost var strings := BY2PG - Total(argv);
    for i := 0 to |argv|
      invariant ctemp == USTACKTOP - Total(argv) + Start(argv, i) <= USTACKTOP
      invariant forall k :: 0 <= k < i ==> PointerOk(page[..], argv, args, k)
      invariant page[strings..] == old(page[strings..])
    {
      StartGrows(argv, i, |argv|);
      ghost var was := page[..];
      StoreWord(page, args + 4 * i, ctemp);
      PointersKept(was, page[..], argv, args, i);
      ctemp := ctemp + |argv[i]| + 1;
    }
    ctemp := ctemp - 1;
    ghost var was := page[..];
    StoreWord(page, args + 4 * |argv|, ctemp);
    PointersKept(was, page[..], argv, args, |argv|);
  }

  lemma PointersKept(was: seq<nat>, page: seq<nat>, argv: seq<seq<nat>>, args: nat, i: nat)
    requires i <= |argv| && forall k :: 0 <= k < i ==> PointerOk(was, argv, args, k)
    requires forall o: nat :: o + 4 <= args + 4 * i || args + 4 * i + 4 <= o ==> WordAt(page, o) == WordAt(was, o)
    ensures forall k :: 0 <= k < i ==> PointerOk(page, argv, args, k)
  {
    forall k | 0 <= k < i ensures PointerOk(page, argv, args, k) { assert PointerOk(was, argv, args, k); }
  }

  /** argc and the child's address of the pointers, below them. */
  method PushWords(page: array<nat>, args: nat, argv: seq<seq<nat>>)
    requires page.Length == BY2PG && 8 <= args && args + 4 * (|argv| + 1) <= BY2PG - Total(argv) && Total(argv) <= BY2PG
    requires forall i :: 0 <= i < |argv| ==> PointerOk(page[..], argv, args, i)
    requires EndOfArgs(page[..], argv, args) && page[BY2PG - Total(argv)..] == Blob(argv, |argv|)
    modifies page
    ensures Filled(page[..], argv, args) && EndOfArgs(page[..], argv, args)
  {
    ghost var was := page[..];
    StoreWord(page, args - 4, BOTTOM + args);
    StoreWord(page, args - 8, |argv|);
    forall i | 0 <= i < |argv| ensures PointerOk(page[..], argv, args, i) { assert PointerOk(was, argv, args, i); }
  }

  method FillPage(page: array<nat>, strings: nat, args: nat, argv: seq<seq<nat>>)
    requires Strings(argv) && page.Length == BY2PG && strings + Total(argv) == BY2PG
    requires 8 <= args && args + 4 * (|argv| + 1) <= strings
    modifies page
    ensures ChildArgs(page[..], BOTTOM + args - 8) == argv && EndOfArgs(page[..], argv, args)
  {
    CopyStrings(page, strings, argv);
    StorePointers(page, args, argv);
    PushWords(page, args, argv);
    ChildReads(page[..], argv, args);
  }

  /** `page` is the page syscall_mem_alloc gives at UTEMP; the system calls answer gotPage, mapped and
      unmapped. The page is filled, and the stack pointer known, whenever the check passes and there is a page. */
  method InitStack(argv: seq<seq<nat>>, page: array<nat>, gotPage: int, mapped: int, unmapped: int) returns (r: int, sp: nat)
    requires Strings(argv) && page.Length == BY2PG && gotPage <= 0 && mapped <= 0 && unmapped <= 0
    modifies page
    ensures Needed(argv) > BY2PG ==> r == -E_NO_MEM && page[..] == old(page[..])
    ensures Needed(argv) <= BY2PG ==> r == if gotPage < 0 then gotPage else if mapped < 0 then mapped else unmapped
    ensures Needed(argv) <= BY2PG && gotPage < 0 ==> page[..] == old(page[..])
    ensures Needed(argv) <= BY2PG && gotPage == 0 ==>
      && BOTTOM <= sp && sp + Needed(argv) == USTACKTOP && sp % 4 == 0
      && ChildArgs(page[..], sp) == argv && EndOfArgs(page[..], argv, sp - BOTTOM + 8)
  {
    sp := 0;
    var argc, tot := CountArgs(argv);
    var round := (tot + 3) / 4 * 4;
    assert round == Round4(tot);
    if round + 4 * (argc + 3) > BY2PG { r := -E_NO_MEM; return; }
    var strings := BY2PG - tot;
    var args := BY2PG - round - 4 * (argc + 1);
    r := gotPage;
    if r < 0 { return; }
    FillPage(page, strings, args, argv);
    sp := BOTTOM + args - 8;
    r := mapped;
    if r < 0 { return; }
    r := unmapped;
  }
}
