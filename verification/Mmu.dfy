/** Constants and word formats of include/mmu.h. */
module Mmu {
  const NPTE := 1024        // words in a page: BY2PG / 4
  const PDX_UTOP := 509     // PDX(UTOP), first directory slot above user memory
  const PDX_UVPT := 511     // PDX(UVPT), the self-map slot
  const NASID := 64

  /** The permission bits of a page table word; a permission is the set of bits that are 1. */
  datatype Flag = COW | DIRTY | LIBRARY | G | V | D | N | Other(bit: nat)
  type Perm = set<Flag>

  /** A page directory or page table word: a physical page number and its low 12 bits. */
  datatype Pte = Pte(ppn: nat, perm: Perm)
  const Zero := Pte(0, {})

  /** The words of a frame after memset. */
  function BlankPage(): (r: seq<Pte>)
    ensures |r| == NPTE
    ensures forall i :: 0 <= i < NPTE ==> r[i] == Zero
  {
    seq(NPTE, _ => Zero)
  }

  predicate Valid(w: Pte) {
    V in w.perm
  }

  /** A virtual page, split as the hardware splits it. */
  datatype Va = Va(pdx: nat, ptx: nat)

  /** The virtual page an address lies in. */
  function VaOf(a: nat): (v: Va)
    ensures v.ptx < NPTE && v.pdx * NPTE + v.ptx == a / 0x1000
  {
    Va(a / 0x40_0000, a / 0x1000 % NPTE)
  }

  predicate User(v: Va) {
    v.pdx < PDX_UTOP && v.ptx < NPTE
  }

  /** is_illegal_va: outside [UTEMP, UTOP). */
  predicate IllegalVa(v: Va) {
    (v.pdx == 0 && v.ptx < 0x3fe) || v.pdx >= PDX_UTOP
  }

  function UserPages(): (r: set<Va>)
    ensures forall v :: v in r <==> User(v)
  {
    set i: nat, j: nat | i < PDX_UTOP && j < NPTE :: Va(i, j)
  }
}
