/** The address space layout of include/mmu.h, and the page numbers the other modules use for it. */
module Layout {
  import opened Common
  import opened Mmu
  import Cow
  import InitStack
  import Memory

  const PDMAP := 0x40_0000
  const ULIM := 0x8000_0000
  const UVPT := ULIM - PDMAP
  const UPAGES := UVPT - PDMAP
  const UENVS := UPAGES - PDMAP
  const UTOP := UENVS
  const USTACKTOP := UTOP - 2 * BY2PG
  const UTEXT := PDMAP
  const UCOW := UTEXT - BY2PG
  const UTEMP := UCOW - BY2PG

  lemma Constants()
    ensures PDX_UTOP * PDMAP == UTOP && PDX_UVPT * PDMAP == UVPT && NPTE * BY2PG == PDMAP
    ensures Cow.UCOW * BY2PG == UCOW && Cow.USTACKTOP * BY2PG == USTACKTOP && InitStack.USTACKTOP == USTACKTOP
  {}

  /** An address is its page and the offset in it. */
  lemma PageOfAddress(a: nat)
    ensures VaOf(a).ptx < NPTE && BY2PG * (NPTE * VaOf(a).pdx + VaOf(a).ptx) + a % BY2PG == a
  {}

  /** is_illegal_va */
  lemma IllegalExact(a: nat)
    ensures IllegalVa(VaOf(a)) <==> a < UTEMP || a >= UTOP
  {
    PageOfAddress(a);
  }

  /** passive_alloc serves every address that none of its five tests stops. */
  lemma FillableExact(a: nat)
    ensures Memory.Fillable(VaOf(a)) <==>
      !(a < UTEMP) && !(USTACKTOP <= a < USTACKTOP + BY2PG) && !(UENVS <= a < UPAGES) && !(UPAGES <= a < UVPT) && !(a >= ULIM)
  {
    PageOfAddress(a);
  }
}
