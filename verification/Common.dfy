/** What several components share: include/error.h, the page size and a few notions of lists and pages. */
module Common {
  const E_BAD_ENV := 2
  const E_INVAL := 3
  const E_NO_MEM := 4
  const E_NO_FREE_ENV := 6
  const E_IPC_NOT_RECV := 7
  const E_NO_DISK := 8
  const E_NOT_FOUND := 10
  const E_BAD_PATH := 11

  const BY2PG := 4096

  function ZeroPage(): (r: seq<nat>)
    ensures |r| == BY2PG && forall k :: 0 <= k < BY2PG ==> r[k] == 0
  {
    seq(BY2PG, _ => 0)
  }

  ghost predicate Distinct(q: seq<nat>) {
    forall i, j :: 0 <= i < j < |q| ==> q[i] != q[j]
  }
}
