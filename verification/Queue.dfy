/** The intrusive linked lists of include/queue.h.

    The elements are array slots (pages[i], envs[i]), so a pointer to an element is its index and the
    address of a `next` field is a Link.  A Chain is the memory of one list: its head and, for every
    slot, the two link fields embedded in it. */
module Queue {
  import opened Common

  datatype Ptr = Null | To(elm: nat)
  datatype Link = Unset | Head | NextOf(elm: nat)
  datatype Chain = Chain(first: Ptr, last: Link, next: seq<Ptr>, prev: seq<Link>)

  function PtrAt(q: seq<nat>, k: nat): Ptr {
    if k < |q| then To(q[k]) else Null
  }

  function LinkAt(q: seq<nat>, k: nat): Link
    requires k <= |q|
  {
    if k == 0 then Head else NextOf(q[k - 1])
  }

  /** Both links of the k-th element of `q`; `prev` holds the address of the link that points at it. */
  predicate Cell(c: Chain, q: seq<nat>, k: nat) {
    && k < |q| && q[k] < |c.next| == |c.prev|
    && c.next[q[k]] == PtrAt(q, k + 1)
    && c.prev[q[k]] == LinkAt(q, k)
  }

  /** Walking the list from its head meets exactly `q`. */
  ghost predicate Linked(c: Chain, q: seq<nat>) {
    && |c.next| == |c.prev|
    && Distinct(q)
    && c.first == PtrAt(q, 0)
    && forall k: nat :: k < |q| ==> Cell(c, q, k)
  }

  /** A tail queue also keeps the address of its last link. */
  ghost predicate Represents(c: Chain, q: seq<nat>) {
    Linked(c, q) && c.last == LinkAt(q, |q|)
  }

  predicate Addressable(c: Chain, l: Link) {
    l.Head? || (l.NextOf? && l.elm < |c.next|)
  }

  /** `*l = p` */
  function Store(c: Chain, l: Link, p: Ptr): Chain {
    match l
    case Unset => c
    case Head => c.(first := p)
    case NextOf(i) => if i < |c.next| then c.(next := c.next[i := p]) else c
  }

  function Load(c: Chain, l: Link): Ptr {
    match l
    case Unset => Null
    case Head => c.first
    case NextOf(i) => if i < |c.next| then c.next[i] else Null
  }

  predicate Slot(c: Chain, e: nat) {
    e < |c.next| && e < |c.prev|
  }

  function ListInserted(c: Chain, e: nat): Chain
    requires Slot(c, e)
  {
    var c1 := c.(next := c.next[e := c.first]);
    var c2 := if c.first.To? && c.first.elm < |c1.prev|
              then c1.(prev := c1.prev[c.first.elm := NextOf(e)]) else c1;
    c2.(first := To(e), prev := c2.prev[e := Head])
  }

  function ListRemoved(c: Chain, e: nat): Chain
    requires Slot(c, e)
  {
    var n := c.next[e];
    var c1 := if n.To? && n.elm < |c.prev| then c.(prev := c.prev[n.elm := c.prev[e]]) else c;
    Store(c1, c1.prev[e], c1.next[e])
  }

  function HeadInserted(c: Chain, e: nat): Chain
    requires Slot(c, e)
  {
    var c' := ListInserted(c, e);
    if c.first.Null? then c'.(last := NextOf(e)) else c'
  }

  function TailInserted(c: Chain, e: nat): Chain
    requires Slot(c, e)
  {
    var c1 := c.(next := c.next[e := Null], prev := c.prev[e := c.last]);
    Store(c1, c.last, To(e)).(last := NextOf(e))
  }

  function Removed(c: Chain, e: nat): Chain
    requires Slot(c, e)
  {
    ListRemoved(if c.next[e].Null? then c.(last := c.prev[e]) else c, e)
  }

  function Without(q: seq<nat>, e: nat): (r: seq<nat>)
    ensures e !in q ==> r == q
    ensures e !in r
    ensures forall x :: x in r <==> x in q && x != e
  {
    if q == [] then []
    else
      assert q == [q[0]] + q[1..];
      if q[0] == e then Without(q[1..], e) else [q[0]] + Without(q[1..], e)
  }

  lemma {:induction false} WithoutAt(q: seq<nat>, k: nat)
    requires k < |q| && Distinct(q)
    ensures Without(q, q[k]) == Cut(q, k)
  {
    var rest := q[1..];
    if k == 0 {
      assert q[0] !in rest;
      assert Cut(q, 0) == rest;
    } else {
      WithoutAt(rest, k - 1);
      assert rest[k - 1] == q[k] && q[0] != q[k];
      assert Cut(q, k) == [q[0]] + Cut(rest, k - 1);
    }
  }

  // ----- what the list operations do to a well-formed list

  lemma InsertHeadKeeps(c: Chain, q: seq<nat>, e: nat)
    requires Linked(c, q) && Slot(c, e) && e !in q
    ensures Linked(ListInserted(c, e), [e] + q)
    ensures Represents(c, q) ==> Represents(HeadInserted(c, e), [e] + q)
  {
    var c', q' := ListInserted(c, e), [e] + q;
    if q != [] { assert Cell(c, q, 0) && q[0] in q; }
    forall k: nat | k < |q'| ensures Cell(c', q', k) {
      if k > 0 {
        assert q'[k] == q[k - 1] && q[k - 1] in q && Cell(c, q, k - 1);
        assert k == 1 || q[k - 1] != q[0];
      }
    }
    assert Linked(c', q');
    if Represents(c, q) {
      var d := HeadInserted(c, e);
      forall k: nat | k < |q'| ensures Cell(d, q', k) {
        assert Cell(c', q', k);
      }
    }
  }

  lemma InsertTailKeeps(c: Chain, q: seq<nat>, e: nat)
    requires Represents(c, q) && Slot(c, e) && e !in q
    ensures Represents(TailInserted(c, e), q + [e])
  {
    var c', q' := TailInserted(c, e), q + [e];
    if q != [] { assert Cell(c, q, |q| - 1) && q[|q| - 1] in q; }
    forall k: nat | k < |q'| ensures Cell(c', q', k) {
      if k < |q| {
        assert q'[k] == q[k] && q[k] in q && Cell(c, q, k);
        assert k + 1 == |q| || q[k] != q[|q| - 1];
      }
    }
  }

  /** `q` without its k-th element. */
  function Cut(q: seq<nat>, k: nat): (r: seq<nat>)
    requires k < |q|
    ensures |r| == |q| - 1
    ensures forall i :: 0 <= i < k ==> r[i] == q[i]
    ensures forall i :: k <= i < |r| ==> r[i] == q[i + 1]
  {
    q[..k] + q[k + 1..]
  }

  lemma RemoveCell(c: Chain, q: seq<nat>, k: nat, i: nat)
    requires Linked(c, q) && k < |q| && i < |q| - 1
    ensures Slot(c, q[k]) && Cell(ListRemoved(c, q[k]), Cut(q, k), i)
  {
    var j := if i < k then i else i + 1;
    assert Cell(c, q, k) && Cell(c, q, j);
    var c', r := ListRemoved(c, q[k]), Cut(q, k);
    assert r[i] == q[j];
    if k > 0 { assert Cell(c, q, k - 1); assert r[k - 1] == q[k - 1]; }
    if k + 1 < |q| { assert Cell(c, q, k + 1); assert r[k] == q[k + 1]; }
  }

  lemma RemoveAt(c: Chain, q: seq<nat>, k: nat)
    requires Linked(c, q) && k < |q|
    ensures Slot(c, q[k])
    ensures Linked(ListRemoved(c, q[k]), Cut(q, k))
    ensures Represents(c, q) ==> Represents(Removed(c, q[k]), Cut(q, k))
  {
    var e, r := q[k], Cut(q, k);
    assert Cell(c, q, k);
    var c' := ListRemoved(c, e);
    forall i: nat | i < |r| ensures Cell(c', r, i) {
      RemoveCell(c, q, k, i);
    }
    if Represents(c, q) {
      var d := Removed(c, e);
      assert d.first == c'.first && d.next == c'.next && d.prev == c'.prev;
      forall i: nat | i < |r| ensures Cell(d, r, i) {
        assert Cell(c', r, i);
      }
    }
  }

  /** LIST_REMOVE and TAILQ_REMOVE take exactly `e` out of the list. */
  lemma RemoveKeeps(c: Chain, q: seq<nat>, e: nat)
    requires Linked(c, q) && e in q
    ensures Slot(c, e)
    ensures Linked(ListRemoved(c, e), Without(q, e))
    ensures Represents(c, q) ==> Represents(Removed(c, e), Without(q, e))
  {
    var k :| 0 <= k < |q| && q[k] == e;
    RemoveAt(c, q, k);
    WithoutAt(q, k);
  }

  /** The head of a list can be unlinked. */
  lemma TakeFirst(c: Chain, q: seq<nat>)
    requires Linked(c, q) && q != []
    ensures c.first == To(q[0]) && Slot(c, q[0]) && Addressable(c, c.prev[q[0]])
    ensures c.next[q[0]].To? ==> c.next[q[0]].elm < |c.prev|
    ensures Linked(ListRemoved(c, q[0]), q[1..]) && |ListRemoved(c, q[0]).next| == |c.next|
  {
    assert Cell(c, q, 0);
    if |q| > 1 { assert Cell(c, q, 1); }
    RemoveAt(c, q, 0);
    assert Cut(q, 0) == q[1..];
  }

  // ----- when the operations break it

  /** The list contents are determined by the links: two readings agree as far as both go. */
  lemma {:induction false} SameWalk(c: Chain, c': Chain, q: seq<nat>, q': seq<nat>, k: nat)
    requires Linked(c, q) && Linked(c', q') && c.first == c'.first && k < |q|
    requires forall i :: 0 <= i < k ==> q[i] < |c'.next| && q[i] < |c.next| && c'.next[q[i]] == c.next[q[i]]
    ensures k < |q'| && q'[k] == q[k]
  {
    if k > 0 {
      SameWalk(c, c', q, q', k - 1);
      assert Cell(c, q, k - 1) && Cell(c', q', k - 1);
    }
  }

  /** TAILQ_INSERT_TAIL does not check membership: it leaves a well-formed queue exactly when the
      element was not queued already. */
  lemma InsertTailExact(c: Chain, q: seq<nat>, e: nat)
    requires Represents(c, q) && Slot(c, e)
    ensures (exists q' :: Represents(TailInserted(c, e), q')) <==> e !in q
  {
    if e !in q {
      InsertTailKeeps(c, q, e);
    } else {
      var k :| 0 <= k < |q| && q[k] == e;
      forall q' ensures !Represents(TailInserted(c, e), q') {
        InsertTailTwice(c, q, k, q');
      }
    }
  }

  lemma InsertTailTwice(c: Chain, q: seq<nat>, k: nat, q': seq<nat>)
    requires Represents(c, q) && k < |q| && Slot(c, q[k])
    ensures !Represents(TailInserted(c, q[k]), q')
  {
    var e, c', z := q[k], TailInserted(c, q[k]), q[|q| - 1];
    assert Cell(c, q, k) && Cell(c, q, |q| - 1);
    assert c'.prev[e] == NextOf(z) && c'.next[z] == To(e);
    assert k + 1 < |q| ==> z != e && c'.next[e] == Null;
    if Represents(c', q') {
      forall i | 0 <= i < k
        ensures q[i] < |c'.next| && q[i] < |c.next| && c'.next[q[i]] == c.next[q[i]]
      {
        assert Cell(c, q, i) && q[i] != e && q[i] != z;
      }
      SameWalk(c, c', q, q', k);
      assert Cell(c', q', k);
      if 0 < k {
        SameWalk(c, c', q, q', k - 1);
      }
    }
  }

  /** Removing an element that is not queued rewrites whatever its stale links address; the queue
      survives exactly when those writes store what is already there. */
  predicate Inert(c: Chain, q: seq<nat>, e: nat)
    requires Slot(c, e)
  {
    var p, n := c.prev[e], c.next[e];
    && (n.To? && n.elm in q ==> n.elm < |c.prev| && c.prev[n.elm] == p)
    && (n.Null? ==> c.last == p)
    && (p.Head? || (p.NextOf? && p.elm in q) ==> Load(c, p) == n)
  }

  lemma RemoveStrayCell(c: Chain, q: seq<nat>, e: nat, k: nat)
    requires Represents(c, q) && Slot(c, e) && k < |q| && e !in q
    ensures Inert(c, q, e) ==> Cell(Removed(c, e), q, k)
    ensures Cell(Removed(c, e), q, k) && c.next[e] == To(q[k]) ==> c.prev[q[k]] == c.prev[e]
    ensures Cell(Removed(c, e), q, k) && c.prev[e] == NextOf(q[k]) ==> Load(c, c.prev[e]) == c.next[e]
  {
    assert Cell(c, q, k) && q[k] in q;
  }

  lemma RemoveStrayExact(c: Chain, q: seq<nat>, e: nat)
    requires Represents(c, q) && Slot(c, e) && e !in q
    ensures Represents(Removed(c, e), q) <==> Inert(c, q, e)
  {
    var p, n, c' := c.prev[e], c.next[e], Removed(c, e);
    forall k: nat | k < |q| ensures Inert(c, q, e) ==> Cell(c', q, k) {
      RemoveStrayCell(c, q, e, k);
    }
    if Represents(c', q) {
      if n.To? && n.elm in q {
        var k :| 0 <= k < |q| && q[k] == n.elm;
        RemoveStrayCell(c, q, e, k);
        assert Cell(c', q, k) && Cell(c, q, k);
      }
      if p.NextOf? && p.elm in q {
        var k :| 0 <= k < |q| && q[k] == p.elm;
        RemoveStrayCell(c, q, e, k);
        assert Cell(c', q, k) && Cell(c, q, k);
      }
    }
  }

  // ----- the same operations in place

  /** One list head together with the link fields embedded in every slot of the element array. */
  class List {
    var first: Ptr
    var last: Link
    const next: array<Ptr>
    const prev: array<Link>

    ghost function Mem(): Chain
      reads this, next, prev
    {
      Chain(first, last, next[..], prev[..])
    }

    constructor (n: nat)
      ensures Mem() == Chain(Null, Head, seq(n, _ => Null), seq(n, _ => Unset))
      ensures fresh(next) && fresh(prev)
    {
      first, last := Null, Head;
      next := new Ptr[n](_ => Null);
      prev := new Link[n](_ => Unset);
      new;
      assert next[..] == seq(n, _ => Null) && prev[..] == seq(n, _ => Unset);
    }

    /** `*l = p` */
    method StoreLink(l: Link, p: Ptr)
      requires Addressable(Mem(), l)
      modifies this`first, next
      ensures Mem() == Store(old(Mem()), l, p)
    {
      match l
      case Unset =>
      case Head => first := p;
      case NextOf(i) => next[i] := p;
    }

    method ListInsertHead(e: nat)
      requires Slot(Mem(), e)
      requires first.To? ==> first.elm < prev.Length
      modifies this`first, next, prev
      ensures Mem() == ListInserted(old(Mem()), e)
    {
      next[e] := first;
      if first.To? {
        prev[first.elm] := NextOf(e);
      }
      first := To(e);
      prev[e] := Head;
    }

    method ListRemove(e: nat)
      requires Slot(Mem(), e) && Addressable(Mem(), prev[e])
      requires next[e].To? ==> next[e].elm < prev.Length
      modifies this`first, next, prev
      ensures Mem() == ListRemoved(old(Mem()), e)
    {
      if next[e].To? {
        prev[next[e].elm] := prev[e];
      }
      StoreLink(prev[e], next[e]);
    }

    method TailqInsertHead(e: nat)
      requires Slot(Mem(), e)
      requires first.To? ==> first.elm < prev.Length
      modifies this, next, prev
      ensures Mem() == HeadInserted(old(Mem()), e)
    {
      next[e] := first;
      if first.To? {
        prev[first.elm] := NextOf(e);
      } else {
        last := NextOf(e);
      }
      first := To(e);
      prev[e] := Head;
    }

    method TailqInsertTail(e: nat)
      requires Slot(Mem(), e) && Addressable(Mem(), last)
      modifies this, next, prev
      ensures Mem() == TailInserted(old(Mem()), e)
    {
      next[e] := Null;
      prev[e] := last;
      StoreLink(last, To(e));
      last := NextOf(e);
    }

    method TailqRemove(e: nat)
      requires Slot(Mem(), e) && Addressable(Mem(), prev[e])
      requires next[e].To? ==> next[e].elm < prev.Length
      modifies this, next, prev
      ensures Mem() == Removed(old(Mem()), e)
    {
      if next[e].To? {
        prev[next[e].elm] := prev[e];
      } else {
        last := prev[e];
      }
      StoreLink(prev[e], next[e]);
    }
  }
}
