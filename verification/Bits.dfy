/** Bitmaps held in 32-bit words.  A word is the set of its bit positions that are 1, so `|` is union,
    `& ~` is difference and `w & (1 << i)` asks for membership. */
module Bits {
  type Word = set<nat>

  /** `b[i / 32] & (1 << (i % 32))` */
  predicate In(b: seq<Word>, i: nat) {
    i < 32 * |b| && i % 32 in b[i / 32]
  }

  /** `b[i / 32] |= 1 << (i % 32)` */
  function Set(b: seq<Word>, i: nat): seq<Word>
    requires i < 32 * |b|
  {
    b[i / 32 := b[i / 32] + {i % 32}]
  }

  /** `b[i / 32] &= ~(1 << (i % 32))` */
  function Clear(b: seq<Word>, i: nat): seq<Word>
    requires i < 32 * |b|
  {
    b[i / 32 := b[i / 32] - {i % 32}]
  }

  lemma SetIn(b: seq<Word>, i: nat, j: nat)
    requires i < 32 * |b|
    ensures In(Set(b, i), j) <==> i == j || In(b, j)
  {
    assert i / 32 == j / 32 && i % 32 == j % 32 ==> i == j;
  }

  lemma ClearIn(b: seq<Word>, i: nat, j: nat)
    requires i < 32 * |b|
    ensures In(Clear(b, i), j) <==> i != j && In(b, j)
  {
    assert i / 32 == j / 32 && i % 32 == j % 32 ==> i == j;
  }

  lemma SetClear(b: seq<Word>, i: nat)
    requires In(b, i)
    ensures Set(Clear(b, i), i) == b
  {
    assert b[i / 32] - {i % 32} + {i % 32} == b[i / 32];
  }
}
