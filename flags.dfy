/** The field flag bitmask: a descriptor's flags are an OR of these bits. */
module ModelFlags {

  const NONE: bv32 := 0
  const RO: bv32 := 1 << 0
  const PRIMARY: bv32 := 1 << 1
  const UNIQUE: bv32 := 1 << 2
  const NULLABLE: bv32 := 1 << 3
  const INTERNAL: bv32 := 1 << 4

  /** Every named flag other than NONE. */
  const KNOWN: seq<bv32> := [RO, PRIMARY, UNIQUE, NULLABLE, INTERNAL]

  /** f is one of the named flags. */
  predicate IsKnown(f: bv32)
  {
    f == RO || f == PRIMARY || f == UNIQUE || f == NULLABLE || f == INTERNAL
  }

  predicate IsSingleBit(f: bv32)
  {
    f != 0 && f & (f - 1) == 0
  }

  /** The test a caller writes as `flags & FLAG`. */
  predicate Has(mask: bv32, f: bv32)
  {
    mask & f != 0
  }

  /** The mask a caller writes as `F1 | F2 | ...`; the empty combination is NONE. */
  function Combine(fs: seq<bv32>): bv32
  {
    if fs == [] then NONE else fs[0] | Combine(fs[1..])
  }

  /** NONE is zero and the named flags are distinct single bits. */
  lemma FlagsAreDistinctBits()
    ensures NONE == 0
    ensures forall i :: 0 <= i < |KNOWN| ==> IsKnown(KNOWN[i]) && IsSingleBit(KNOWN[i])
    ensures forall i, j :: 0 <= i < j < |KNOWN| ==> KNOWN[i] & KNOWN[j] == 0
  {
  }

  /** Two named flags overlap exactly when they are the same flag. */
  lemma KnownOverlap(a: bv32, b: bv32)
    requires IsKnown(a) && IsKnown(b)
    ensures a & b != 0 <==> a == b
  {
  }

  /**
   * Testing a combination of named flags with `&` finds exactly the flags that
   * were combined, so OR-ing flags loses no information.
   */
  lemma {:induction false} CombineTestsExactly(fs: seq<bv32>, f: bv32)
    requires forall i :: 0 <= i < |fs| ==> IsKnown(fs[i])
    requires IsKnown(f)
    ensures Has(Combine(fs), f) <==> f in fs
  {
    if fs != [] {
      CombineTestsExactly(fs[1..], f);
      CombineStep(fs[0], Combine(fs[1..]), f);
      assert fs == [fs[0]] + fs[1..];
    }
  }

  /** Adding a named flag to a mask adds exactly that flag to what the mask tests for. */
  lemma CombineStep(head: bv32, rest: bv32, f: bv32)
    requires IsKnown(head) && IsKnown(f)
    ensures Has(head | rest, f) <==> head == f || Has(rest, f)
  {
    KnownOverlap(head, f);
    assert (head | rest) & f == (head & f) | (rest & f);
  }

  /** NONE tests negative for every flag. */
  lemma NoneHasNoFlag(f: bv32)
    ensures !Has(NONE, f)
  {
  }
}
