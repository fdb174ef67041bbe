/** Operators on 32-bit register words. They have names so that proofs about registers
    can treat them as black boxes and use only the laws stated here. */
module Words {

  function And(w: bv32, m: bv32): bv32 {
    w & m
  }

  function AndNot(w: bv32, m: bv32): bv32 {
    w & !m
  }

  function Or(w: bv32, m: bv32): bv32 {
    w | m
  }

  function Up16(w: bv32): bv32 {
    w << 16
  }

  function Down16(w: bv32): bv32 {
    w >> 16
  }

  type BitIndex = k: bv32 | k < 32

  /** `1 << k`. */
  function Mask(k: BitIndex): bv32 {
    1 << k
  }

  predicate IsOdd(v: bv32) {
    v % 2 != 0
  }

  lemma MasksDisjoint(a: BitIndex, c: BitIndex)
    requires a != c
    ensures And(Mask(a), Mask(c)) == 0
  {
  }

  lemma AndAssociates(w: bv32, x: bv32, y: bv32)
    ensures And(And(w, x), y) == And(w, And(x, y))
  {
  }

  lemma OrAssociates(w: bv32, x: bv32, y: bv32)
    ensures Or(Or(w, x), y) == Or(w, Or(x, y))
  {
  }

  lemma SameBits(x: bv32, y: bv32)
    requires AndNot(x, y) == 0 && AndNot(y, x) == 0
    ensures x == y
  {
  }

  lemma AndDistributesDown(x: bv32, y: bv32, m: bv32)
    ensures AndNot(And(Or(x, y), m), Or(And(x, m), And(y, m))) == 0
  {
  }

  lemma AndDistributesUp(x: bv32, y: bv32, m: bv32)
    ensures AndNot(Or(And(x, m), And(y, m)), And(Or(x, y), m)) == 0
  {
  }

  lemma AndDistributes(x: bv32, y: bv32, m: bv32)
    ensures And(Or(x, y), m) == Or(And(x, m), And(y, m))
  {
    hide And, Or, AndNot;
    AndDistributesDown(x, y, m);
    AndDistributesUp(x, y, m);
    SameBits(And(Or(x, y), m), Or(And(x, m), And(y, m)));
  }

  lemma AndCommutes(x: bv32, y: bv32)
    ensures And(x, y) == And(y, x)
  {
  }

  lemma OrCommutes(x: bv32, y: bv32)
    ensures Or(x, y) == Or(y, x)
  {
  }

  lemma ClearIsAnd(x: bv32, m: bv32)
    ensures AndNot(x, m) == And(x, !m)
  {
  }

  lemma ZeroLaws(w: bv32)
    ensures And(w, 0) == 0 && Or(w, 0) == w && Or(0, w) == w
  {
  }

  lemma OrIsZero(x: bv32, y: bv32)
    ensures Or(x, y) == 0 <==> x == 0 && y == 0
  {
  }

  lemma ClearDistributes(x: bv32, y: bv32, m: bv32)
    ensures AndNot(Or(x, y), m) == Or(AndNot(x, m), AndNot(y, m))
  {
    hide And, Or, AndNot;
    ClearIsAnd(Or(x, y), m);
    ClearIsAnd(x, m);
    ClearIsAnd(y, m);
    AndDistributes(x, y, !m);
  }

  lemma ClearTwice(w: bv32, m: bv32)
    ensures AndNot(AndNot(w, m), m) == AndNot(w, m)
  {
  }

  lemma ClearAll(m: bv32)
    ensures AndNot(m, m) == 0
  {
  }

  lemma UnionAddsNothing(x: bv32, y: bv32)
    ensures Or(x, y) == x <==> AndNot(y, x) == 0
  {
  }
}
