/**
  Row offsets. The byte offset of row i in a buffer of rows of w bytes is
  defined by stepping w bytes per row, as the conversion loop advances its
  output pointer, and shown equal to i * w once.
*/
module Arith {

  lemma MulMonotone(w: nat, a: nat, b: nat)
    requires a <= b
    ensures a * w <= b * w && w * a <= w * b
  {
  }

  lemma MulSucc(n: nat, w: nat)
    ensures n * w + w == (n + 1) * w
    ensures w * n + w == w * (n + 1)
  {
  }

  /** The offset of row i: w bytes past the offset of row i - 1. */
  function Slot(i: nat, w: nat): nat {
    if i == 0 then 0 else Slot(i - 1, w) + w
  }

  lemma {:induction false} SlotIsProduct(i: nat, w: nat)
    ensures Slot(i, w) == i * w
  {
    if i > 0 {
      SlotIsProduct(i - 1, w);
      MulSucc(i - 1, w);
    }
  }

  /** Later rows start later, and no earlier than the end of every earlier row. */
  lemma {:induction false} SlotMonotone(i: nat, j: nat, w: nat)
    requires i <= j
    ensures Slot(i, w) <= Slot(j, w)
    ensures i < j ==> Slot(i, w) + w <= Slot(j, w)
    decreases j
  {
    if i < j {
      SlotMonotone(i, j - 1, w);
    }
  }

  /** The row, between lo and hi, whose slot holds offset q of [Slot(lo), Slot(hi)). */
  lemma {:induction false} SlotOf(q: nat, w: nat, lo: nat, hi: nat) returns (i: nat)
    requires Slot(lo, w) <= q < Slot(hi, w)
    ensures lo <= i < hi && Slot(i, w) <= q < Slot(i, w) + w
    decreases hi
  {
    if hi <= lo {
      SlotMonotone(hi, lo, w);
      assert false;
    }
    if Slot(hi - 1, w) <= q {
      i := hi - 1;
    } else {
      i := SlotOf(q, w, lo, hi - 1);
    }
  }
}
