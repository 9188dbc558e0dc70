/** Octets, and the 256-entry tables the codecs index by them. */
module Bytes {
  type Byte = bv8

  // The table index of a character: static_cast<unsigned char>.
  function Slot(c: Byte): (i: nat)
    ensures i < 256
  {
    c as int
  }

  lemma SlotInjective(c: Byte, d: Byte)
    ensures Slot(c) == Slot(d) ==> c == d
  {
  }

  method Store(table: array<Byte>, c: Byte, v: Byte)
    requires table.Length == 256
    modifies table
    ensures forall d: Byte :: table[Slot(d)] == if d == c then v else old(table[Slot(d)])
  {
    table[Slot(c)] := v;
    forall d: Byte ensures table[Slot(d)] == if d == c then v else old(table[Slot(d)]) {
      SlotInjective(c, d);
    }
  }
}
