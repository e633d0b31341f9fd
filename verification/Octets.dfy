/** A byte as a number and as eight bits. */
module Octets {
  lemma OctetIs(a: int)
    requires 0 <= a < 256
    ensures (a as bv8) as int == a
  {
  }
}
