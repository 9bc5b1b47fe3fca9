/** Bytes, as numbers. */
module Bytes {
  type byte = x: int | 0 <= x < 0x100

  /** The 8-bit word of value `b`. */
  function AsWord(b: byte): (x: bv8)
    ensures x as int == b
  {
    if b == 0 then 0
    else
      Successor(AsWord(b - 1));
      AsWord(b - 1) + 1
  }

  lemma Successor(x: bv8)
    requires x as int < 0xFF
    ensures (x + 1) as int == x as int + 1
  {
  }

  /** A byte as a 64-bit word. */
  function Wide(b: byte): bv64 {
    AsWord(b) as bv64
  }

  lemma WideInjective(a: byte, b: byte)
    ensures Wide(a) == Wide(b) <==> a == b
  {
    assert AsWord(a) as int == a && AsWord(b) as int == b;
  }
}
