/** The hash of a string (lstring.c: luaS_newlstr). */
module GcStringHash {

  type Bytes = seq<bv8>

  function Mix(h: bv32, c: bv8): bv32 {
    h ^ ((h << 5) + (h >> 2) + c as bv32)
  }

  /** The bytes at l1 - 1, l1 - 1 - step, ... are mixed in: a long string is sampled. */
  function HashFrom(str: Bytes, l1: nat, step: nat, h: bv32): bv32
    requires l1 <= |str| && step > 0
    decreases l1
  {
    if l1 >= step then HashFrom(str, l1 - step, step, Mix(h, str[l1 - 1])) else h
  }

  function Hash(str: Bytes): nat {
    HashFrom(str, |str|, |str| / 32 + 1, (|str| % 0x1_0000_0000) as bv32) as nat
  }
}
