/** Small definitions that several components share. */
module Basics {
  type Byte = b: nat | b < 256

  function Min(a: nat, b: nat): nat {
    if a <= b then a else b
  }
}
