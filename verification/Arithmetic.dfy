// A product of reals under a name, so that proofs can hide that it is one.
module Arithmetic {
  function Times(x: real, y: real): real {
    x * y
  }
}
