/** Integer helpers shared by the mask geometry and the inlier ratio. */
module Ints {

  function Min(a: int, b: int): int { if a < b then a else b }

  function Max(a: int, b: int): int { if a < b then b else a }
}
