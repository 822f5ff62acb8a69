/** Go's int64, with its wrap-around. */
module Int64 {
  type int64 = x: int | -0x8000_0000_0000_0000 <= x < 0x8000_0000_0000_0000

  function Wrap(x: int): int64 {
    var m := x % 0x1_0000_0000_0000_0000;
    if m < 0x8000_0000_0000_0000 then m else m - 0x1_0000_0000_0000_0000
  }

  /** Wrapping changes a number by a multiple of 2 to the 64th, and not at all within the range. */
  lemma WrapIs(x: int) returns (k: int)
    ensures Wrap(x) == x + k * 0x1_0000_0000_0000_0000
    ensures -0x8000_0000_0000_0000 <= x < 0x8000_0000_0000_0000 ==> Wrap(x) == x
  {
    k := (Wrap(x) - x) / 0x1_0000_0000_0000_0000;
  }
}
