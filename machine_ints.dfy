/** Integer helpers shared by both components: size_t's range and the std::max/std::min of two values. */
module MachineInts {

  /** One past the largest size_t value. */
  const SizeMod: nat := 0x1_0000_0000_0000_0000

  function Max(a: int, b: int): int {
    if a < b then b else a
  }

  function Min(a: int, b: int): int {
    if a < b then a else b
  }
}
