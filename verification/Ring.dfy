/** Indices into a ring of `size` places. */
module Ring {
  /** The index after `i`. */
  function Advance(i: nat, size: nat): nat
  {
    if i + 1 >= size then 0 else i + 1
  }

  /** The place `k` after `i`. */
  function Place(i: nat, k: nat, size: nat): nat
    requires i + k < 2 * size
  {
    if i + k < size then i + k else i + k - size
  }
}
