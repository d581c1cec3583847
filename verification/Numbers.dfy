/** Machine integers and the result type the trellis operations share. */
module Numbers {

  const U32_MAX: int := 0xFFFF_FFFF

  /** A 32-bit unsigned integer: storing into one is an obligation that no addition overflowed. */
  type u32 = x: int | 0 <= x <= U32_MAX

  /** Rust's `saturating_add`. */
  function SaturatingAdd(a: u32, b: u32): (r: u32)
    ensures a <= r && b <= r && r <= a + b
    ensures r < U32_MAX ==> r == a + b
  {
    if a + b > U32_MAX then U32_MAX else a + b
  }

  function Min(a: int, b: int): int { if a <= b then a else b }

  datatype Option<+T> = None | Some(value: T)

  datatype Result<+T, +E> = Ok(value: T) | Err(error: E)

  /** A row-major cell lies inside its matrix. */
  lemma RowMajorBound(i: nat, j: nat, rows: nat, cols: nat)
    requires i < rows && j < cols
    ensures 0 <= i * cols + j < rows * cols
  {
    assert (i + 1) * cols <= rows * cols;
  }

  /** Distinct cells of a row-major matrix have distinct positions. */
  lemma RowMajorInjective(i: nat, j: nat, i': nat, j': nat, cols: nat)
    requires j < cols && j' < cols && (i != i' || j != j')
    ensures i * cols + j != i' * cols + j'
  {
    if i < i' {
      assert (i + 1) * cols <= i' * cols;
    } else if i' < i {
      assert (i' + 1) * cols <= i * cols;
    }
  }
}
