/** Alignment arithmetic used by the arena allocator (Rogue::NextMultiple). */
module MathUtil {

  /** Rounds `value` up to the next multiple of `multipleOf`: the source adds
      `multipleOf - 1` and then subtracts the remainder of that sum. Both
      operands are unsigned in every use, so `%` agrees with Dafny's. */
  function NextMultiple(multipleOf: nat, value: nat): (r: nat)
    requires multipleOf > 0
    ensures r % multipleOf == 0
    ensures value <= r < value + multipleOf
  {
    var multiple := value + multipleOf - 1;
    RoundDownBounds(multipleOf, multiple);
    multiple - multiple % multipleOf
  }

  /** Subtracting the remainder leaves a multiple at most `m - 1` below `x`. */
  lemma RoundDownBounds(m: nat, x: nat)
    requires m > 0
    ensures (x - x % m) % m == 0
    ensures x - m < x - x % m <= x
  {
    DivModUnique(x - x % m, m, x / m, 0);
  }

  /** Euclidean division is unique: any quotient/remainder pair with the
      remainder in range is the one `/` and `%` compute. */
  lemma DivModUnique(x: int, m: nat, q: int, rem: int)
    requires m > 0 && 0 <= rem < m
    requires x == q * m + rem
    ensures x / m == q && x % m == rem
  {
    var q0, r0 := x / m, x % m;
    assert (q - q0) * m == r0 - rem;
    ScaledBounds(q - q0, m);
  }

  lemma ScaledBounds(d: int, m: int)
    requires m > 0
    requires -m < d * m < m
    ensures d == 0
  {
  }

  /** NextMultiple is the LEAST multiple of `m` that is at least `v`. */
  lemma NextMultipleIsLeast(m: nat, v: nat, k: nat)
    requires m > 0
    requires k % m == 0 && v <= k
    ensures NextMultiple(m, v) <= k
  {
    var r := NextMultiple(m, v);
    var qr, qk := r / m, k / m;
    assert r - k == (qr - qk) * m;
    QuotientOrder(qr - qk, m);
  }

  /** A multiple of `m` that is below `m` cannot be positive. */
  lemma QuotientOrder(d: int, m: nat)
    requires m > 0 && d * m < m
    ensures d * m <= 0
  {
  }

  /** A value that is already aligned is returned unchanged. */
  lemma NextMultipleOfMultiple(m: nat, v: nat)
    requires m > 0 && v % m == 0
    ensures NextMultiple(m, v) == v
  {
    NextMultipleIsLeast(m, v, v);
  }

  /** Aligning twice is aligning once. */
  lemma NextMultipleIdempotent(m: nat, v: nat)
    requires m > 0
    ensures NextMultiple(m, NextMultiple(m, v)) == NextMultiple(m, v)
  {
    NextMultipleOfMultiple(m, NextMultiple(m, v));
  }
}
