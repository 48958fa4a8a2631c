/**
 * The `GPIO_Pin` / `IoPin` enums (variant `Pk` has the `u16` value `1 << k`)
 * and `u16::trailing_zeros`, which the EXTI callbacks use to turn the pin
 * mask the HAL passes into an index of a 16-entry table.
 */
module GpioPins {
  import opened Common

  /** A pin variant `P00`..`P15`, by its bit number. */
  type Pin = k: nat | k < 16

  /** The number of pin variants (`GPIO_Pin::count()`), the length of every pin table. */
  const PIN_COUNT: nat := 16

  function Pow2(k: nat): (r: nat)
    ensures r >= 1
  {
    if k == 0 then 1 else 2 * Pow2(k - 1)
  }

  /** The `u16` value of a pin variant. */
  function Mask(p: Pin): nat
  {
    Pow2(p)
  }

  /** The number of zero bits below the lowest one bit among the low `w` bits of `x` (`w` if none). */
  function LowZeros(x: nat, w: nat): (r: nat)
    ensures r <= w
    ensures r < w ==> x % 2 == 0 || r == 0
  {
    if w == 0 || x % 2 == 1 then 0 else 1 + LowZeros(x / 2, w - 1)
  }

  /** `u16::trailing_zeros`. */
  function TrailingZeros(x: nat): (r: nat)
    requires x < U16_LIMIT
    ensures r <= 16
  {
    LowZeros(x, 16)
  }

  /** Zero has all `w` low bits zero. */
  lemma {:induction false} LowZerosOfZero(w: nat)
    ensures LowZeros(0, w) == w
  {
    if w > 0 {
      LowZerosOfZero(w - 1);
    }
  }

  /** Zero has 16 trailing zeros: it indexes one past the end of a pin table. */
  lemma TrailingZerosOfZero()
    ensures TrailingZeros(0) == PIN_COUNT
  {
    LowZerosOfZero(16);
  }

  /** Powers of two grow strictly. */
  lemma {:induction false} Pow2Below(k: nat, w: nat)
    requires k < w
    ensures Pow2(k) < Pow2(w)
    decreases w
  {
    if k < w - 1 {
      Pow2Below(k, w - 1);
    }
  }

  /** `1 << k` has `k` low zero bits in any width above `k`. */
  lemma {:induction false} LowZerosOfPow2(k: nat, w: nat)
    requires k < w
    ensures LowZeros(Pow2(k), w) == k
  {
    if k > 0 {
      LowZerosOfPow2(k - 1, w - 1);
      assert Pow2(k) % 2 == 0 && Pow2(k) / 2 == Pow2(k - 1);
    }
  }

  /** Every pin variant is a `u16` whose trailing-zero count is its bit number. */
  lemma MaskIndex(p: Pin)
    ensures Mask(p) < U16_LIMIT
    ensures TrailingZeros(Mask(p)) == p
  {
    Pow2Below(p, 16);
    assert Pow2(4) == 16;
    assert Pow2(8) == 256;
    assert Pow2(12) == 4096;
    assert Pow2(16) == U16_LIMIT;
    LowZerosOfPow2(p, 16);
  }

  /** Distinct pins have distinct values and distinct table indices. */
  lemma MaskInjective(p: Pin, q: Pin)
    ensures Mask(p) == Mask(q) <==> p == q
  {
    MaskIndex(p);
    MaskIndex(q);
  }
}
