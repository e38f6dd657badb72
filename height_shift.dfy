/** The height shift: how many halvings bring the world's height into the
    256 buckets of the elevation ramp. */
module HeightShift {

  /** `x >> k` on a Java `int` for a small k: k halvings, each rounding down. */
  function Shr(x: int, k: nat): int
    decreases k
  {
    if k == 0 then x else Shr(x / 2, k - 1)
  }

  function Pow2(n: nat): (p: nat)
    ensures p > 0
  {
    if n == 0 then 1 else 2 * Pow2(n - 1)
  }

  /** shift brings the world height to at most 256, and no smaller shift does. */
  predicate IsHeightShift(worldHeight: int, shift: nat) {
    Shr(worldHeight, shift) <= 256 && (shift > 0 ==> Shr(worldHeight, shift - 1) > 256)
  }

  lemma {:induction false} ShrLast(x: int, k: nat)
    ensures Shr(x, k + 1) == Shr(x, k) / 2
    decreases k
  {
    if k > 0 {
      ShrLast(x / 2, k - 1);
    }
  }

  lemma {:induction false} ShrMonotone(x: int, y: int, k: nat)
    requires x <= y
    ensures Shr(x, k) <= Shr(y, k)
    decreases k
  {
    if k > 0 {
      ShrMonotone(x / 2, y / 2, k - 1);
    }
  }

  lemma {:induction false} ShrNonincreasing(x: int, j: nat, k: nat)
    requires 0 <= x && j <= k
    ensures 0 <= Shr(x, k) <= Shr(x, j)
    decreases k - j
  {
    if j < k {
      ShrNonincreasing(x, j, k - 1);
      ShrLast(x, k - 1);
    } else {
      ShrNonincreasing0(x, k);
    }
  }

  lemma {:induction false} ShrNonincreasing0(x: int, k: nat)
    requires 0 <= x
    ensures 0 <= Shr(x, k)
    decreases k
  {
    if k > 0 {
      ShrNonincreasing0(x / 2, k - 1);
    }
  }

  /** Shifting a power of two and the number just below it. */
  lemma {:induction false} ShrPow2(n: nat, k: nat)
    ensures Shr(Pow2(n), k) == if k <= n then Pow2(n - k) else 0
    ensures Shr(Pow2(n) - 1, k) == if k <= n then Pow2(n - k) - 1 else 0
    decreases k
  {
    if k > 0 {
      if n > 0 {
        assert Pow2(n) / 2 == Pow2(n - 1);
        assert (Pow2(n) - 1) / 2 == Pow2(n - 1) - 1;
        ShrPow2(n - 1, k - 1);
      } else {
        ShrZero(k - 1);
      }
    }
  }

  lemma {:induction false} ShrZero(k: nat)
    ensures Shr(0, k) == 0
    decreases k
  {
    if k > 0 {
      ShrZero(k - 1);
    }
  }

  /** The height-shift loop of the ray state's constructor. */
  method ComputeHeightShift(worldHeight: int) returns (shift: nat)
    ensures IsHeightShift(worldHeight, shift)
  {
    var wh := worldHeight;
    shift := 0;
    while wh > 256
      invariant wh == Shr(worldHeight, shift)
      invariant shift > 0 ==> Shr(worldHeight, shift - 1) > 256
      decreases wh
    {
      ShrLast(worldHeight, shift);
      shift := shift + 1;
      wh := wh / 2;
    }
  }

  /** The height shift is the least shift that brings a positive world
      height to at most 256. */
  lemma HeightShiftLeast(worldHeight: int, shift: nat, t: nat)
    requires 0 < worldHeight && IsHeightShift(worldHeight, shift)
    requires Shr(worldHeight, t) <= 256
    ensures shift <= t
  {
    if t < shift {
      ShrNonincreasing(worldHeight, t, shift - 1);
    }
  }

  /** For a world whose height is a power of two every height maps to a
      bucket 0 .. 255, so the ramp lookup stays in bounds. */
  lemma PowerOfTwoHeightFits(n: nat, shift: nat, y: int)
    requires IsHeightShift(Pow2(n), shift)
    requires 0 <= y < Pow2(n)
    ensures 0 <= Shr(y, shift) <= 255
  {
    ShrPow2(n, shift);
    ShrMonotone(y, Pow2(n) - 1, shift);
    ShrNonincreasing0(y, shift);
  }

  /** A height just above a power of two breaks that: for height 513 the
      shift is 1 and the top height 512 maps to bucket 256, one past the
      ramp. */
  lemma NonPowerOfTwoOverflows(shift: nat)
    requires IsHeightShift(513, shift)
    ensures shift == 1 && Shr(512, shift) == 256
  {
    assert Shr(513, 1) == 256;
    HeightShiftLeast(513, shift, 1);
  }
}
