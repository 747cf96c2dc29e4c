/**
 Power-of-two block sizing (half_hashpipe/hpguppi_params.c:474-488, half_hashpipe/hpguppi_mkfeng.h:233-240,
 341-392).  Shifts are iterated halvings; 32-bit unsigned results are reduced modulo 2^32 where they are formed.
 */
module Sizing {
  import Radix

  function Pow2(n: nat): (r: nat)
    ensures r > 0
  {
    if n == 0 then 1 else 2 * Pow2(n - 1)
  }

  lemma {:induction false} Pow2Mono(m: nat, n: nat)
    requires m <= n
    ensures Pow2(m) <= Pow2(n)
  {
    if m < n {
      Pow2Mono(m, n - 1);
    }
  }

  /** The exponent of the largest power of two up to x. */
  ghost predicate IsLog(x: int, k: nat) {
    Pow2(k) <= x < Pow2(k + 1)
  }

  lemma LogUnique(x: int, j: nat, k: nat)
    requires IsLog(x, j) && IsLog(x, k)
    ensures j == k
  {
    if j < k {
      Pow2Mono(j + 1, k);
    } else if k < j {
      Pow2Mono(k + 1, j);
    }
  }

  const U32: nat := 0x1_0000_0000

  /** Right shift of a signed number: floor halving, k times. */
  function Shr(x: int, k: nat): int {
    if k == 0 then x else Shr(x, k - 1) / 2
  }

  /** __builtin_clz for a 32-bit number other than 0. */
  function Clz(x: nat): nat
    requires 0 < x < U32
    decreases U32 - x
  {
    if x >= 0x8000_0000 then 0 else 1 + Clz(2 * x)
  }

  function PrevPow2(x: nat): int
    requires x < U32
  {
    if x == 0 then 0 else Shr(0x8000_0000, Clz(x))
  }

  lemma {:induction false} ClzBounds(x: nat)
    requires 0 < x < U32
    ensures Clz(x) <= 31 && IsLog(x, 31 - Clz(x))
    decreases U32 - x
  {
    if x >= 0x8000_0000 {
      Pow2At31();
    } else {
      ClzBounds(2 * x);
    }
  }

  lemma Pow2At31()
    ensures Pow2(31) == 0x8000_0000
  {
    assert Pow2(8) == 0x100;
    assert Pow2(16) == 0x1_0000;
    assert Pow2(24) == 0x100_0000;
  }

  lemma {:induction false} ShrPow2(m: nat, k: nat)
    requires k <= m
    ensures Shr(Pow2(m), k) == Pow2(m - k)
  {
    if k > 0 {
      ShrPow2(m, k - 1);
    }
  }

  /** prevpow2 is the largest power of two up to x, and 0 for 0. */
  lemma PrevPow2Is(x: nat, k: nat)
    requires x < U32
    ensures x == 0 <==> PrevPow2(x) == 0
    ensures IsLog(x, k) ==> PrevPow2(x) == Pow2(k)
    ensures x > 0 ==> PrevPow2(x) <= x < 2 * PrevPow2(x)
  {
    if x > 0 {
      ClzBounds(x);
      Pow2At31();
      ShrPow2(31, Clz(x));
      if IsLog(x, k) {
        LogUnique(x, k, 31 - Clz(x));
      }
    }
  }

  // The shift loop.

  /** What halving k times leaves. */
  lemma {:induction false} ShrBounds(x: nat, k: nat)
    ensures Shr(x, k) >= 0
    ensures Pow2(k) * Shr(x, k) <= x < Pow2(k) * (Shr(x, k) + 1)
  {
    if k > 0 {
      ShrBounds(x, k - 1);
      HalveBounds(Pow2(k - 1), Shr(x, k - 1), Shr(x, k), x);
    }
  }

  lemma HalveBounds(p: nat, y: nat, m: nat, x: nat)
    requires m == y / 2 && p * y <= x < p * (y + 1)
    ensures 2 * p * m <= x < 2 * p * (m + 1)
  {
    Radix.Regroup(2, p, m);
    Radix.Distribute(m, 1, 2 * p);
    Radix.Distribute(y, 1, p);
    if y == 2 * m {
      Radix.Regroup(p, 2, m);
    } else {
      Radix.Distribute(2 * m, 1, p);
      Radix.Regroup(p, 2, m);
    }
  }

  lemma ShrOne(x: nat, k: nat)
    requires x >= 1
    ensures Shr(x, k) == 1 <==> IsLog(x, k)
  {
    ShrBounds(x, k);
    var y := Shr(x, k);
    if y >= 2 {
      Radix.Mono(2, y, Pow2(k));
    }
  }

  lemma {:induction false} LogExists(x: nat) returns (k: nat)
    requires x >= 1
    ensures IsLog(x, k)
  {
    if x == 1 {
      k := 0;
    } else {
      k := LogExists(x / 2);
      k := k + 1;
    }
  }

  lemma {:induction false} ShrNonPositive(x: int, k: nat)
    requires x <= 0
    ensures Shr(x, k) <= 0
  {
    if k > 0 {
      ShrNonPositive(x, k - 1);
    }
  }

  /** The loop leaves, after some number of shifts, exactly when the quotient is at least 1. */
  lemma ShiftLoopEnds(q: int)
    ensures (exists k: nat :: Shr(q, k) == 1) <==> q >= 1
  {
    if q >= 1 {
      var k := LogExists(q);
      ShrOne(q, k);
    } else {
      forall k: nat ensures Shr(q, k) != 1 {
        ShrNonPositive(q, k);
      }
    }
  }

  function Abs(a: int): nat { if a < 0 then -a else a }

  /** Division of C ints: towards zero. */
  function TruncDiv(a: int, b: int): int
    requires b != 0
  {
    var q: int := Radix.Div(Abs(a), Abs(b));
    if (a >= 0) == (b > 0) then q else -q
  }

  const INT_MAX: int := 0x7fff_ffff

  predicate IsInt(a: int) {
    -INT_MAX - 1 <= a <= INT_MAX
  }

  /** calc_ntime_per_block, for the arguments on which it returns; its value is prevpow2 of the quotient. */
  method CalcNtimePerBlock(maxBlockSize: int, obsnchan: int) returns (ntime: int)
    requires IsInt(maxBlockSize) && IsInt(4 * obsnchan) && obsnchan != 0
    requires TruncDiv(maxBlockSize, 4 * obsnchan) >= 1
    ensures var q := TruncDiv(maxBlockSize, 4 * obsnchan);
            q < U32 && ntime == PrevPow2(q) && ntime <= q < 2 * ntime
  {
    ntime := TruncDiv(maxBlockSize, 4 * obsnchan);
    ghost var q := ntime;
    QuotientFits(maxBlockSize, 4 * obsnchan);
    var i := 0;
    ghost var last := LogExists(q);
    ShrOne(q, last);
    while ntime != 1
      invariant 0 <= i <= last && ntime == Shr(q, i)
      decreases last - i
    {
      if i == last { assert false; }
      ntime := ntime / 2;
      i := i + 1;
    }
    ShrOne(q, i);
    PrevPow2Is(q, i);
    ntime := ShiftLeft(ntime, i);
  }

  lemma QuotientFits(a: int, b: int)
    requires b != 0 && IsInt(a)
    ensures TruncDiv(a, b) < U32
  {
    Radix.Mono(1, Abs(b), Radix.Div(Abs(a), Abs(b)));
  }

  function ShiftLeft(x: int, k: nat): (r: int)
    ensures x == 1 ==> r == Pow2(k)
  {
    if k == 0 then x else 2 * ShiftLeft(x, k - 1)
  }

  // Packet indices per block, and the effective block size.

  /** The 32-bit product 4 * nchan * hntime. */
  function Unit(nchan: nat, hntime: nat): nat {
    4 * nchan * hntime % U32
  }

  function PktidxPerBlock(blockSize: nat, nchan: nat, hntime: nat): int
    requires Unit(nchan, hntime) != 0
  {
    PrevPow2(blockSize / Unit(nchan, hntime) % U32)
  }

  function EffBlockSize(blockSize: nat, nchan: nat, hntime: nat): int
    requires Unit(nchan, hntime) != 0
  {
    4 * nchan * hntime * PktidxPerBlock(blockSize, nchan, hntime) % U32
  }

  function Ntime(blockSize: nat, nchan: nat, hntime: nat): int
    requires Unit(nchan, hntime) != 0
  {
    hntime * PktidxPerBlock(blockSize, nchan, hntime) % U32
  }

  /** Neither the 32-bit products nor the quotient overflow. */
  ghost predicate NoOverflow(blockSize: nat, nchan: nat, hntime: nat) {
    0 < 4 * nchan * hntime < U32 && blockSize < U32
  }

  lemma EffectiveSize(u: nat, size: nat, q: nat, p: nat)
    requires u > 0 && q == size / u
    requires (q > 0 ==> p <= q < 2 * p) && (q == 0 ==> p == 0)
    ensures 0 <= u * p <= size
    ensures q >= 1 <==> size < 2 * (u * p)
  {
    Radix.Split(size, u);
    Radix.Mono(p, q, u);
    if q >= 1 {
      Radix.Mono(q + 1, 2 * p, u);
      Radix.Regroup(2, p, u);
      Radix.Distribute(q, 1, u);
    }
  }

  /**
   The effective block is one row of ntime 4-byte samples for each channel; it fits, and fills more than half
   exactly when at least one heap per channel fits.
   */
  lemma BlockSizing(blockSize: nat, nchan: nat, hntime: nat)
    requires NoOverflow(blockSize, nchan, hntime)
    ensures Unit(nchan, hntime) == 4 * nchan * hntime
    ensures var eff := EffBlockSize(blockSize, nchan, hntime);
            var ntime := Ntime(blockSize, nchan, hntime);
            && eff == 4 * nchan * hntime * PktidxPerBlock(blockSize, nchan, hntime) == nchan * (4 * ntime)
            && ntime == hntime * PktidxPerBlock(blockSize, nchan, hntime)
            && eff <= blockSize
            && (blockSize < 2 * eff <==> blockSize / (4 * nchan * hntime) >= 1)
            && (PktidxPerBlock(blockSize, nchan, hntime) >= 1 <==> blockSize / (4 * nchan * hntime) >= 1)
  {
    var u := 4 * nchan * hntime;
    Radix.SmallMod(u, U32);
    Radix.Split(blockSize, u);
    var q := blockSize / u;
    Radix.Mono(1, u, q);
    Radix.SmallMod(q, U32);
    PrevPow2Is(q, 0);
    var p: nat := PrevPow2(q);
    assert p == PktidxPerBlock(blockSize, nchan, hntime);
    EffectiveSize(u, blockSize, q, p);
    Radix.SmallMod(u * p, U32);
    RowsOf(nchan, hntime, p);
    Radix.SmallMod(hntime * p, U32);
  }

  /** With at least one heap per channel there are as many packet indices as the largest power of two that fits. */
  lemma PiperblkIsPow2(blockSize: nat, nchan: nat, hntime: nat) returns (k: nat)
    requires NoOverflow(blockSize, nchan, hntime) && blockSize / (4 * nchan * hntime) >= 1
    ensures Unit(nchan, hntime) != 0
    ensures PktidxPerBlock(blockSize, nchan, hntime) == Pow2(k)
    ensures Pow2(k) <= blockSize / (4 * nchan * hntime) < 2 * Pow2(k)
  {
    var u := 4 * nchan * hntime;
    Radix.SmallMod(u, U32);
    Radix.Split(blockSize, u);
    var q := blockSize / u;
    Radix.Mono(1, u, q);
    Radix.SmallMod(q, U32);
    k := LogExists(q);
    PrevPow2Is(q, k);
  }

  lemma {:induction false} Pow2Sum(j: nat, k: nat)
    ensures Pow2(j) * Pow2(k) == Pow2(j + k)
  {
    if k > 0 {
      Pow2Sum(j, k - 1);
      Radix.Regroup(Pow2(j), 2, Pow2(k - 1));
    }
  }

  /** So the time samples of a block are a power of two whenever those of a heap are. */
  lemma NtimeIsPow2(blockSize: nat, nchan: nat, hntime: nat, j: nat) returns (k: nat)
    requires NoOverflow(blockSize, nchan, hntime) && blockSize / (4 * nchan * hntime) >= 1 && hntime == Pow2(j)
    ensures Unit(nchan, hntime) != 0 && Ntime(blockSize, nchan, hntime) == Pow2(k)
  {
    BlockSizing(blockSize, nchan, hntime);
    k := PiperblkIsPow2(blockSize, nchan, hntime);
    Pow2Sum(j, k);
    k := j + k;
  }

  lemma RowsOf(nchan: nat, hntime: nat, p: nat)
    requires 4 * nchan * hntime > 0
    ensures 4 * nchan * hntime * p == nchan * (4 * (hntime * p))
    ensures 0 <= hntime * p <= 4 * nchan * hntime * p
  {
    Radix.Regroup(4 * nchan, hntime, p);
    Radix.Regroup(4, nchan, hntime * p);
    Radix.Mono(1, 4 * nchan, hntime * p);
  }
}
