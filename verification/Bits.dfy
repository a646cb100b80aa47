// Bytes, 16-bit words and the bit operators the register models use, written
// over the integers so that counting and masking live in one arithmetic.
module Bits {
  type Byte = x: int | 0 <= x < 0x100
  type Word16 = x: int | 0 <= x < 0x1_0000

  datatype Option<+T> = None | Some(value: T)

  const U64_MAX: nat := 0xffff_ffff_ffff_ffff

  function Min(a: int, b: int): int { if a <= b then a else b }

  // Saturating subtraction on unsigned counters.
  function Monus(a: nat, b: nat): nat { if a <= b then 0 else a - b }

  // Saturating addition on u64 counters.
  function SatAdd(a: nat, b: nat): nat { Min(a + b, U64_MAX) }

  function Pow2(k: nat): (r: nat)
    ensures r > 0
  {
    if k == 0 then 1 else 2 * Pow2(k - 1)
  }

  // Bit k of w, least significant first.
  predicate Bit(w: nat, k: nat)
    decreases k
  {
    if k == 0 then w % 2 == 1 else Bit(w / 2, k - 1)
  }

  function Or(a: nat, b: nat): nat
    decreases a + b
  {
    if a == 0 && b == 0 then 0
    else (if a % 2 == 1 || b % 2 == 1 then 1 else 0) + 2 * Or(a / 2, b / 2)
  }

  function And(a: nat, b: nat): nat
    decreases a + b
  {
    if a == 0 || b == 0 then 0
    else (if a % 2 == 1 && b % 2 == 1 then 1 else 0) + 2 * And(a / 2, b / 2)
  }

  function Shr(w: nat, k: nat): nat
    decreases k
  {
    if k == 0 then w else Shr(w / 2, k - 1)
  }

  // The number whose bit k is bits[k].
  function Gather(bits: seq<bool>): nat {
    if bits == [] then 0 else (if bits[0] then 1 else 0) + 2 * Gather(bits[1..])
  }

  lemma {:induction false} ZeroHasNoBits(k: nat)
    ensures !Bit(0, k)
  {
    if k > 0 { ZeroHasNoBits(k - 1); }
  }

  lemma {:induction false} OrBit(a: nat, b: nat, k: nat)
    ensures Bit(Or(a, b), k) <==> Bit(a, k) || Bit(b, k)
    decreases k
  {
    if a == 0 && b == 0 {
      ZeroHasNoBits(k);
    } else if k > 0 {
      OrBit(a / 2, b / 2, k - 1);
    }
  }

  lemma {:induction false} AndBit(a: nat, b: nat, k: nat)
    ensures Bit(And(a, b), k) <==> Bit(a, k) && Bit(b, k)
    decreases k
  {
    if a == 0 || b == 0 {
      ZeroHasNoBits(k);
    } else if k > 0 {
      AndBit(a / 2, b / 2, k - 1);
    }
  }

  lemma {:induction false} Pow2Bit(k: nat, j: nat)
    ensures Bit(Pow2(k), j) <==> j == k
    decreases k
  {
    if k > 0 {
      if j > 0 { Pow2Bit(k - 1, j - 1); }
    } else if j > 0 {
      ZeroHasNoBits(j - 1);
    }
  }

  lemma {:induction false} GatherBit(bits: seq<bool>, k: nat)
    ensures Bit(Gather(bits), k) <==> k < |bits| && bits[k]
    decreases k
  {
    if bits == [] {
      ZeroHasNoBits(k);
    } else if k > 0 {
      GatherBit(bits[1..], k - 1);
    }
  }

  lemma {:induction false} GatherBound(bits: seq<bool>)
    ensures Gather(bits) < Pow2(|bits|)
  {
    if bits != [] { GatherBound(bits[1..]); }
  }

  lemma {:induction false} OrBound(a: nat, b: nat, n: nat)
    requires a < Pow2(n) && b < Pow2(n)
    ensures Or(a, b) < Pow2(n)
    decreases n
  {
    if n > 0 { OrBound(a / 2, b / 2, n - 1); }
  }

  // Two n-bit numbers with the same bits are the same number.
  lemma {:induction false} SameBits(a: nat, b: nat, n: nat)
    requires a < Pow2(n) && b < Pow2(n)
    requires forall k: nat :: k < n ==> (Bit(a, k) <==> Bit(b, k))
    ensures a == b
    decreases n
  {
    if n > 0 {
      assert Bit(a, 0) <==> Bit(b, 0);
      forall k: nat | k < n - 1
        ensures Bit(a / 2, k) <==> Bit(b / 2, k)
      {
        assert Bit(a, k + 1) <==> Bit(b, k + 1);
      }
      SameBits(a / 2, b / 2, n - 1);
    }
  }

  lemma Pow2Of16()
    ensures Pow2(16) == 0x1_0000
  {
    assert Pow2(4) == 16;
    assert Pow2(8) == 256;
    assert Pow2(12) == 4096;
  }

  lemma OrIsWord(a: Word16, b: Word16)
    ensures Or(a, b) < 0x1_0000
  {
    Pow2Of16();
    OrBound(a, b, 16);
  }

  lemma GatherIsWord(bits: seq<bool>)
    requires |bits| == 16
    ensures Gather(bits) < 0x1_0000
  {
    Pow2Of16();
    GatherBound(bits);
  }

  lemma {:induction false} OrZero(a: nat)
    ensures Or(a, 0) == a && Or(0, a) == a
  {
    if a > 0 { OrZero(a / 2); }
  }

  // `mask |= 1 << k` on a gathered mask.
  lemma OrPow2(bits: seq<bool>, k: nat)
    requires |bits| == 16 && k < 16
    ensures Or(Gather(bits), Pow2(k)) == Gather(bits[k := true])
  {
    Pow2Of16();
    GatherBound(bits);
    GatherBound(bits[k := true]);
    assert Pow2(k) < Pow2(16) by { Pow2Monotone(k, 16); }
    OrBound(Gather(bits), Pow2(k), 16);
    forall j: nat | j < 16
      ensures Bit(Or(Gather(bits), Pow2(k)), j) <==> Bit(Gather(bits[k := true]), j)
    {
      OrBit(Gather(bits), Pow2(k), j);
      GatherBit(bits, j);
      GatherBit(bits[k := true], j);
      Pow2Bit(k, j);
    }
    SameBits(Or(Gather(bits), Pow2(k)), Gather(bits[k := true]), 16);
  }

  lemma {:induction false} Pow2Monotone(k: nat, n: nat)
    requires k < n
    ensures Pow2(k) < Pow2(n)
  {
    if k < n - 1 { Pow2Monotone(k, n - 1); }
  }

  // Collecting two masks is collecting the disjunction, on top of any word.
  lemma OrGather(base: Word16, p: seq<bool>, q: seq<bool>, r: seq<bool>)
    requires |p| == |q| == |r| == 16
    requires forall k | 0 <= k < 16 :: r[k] <==> p[k] || q[k]
    ensures Or(Or(base, Gather(p)), Gather(q)) == Or(base, Gather(r))
  {
    GatherIsWord(p);
    GatherIsWord(q);
    GatherIsWord(r);
    OrIsWord(base, Gather(p));
    OrIsWord(Or(base, Gather(p)), Gather(q));
    OrIsWord(base, Gather(r));
    Pow2Of16();
    forall j: nat | j < 16
      ensures Bit(Or(Or(base, Gather(p)), Gather(q)), j) <==> Bit(Or(base, Gather(r)), j)
    {
      OrBit(Or(base, Gather(p)), Gather(q), j);
      OrBit(base, Gather(p), j);
      OrBit(base, Gather(r), j);
      GatherBit(p, j);
      GatherBit(q, j);
      GatherBit(r, j);
    }
    SameBits(Or(Or(base, Gather(p)), Gather(q)), Or(base, Gather(r)), 16);
  }

  lemma {:induction false} GatherNothing(bits: seq<bool>)
    requires forall k | 0 <= k < |bits| :: !bits[k]
    ensures Gather(bits) == 0
  {
    if bits != [] { GatherNothing(bits[1..]); }
  }

  lemma CancelFactor(x: int, y: int, d: nat)
    requires d > 0 && x * d < y * d
    ensures x < y
  {}

  // ---------- shifts divide ----------

  lemma {:induction false} ShrDivides(w: nat, k: nat)
    ensures Shr(w, k) == w / Pow2(k)
    decreases k
  {
    if k > 0 {
      ShrDivides(w / 2, k - 1);
      HalfThen(w, Pow2(k - 1));
    }
  }

  lemma HalfThen(w: nat, p: nat)
    requires p > 0
    ensures w / 2 / p == w / (2 * p)
  {
    var q, r := w / 2 / p, w / 2 % p;
    assert w == 2 * (q * p + r) + w % 2;
    assert 2 * (q * p) == q * (2 * p);
    assert 0 <= 2 * r + w % 2 < 2 * p;
    QuotientIs(w, 2 * p, q, 2 * r + w % 2);
  }

  lemma QuotientIs(x: nat, d: nat, q: nat, r: nat)
    requires d > 0 && x == q * d + r && r < d
    ensures x / d == q && x % d == r
  {
    var k := x / d - q;
    assert x == x / d * d + x % d;
    assert k * d == x / d * d - q * d;
    assert k >= 1 ==> k * d >= d;
    assert k <= -1 ==> k * d + d <= 0;
  }

  lemma NoNegativeQuotient(x: nat, d: nat)
    requires d > 0
    ensures x / d >= 0
  {
    var q := x / d;
    assert x == q * d + x % d;
    assert q <= -1 ==> q * d + d <= 0;
  }
}
