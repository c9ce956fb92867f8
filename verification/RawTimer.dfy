/** Reconstruction of a 64-bit time from a 32-bit counter and a software high word that an
    overflow handler bumps at each wrap of the counter. */
module RawTimer {
  import opened Prelude

  const WORD_RANGE: nat := 0x1_0000_0000
  const HALF_RANGE: nat := 0x8000_0000

  type U32 = x: nat | x < 0x1_0000_0000

  /** What the counter and the high word hold at a given time. */
  function LowWord(t: nat): U32 { t % WORD_RANGE }

  function HighWord(t: nat): U32 { t / WORD_RANGE % WORD_RANGE }

  datatype RawTime = RawTime(hi0: U32, lo: U32, hi1: U32)

  predicate TopBit(lo: U32) { lo / HALF_RANGE % 2 == 1 }

  function Combine(hi: U32, lo: U32): nat {
    hi * WORD_RANGE + lo
  }

  function Calc(raw: RawTime): nat {
    if raw.hi0 == raw.hi1 then Combine(raw.hi0, raw.lo)
    else if TopBit(raw.lo) then Combine(raw.hi0, raw.lo)
    else Combine(raw.hi1, raw.lo)
  }

  /** The three reads happen at these times. */
  function Sample(t0: nat, t1: nat, t2: nat): RawTime {
    RawTime(HighWord(t0), LowWord(t1), HighWord(t2))
  }

  /** The counter has 32 bits, and a time has 64. */
  lemma Ranges()
    ensures HALF_RANGE == Pow2(31) && WORD_RANGE == Pow2(32) && WORD_RANGE * WORD_RANGE == Pow2(64)
  {
    WordSizes();
  }

  lemma Words(t: nat)
    requires t < WORD_RANGE * WORD_RANGE
    ensures HighWord(t) == t / WORD_RANGE && t == HighWord(t) * WORD_RANGE + LowWord(t)
  {
  }

  /** The reconstruction is exact if the three reads take at most 2^31 ticks. */
  lemma CalcIsExact(t0: nat, t1: nat, t2: nat)
    requires t0 <= t1 <= t2 < Pow2(64) && t2 - t0 <= Pow2(31)
    ensures Calc(Sample(t0, t1, t2)) == t1
  {
    Ranges();
    hide Pow2;
    Words(t0);
    Words(t1);
    Words(t2);
    var h0: nat, h1: nat, h2: nat := HighWord(t0), HighWord(t1), HighWord(t2);
    assert h0 <= h1 <= h2 <= h0 + 1;
    assert TopBit(LowWord(t1)) <==> LowWord(t1) >= HALF_RANGE;
  }

  /** Reads that take at most `d` ticks are all reconstructed exactly, for `d` up to 2^31 and no
      further. */
  lemma ExactUpToHalf(d: nat)
    ensures (forall t0: nat, t1: nat, t2: nat :: t0 <= t1 <= t2 < Pow2(64) && t2 - t0 <= d ==>
      Calc(Sample(t0, t1, t2)) == t1)
       <==> d <= Pow2(31)
  {
    Ranges();
    hide Pow2;
    if d <= Pow2(31) {
      forall t0: nat, t1: nat, t2: nat | t0 <= t1 <= t2 < Pow2(64) && t2 - t0 <= d
        ensures Calc(Sample(t0, t1, t2)) == t1
      {
        CalcIsExact(t0, t1, t2);
      }
    } else {
      var t1, t2 := HALF_RANGE - 1, WORD_RANGE;
      assert Calc(Sample(t1, t1, t2)) == WORD_RANGE + HALF_RANGE - 1;
    }
  }

  /** The record that a reading fills in, field by field. */
  class Reading {
    var hi0: U32
    var lo: U32
    var hi1: U32

    function Value(): RawTime
      reads this
    {
      RawTime(hi0, lo, hi1)
    }

    /** The three loads see the timer at three moments. */
    method ReadRaw(t0: nat, t1: nat, t2: nat)
      requires t0 <= t1 <= t2
      modifies this
      ensures Value() == Sample(t0, t1, t2)
      ensures t2 < Pow2(64) && t2 - t0 <= Pow2(31) ==> Calc(Value()) == t1
    {
      hi0 := HighWord(t0);
      lo := LowWord(t1);
      hi1 := HighWord(t2);
      if t2 < Pow2(64) && t2 - t0 <= Pow2(31) {
        CalcIsExact(t0, t1, t2);
      }
    }
  }

  /** Readings that do not overlap are ordered: if the second begins after the first has ended, it
      does not give an earlier time, and it gives a later one if its counter read is later. */
  lemma ReadingsAreOrdered(t0: nat, t1: nat, t2: nat, u0: nat, u1: nat, u2: nat)
    requires t0 <= t1 <= t2 <= u0 <= u1 <= u2 < Pow2(64)
    requires t2 - t0 <= Pow2(31) && u2 - u0 <= Pow2(31)
    ensures Calc(Sample(t0, t1, t2)) <= Calc(Sample(u0, u1, u2))
    ensures t1 < u1 <==> Calc(Sample(t0, t1, t2)) < Calc(Sample(u0, u1, u2))
  {
    CalcIsExact(t0, t1, t2);
    CalcIsExact(u0, u1, u2);
  }
}
