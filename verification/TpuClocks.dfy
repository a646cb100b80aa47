// The two clocks that drive the countdown pass: a fixed quantum of guest
// instructions when running offline, host time scaled to TCR1 ticks when a
// live adapter is attached. What a poll does is a function of the clock and
// the register image; the theorems are about whole poll schedules.
module TpuClocks {
  import opened Bits
  import opened TpuRegisters

  const QUANTUM: nat := 10_000
  const SYSTEM_HZ: nat := 16_777_216
  const COUNTDOWN_TCR1_TICKS: nat := 0x1062
  // The longest host duration, in nanoseconds.
  const DURATION_MAX: nat := 0x1_0000_0000_0000_0000 * 1_000_000_000 - 1

  datatype Clock = Clock(next: Option<nat>, wallLast: Option<nat>, wallRemainder: nat, wallDivider: nat)

  datatype Polled = Polled(clock: Clock, sim: Image, expired: nat)

  // TCR1P and PSCK select the system clock divided by 4 to 256.
  function Divider(s: Image): (d: nat)
    ensures 4 <= d <= 256
  {
    var mcr := Word(s, TPUMCR);
    var shift := Shr(mcr, 13) % 4;
    assert Pow2(shift) <= 8 by { assert Pow2(0) == 1 && Pow2(1) == 2 && Pow2(2) == 4 && Pow2(3) == 8; }
    (if Bit(mcr, 6) then 4 else 32) * Pow2(shift)
  }

  function Denominator(divider: nat): (d: nat)
    requires divider > 0
    ensures d > 0
  {
    1_000_000_000 * divider * COUNTDOWN_TCR1_TICKS
  }

  // Whole countdown ticks in `elapsed` nanoseconds of host time.
  function LiveTicks(s: Image, elapsed: nat): nat { Quot(elapsed * SYSTEM_HZ, Denominator(Divider(s))) }

  // ---------- exact division ----------

  // Quotient and remainder under names of their own: the schedule proofs below
  // use only the lemmas about them.
  function Times(q: int, d: int): int { q * d }

  function Quot(x: nat, d: nat): nat
    requires d > 0
  {
    x / d
  }

  function Rem(x: nat, d: nat): nat
    requires d > 0
  {
    x % d
  }

  lemma TimesSplits(p: int, q: int, d: int)
    ensures Times(p + q, d) == Times(p, d) + Times(q, d) && Times(1, d) == d && Times(0, d) == 0
  {}

  lemma TimesOrder(p: int, q: int, d: nat)
    requires Times(p, d) < Times(q, d)
    ensures p < q
  {
    if p >= q { TimesGrows(q, p, d); }
  }

  lemma TimesGrows(p: int, q: int, d: nat)
    requires p <= q
    ensures Times(p, d) <= Times(q, d)
  {
    assert Times(q, d) - Times(p, d) == (q - p) * d;
  }

  lemma QuotRem(x: nat, d: nat)
    requires d > 0
    ensures x == Times(Quot(x, d), d) + Rem(x, d) && Rem(x, d) < d
  {}

  lemma DivisionIsUnique(x: nat, d: nat, q: nat, r: nat)
    requires r < d && x == Times(q, d) + r
    ensures Quot(x, d) == q && Rem(x, d) == r
  {
    QuotRem(x, d);
    TimesSplits(Quot(x, d), 1, d);
    TimesSplits(q, 1, d);
    hide Times, Quot, Rem;
    TimesOrder(q, Quot(x, d) + 1, d);
    TimesOrder(Quot(x, d), q + 1, d);
  }

  // Dividing in two steps with the remainder carried over loses nothing.
  lemma CarriedRemainder(a: nat, b: nat, r: nat, d: nat)
    requires d > 0
    ensures Quot(a + r, d) + Quot(b + Rem(a + r, d), d) == Quot(a + b + r, d)
    ensures Rem(b + Rem(a + r, d), d) == Rem(a + b + r, d)
  {
    QuotRem(a + r, d);
    QuotRem(b + Rem(a + r, d), d);
    TimesSplits(Quot(a + r, d), Quot(b + Rem(a + r, d), d), d);
    hide Times, Quot, Rem;
    DivisionIsUnique(a + b + r, d, Quot(a + r, d) + Quot(b + Rem(a + r, d), d), Rem(b + Rem(a + r, d), d));
  }

  // ---------- one poll ----------

  function Advance(c: Clock, s: Image, now: nat): Polled {
    var d := if c.wallLast.Some? then c.(wallLast := None, next := None, wallRemainder := 0) else c;
    var next := if d.next.Some? then d.next.value else SatAdd(now, QUANTUM);
    if now < next then Polled(d.(next := Some(next)), s, 0)
    else
      var ticks := (now - next) / QUANTUM + 1;
      Polled(d.(next := Some(SatAdd(now, QUANTUM - (now - next) % QUANTUM))),
             Decremented(s, ticks), Expired(s, ticks))
  }

  function AdvanceWall(c: Clock, s: Image, now: nat): Polled {
    var divider := Divider(s);
    var d := c.(wallLast := Some(now), next := None);
    if c.wallLast.None? || now < c.wallLast.value || c.wallDivider != divider then
      Polled(d.(wallDivider := divider, wallRemainder := 0), s, 0)
    else if Stopped(s) then Polled(d, s, 0)
    else
      var numerator := (now - c.wallLast.value) * SYSTEM_HZ + c.wallRemainder;
      var ticks := Min(Quot(numerator, Denominator(divider)), U64_MAX);
      Polled(d.(wallRemainder := Rem(numerator, Denominator(divider))),
             Decremented(s, ticks), Expired(s, ticks))
  }

  // A checkpoint taken at instruction `captured` continues at instruction `now`.
  function RebasedAt(at: nat, captured: nat, now: nat): nat { SatAdd(now, Monus(at, captured)) }

  function Rebase(c: Clock, captured: nat, now: nat): Clock {
    c.(next := if c.next.Some? then Some(RebasedAt(c.next.value, captured, now)) else None,
       wallLast := None, wallRemainder := 0)
  }

  // ---------- poll schedules ----------

  function RunInstructions(c: Clock, s: Image, times: seq<nat>): Polled
    decreases |times|
  {
    if times == [] then Polled(c, s, 0)
    else
      var first := Advance(c, s, times[0]);
      var rest := RunInstructions(first.clock, first.sim, times[1..]);
      rest.(expired := Or(first.expired, rest.expired))
  }

  function RunWall(c: Clock, s: Image, times: seq<nat>): Polled
    decreases |times|
  {
    if times == [] then Polled(c, s, 0)
    else
      var first := AdvanceWall(c, s, times[0]);
      var rest := RunWall(first.clock, first.sim, times[1..]);
      rest.(expired := Or(first.expired, rest.expired))
  }

  predicate Nondecreasing(from: nat, times: seq<nat>)
    decreases |times|
  {
    times == [] || (from <= times[0] && Nondecreasing(times[0], times[1..]))
  }

  function Last(from: nat, times: seq<nat>): (last: nat)
    ensures Nondecreasing(from, times) ==> from <= last
    decreases |times|
  {
    if times == [] then from else Last(times[0], times[1..])
  }

  // ---------- the live clock ----------

  lemma ElapsedSplits(p: nat, t: nat, u: nat)
    requires p <= t <= u
    ensures (t - p) * SYSTEM_HZ + (u - t) * SYSTEM_HZ == (u - p) * SYSTEM_HZ
  {}

  // A clock that has sampled the current divider at time `at`.
  ghost predicate Sampled(c: Clock, s: Image, at: nat) {
    c.wallLast == Some(at) && c.wallDivider == Divider(s)
  }

  function Numerator(c: Clock, from: nat, to: nat): nat
    requires from <= to
  {
    (to - from) * SYSTEM_HZ + c.wallRemainder
  }

  lemma LaterSample(c: Clock, s: Image, p: nat, now: nat)
    requires Sampled(c, s, p) && !Stopped(s) && p <= now
    requires Quot(Numerator(c, p, now), Denominator(Divider(s))) <= U64_MAX
    ensures var ticks := Quot(Numerator(c, p, now), Denominator(Divider(s)));
      AdvanceWall(c, s, now) == Polled(Clock(None, Some(now), Rem(Numerator(c, p, now), Denominator(Divider(s))),
          Divider(s)),
                                       Decremented(s, ticks), Expired(s, ticks))
  {
    hide Divider, Denominator, Decremented, Expired, Stopped;
  }

  // One intermediate poll changes nothing in the end.
  lemma WallPollsMerge(c: Clock, s: Image, p: nat, t: nat, u: nat)
    requires Sampled(c, s, p) && !Stopped(s)
    requires p <= t <= u
    requires Quot(Numerator(c, p, u), Denominator(Divider(s))) <= U64_MAX
    ensures var mid := AdvanceWall(c, s, t);
      && Sampled(mid.clock, mid.sim, t) && !Stopped(mid.sim) && Divider(mid.sim) == Divider(s)
      && Quot(Numerator(mid.clock, t, u), Denominator(Divider(s))) <= U64_MAX
      && AdvanceWall(mid.clock, mid.sim, u).clock == AdvanceWall(c, s, u).clock
      && AdvanceWall(mid.clock, mid.sim, u).sim == AdvanceWall(c, s, u).sim
      && Or(mid.expired, AdvanceWall(mid.clock, mid.sim, u).expired) == AdvanceWall(c, s, u).expired
  {
    hide Decremented, Expired, Stopped, Or, Denominator, Divider, AdvanceWall, Numerator;
    var d := Denominator(Divider(s));
    var n1 := Numerator(c, p, t);
    var mid := Clock(None, Some(t), Rem(n1, d), Divider(s));
    MergedNumerators(c, mid, p, t, u, d);
    LaterSample(c, s, p, t);
    LaterSample(c, s, p, u);
    PassKeepsConfiguration(s, Quot(n1, d));
    SameDivider(s, Quot(n1, d));
    LaterSample(mid, Decremented(s, Quot(n1, d)), t, u);
    PassesCompose(s, Quot(n1, d), Quot(Numerator(mid, t, u), d));
  }

  lemma MergedNumerators(c: Clock, mid: Clock, p: nat, t: nat, u: nat, d: nat)
    requires d > 0 && p <= t <= u
    requires mid.wallRemainder == Rem(Numerator(c, p, t), d)
    ensures Quot(Numerator(c, p, t), d) + Quot(Numerator(mid, t, u), d) == Quot(Numerator(c, p, u), d)
    ensures Rem(Numerator(mid, t, u), d) == Rem(Numerator(c, p, u), d)
    ensures Quot(Numerator(c, p, t), d) >= 0 && Quot(Numerator(mid, t, u), d) >= 0
  {
    ElapsedSplits(p, t, u);
    CarriedRemainder((t - p) * SYSTEM_HZ, (u - t) * SYSTEM_HZ, c.wallRemainder, d);
  }

  lemma SameDivider(s: Image, ticks: nat)
    ensures Divider(Decremented(s, ticks)) == Divider(s)
  {
    PassKeepsConfiguration(s, ticks);
    hide Decremented;
  }

  // Poll-rate independence: any schedule of polls ends exactly where one poll
  // at its last time ends, and reports the same channels altogether.
  lemma {:induction false} WallScheduleIsOnePoll(c: Clock, s: Image, p: nat, times: seq<nat>)
    requires Sampled(c, s, p) && !Stopped(s)
    requires times != [] && Nondecreasing(p, times)
    requires Quot(Numerator(c, p, Last(p, times)), Denominator(Divider(s))) <= U64_MAX
    ensures RunWall(c, s, times) == AdvanceWall(c, s, Last(p, times))
    decreases |times|
  {
    hide Divider, Denominator, AdvanceWall, Stopped;
    var t, rest := times[0], times[1..];
    var mid := AdvanceWall(c, s, t);
    WallPollsMerge(c, s, p, t, Last(t, rest));
    if rest == [] {
      OrZero(mid.expired);
    } else {
      WallScheduleIsOnePoll(mid.clock, mid.sim, t, rest);
    }
  }

  // From the first sample on, the total is the floor of the scaled elapsed time.
  lemma LiveTimerIsPollRateIndependent(c: Clock, s: Image, start: nat, times: seq<nat>)
    requires c.wallLast.None? && !Stopped(s)
    requires Nondecreasing(start, times)
    requires LiveTicks(s, Last(start, times) - start) <= U64_MAX
    ensures var ticks := LiveTicks(s, Last(start, times) - start);
      var end := RunWall(c, s, [start] + times);
      && end.sim == Decremented(s, ticks)
      && end.expired == Expired(s, ticks)
      && end.clock.wallLast == Some(Last(start, times))
  {
    hide Divider, Decremented, Expired, AdvanceWall, Denominator, Stopped, RunWall, LiveTicks, Numerator;
    RunFromFirstSample(c, s, start, times);
    var first := Clock(None, Some(start), 0, Divider(s));
    TicksOfFirstSample(s, start, Last(start, times));
    if times == [] {
      EmptyPass(s);
      assert RunWall(first, s, []) == Polled(first, s, 0) by { RunNoPolls(first, s); }
    } else {
      WallScheduleIsOnePoll(first, s, start, times);
      LaterSample(first, s, start, Last(start, times));
    }
  }

  // The system clock is divided by 4 when PSCK (bit 6 of TPUMCR) is set and by
  // 32 when it is clear, and by a further 1, 2, 4 or 8 for TCR1P (bits 13, 14).
  function Prescale(psck: bool, tcr1p: nat): (k: nat)
    requires tcr1p < 4
    ensures k > 0
  {
    (if psck then 4 else 32) * (if tcr1p == 0 then 1 else if tcr1p == 1 then 2 else if tcr1p == 2 then 4 else 8)
  }

  // Setting PSCK makes the clock eight times as fast, each TCR1P step halves it.
  lemma PrescaleSteps(psck: bool, tcr1p: nat)
    requires tcr1p < 4
    ensures Prescale(false, tcr1p) == 8 * Prescale(true, tcr1p)
    ensures tcr1p < 3 ==> Prescale(psck, tcr1p + 1) == 2 * Prescale(psck, tcr1p)
    ensures Prescale(true, 0) == 4
  {}

  lemma BitSix(w: nat)
    ensures Bit(w, 6) <==> w / 64 % 2 == 1
  {
    assert Bit(w, 3) <==> Bit(w / 8, 0) by { assert w / 2 / 2 / 2 == w / 8; }
    assert Bit(w, 6) <==> Bit(w / 8, 3) by { assert w / 2 / 2 / 2 == w / 8; }
    assert Bit(w / 8, 3) <==> Bit(w / 64, 0) by { assert w / 8 / 2 / 2 / 2 == w / 64; }
  }

  // PSCK and TCR1P in the bytes of TPUMCR.
  predicate Psck(s: Image) { s[0xe01] / 64 % 2 == 1 }
  function Tcr1p(s: Image): (p: nat)
    ensures p < 4
  {
    s[0xe00] / 32 % 4
  }

  lemma WordBits(high: Byte, low: Byte)
    ensures (high * 0x100 + low) / 64 % 2 == low / 64 % 2
    ensures (high * 0x100 + low) / 0x2000 % 4 == high / 32 % 4
  {
    assert (high * 0x100 + low) / 64 == high * 4 + low / 64;
    assert (high * 0x100 + low) / 0x2000 == high / 32;
  }

  lemma PsckIsBitSix(s: Image)
    ensures Bit(Word(s, TPUMCR), 6) <==> Psck(s)
  {
    hide Bit;
    BitSix(Word(s, TPUMCR));
    WordBits(s[0xe00], s[0xe01]);
  }

  lemma Tcr1pIsShift(s: Image)
    ensures Shr(Word(s, TPUMCR), 13) % 4 == Tcr1p(s)
  {
    assert Pow2(13) == 0x2000 by { assert Pow2(4) == 16 && Pow2(8) == 256 && Pow2(12) == 4096; }
    hide Shr, Pow2;
    ShrDivides(Word(s, TPUMCR), 13);
    WordBits(s[0xe00], s[0xe01]);
  }

  lemma DividerOfBytes(s: Image)
    ensures Divider(s) == Prescale(Psck(s), Tcr1p(s))
  {
    PsckIsBitSix(s);
    Tcr1pIsShift(s);
    assert Pow2(0) == 1 && Pow2(1) == 2 && Pow2(2) == 4 && Pow2(3) == 8;
    hide Bit, Shr, Word, Psck, Tcr1p;
  }

  // Passes in `elapsed` nanoseconds of a 16,777,216 Hz clock behind a prescaler,
  // 4194 TCR1 ticks to a pass.
  function Passes(elapsed: nat, prescale: nat): nat
    requires prescale > 0
  {
    NoNegativeQuotient(elapsed * 16_777_216, 4_194_000_000_000 * prescale);
    elapsed * 16_777_216 / (4_194_000_000_000 * prescale)
  }

  // The live total from the bytes of TPUMCR.
  lemma LiveTotalFromBytes(c: Clock, s: Image, start: nat, times: seq<nat>)
    requires c.wallLast.None? && s[0xe00] < 0x80
    requires start <= Last(start, times) && Nondecreasing(start, times)
    requires Passes(Last(start, times) - start, Prescale(Psck(s), Tcr1p(s))) <= U64_MAX
    ensures var passes := Passes(Last(start, times) - start, Prescale(Psck(s), Tcr1p(s)));
      var end := RunWall(c, s, [start] + times);
      end.sim == Decremented(s, passes) && end.expired == Expired(s, passes)
  {
    hide RunWall, Decremented, Expired, Divider, LiveTicks, Prescale, Passes, Psck, Tcr1p;
    DividerOfBytes(s);
    TicksInLiterals(s, Last(start, times) - start);
    LiveTimerIsPollRateIndependent(c, s, start, times);
  }

  lemma TicksInLiterals(s: Image, elapsed: nat)
    ensures LiveTicks(s, elapsed) == Passes(elapsed, Divider(s))
  {
    hide Divider;
    assert Denominator(Divider(s)) == 4_194_000_000_000 * Divider(s);
  }

  lemma {:induction false} LastIsLater(from: nat, times: seq<nat>)
    requires Nondecreasing(from, times)
    ensures from <= Last(from, times)
    decreases |times|
  {
    if times != [] { LastIsLater(times[0], times[1..]); }
  }

  lemma GuestPrescale(s: Image)
    requires s[0xe00] == 0x1c && s[0xe01] == 0xcc
    ensures Prescale(Psck(s), Tcr1p(s)) == 4
    ensures Passes(2_500_000_000, 4) == 2500
  {}

  lemma PassesBefore(elapsed: nat)
    requires elapsed <= 2_499_000_000
    ensures Passes(elapsed, 4) <= 2499
  {}

  lemma RegisterReachesZero(s: Image, passes: nat)
    requires !Stopped(s) && Counting(s, 3) && Word(s, 0xf32) == 2500
    ensures Word(Decremented(s, passes), 0xf32) == if passes < 2500 then 2500 - passes else 0
    ensures passes == 2500 ==> Bit(Expired(s, passes), 3)
  {
    hide Decremented, Counting, Gather;
    assert Register(3, 1) == 0xf32;
    WordAfter(s, passes, 3, 1);
    if passes == 2500 {
      assert Hits(s, passes, 3, 1);
      GatherBit(ExpiredBits(s, passes), 3);
    }
  }

  // With the guest's own TPUMCR, 0x1ccc, a register of 2500 on channel 3 reaches
  // zero by the poll at 2.5 s, however often it was polled before, and not by
  // any poll up to 2.499 s.
  lemma GuestTimerExpires(c: Clock, s: Image, start: nat, times: seq<nat>)
    requires c.wallLast.None? && s[0xe00] == 0x1c && s[0xe01] == 0xcc
    requires Counting(s, 3) && Word(s, 0xf32) == 2500
    requires Nondecreasing(start, times)
    ensures var end := RunWall(c, s, [start] + times); var elapsed := Last(start, times) - start;
      && (elapsed == 2_500_000_000 ==> Word(end.sim, 0xf32) == 0 && Bit(end.expired, 3))
      && (0 <= elapsed <= 2_499_000_000 ==> Word(end.sim, 0xf32) > 0)
  {
    assert !Stopped(s);
    hide RunWall, Decremented, Expired, Counting, Prescale, Passes, Psck, Tcr1p, Word, Bit, Stopped;
    var elapsed := Last(start, times) - start;
    LastIsLater(start, times);
    GuestPrescale(s);
    if elapsed <= 2_499_000_000 { PassesBefore(elapsed); }
    if elapsed == 2_500_000_000 || elapsed <= 2_499_000_000 {
      LiveTotalFromBytes(c, s, start, times);
      RegisterReachesZero(s, Passes(elapsed, 4));
    }
  }

  lemma TicksOfFirstSample(s: Image, start: nat, now: nat)
    requires start <= now
    ensures Quot(Numerator(Clock(None, Some(start), 0, Divider(s)), start, now), Denominator(Divider(s)))
        == LiveTicks(s, now - start)
    ensures LiveTicks(s, 0) == 0
  {
    hide Divider, Denominator;
    DivisionIsUnique(0, Denominator(Divider(s)), 0, 0);
  }

  lemma RunNoPolls(c: Clock, s: Image)
    ensures RunWall(c, s, []) == Polled(c, s, 0)
  {}

  lemma RunFromFirstSample(c: Clock, s: Image, start: nat, times: seq<nat>)
    requires c.wallLast.None?
    ensures RunWall(c, s, [start] + times) == RunWall(Clock(None, Some(start), 0, Divider(s)), s, times)
  {
    hide Divider, AdvanceWall;
    FirstSample(c, s, start);
    assert ([start] + times)[1..] == times;
    OrZero(RunWall(Clock(None, Some(start), 0, Divider(s)), s, times).expired);
  }

  lemma FirstSample(c: Clock, s: Image, start: nat)
    requires c.wallLast.None?
    ensures AdvanceWall(c, s, start) == Polled(Clock(None, Some(start), 0, Divider(s)), s, 0)
  {
    hide Divider;
  }

  // Every intermediate value of a poll fits the 128-bit arithmetic.
  lemma WallArithmeticFits(c: Clock, s: Image, now: nat)
    requires c.wallLast.Some? && c.wallLast.value <= now <= DURATION_MAX
    requires c.wallRemainder < Denominator(256)
    ensures Numerator(c, c.wallLast.value, now) < 0x1_0000_0000_0000_0000_0000_0000_0000_0000
    ensures Denominator(Divider(s)) <= Denominator(256)
    ensures AdvanceWall(c, s, now).clock.wallRemainder < Denominator(256)
  {
    hide Decremented, Expired, Stopped;
    var d := Divider(s);
    assert Denominator(d) <= Denominator(256);
  }

  // ---------- the instruction clock ----------

  // Lattice points at, at + QUANTUM, ... up to and including `now`.
  function TicksAt(at: nat, now: nat): nat { if now < at then 0 else (now - at) / QUANTUM + 1 }

  // The first lattice point after `now`, as far as a u64 can name it.
  function NextAt(at: nat, now: nat): nat { Min(at + QUANTUM * TicksAt(at, now), U64_MAX) }

  predicate AllBelow(times: seq<nat>, bound: nat) { forall i | 0 <= i < |times| :: times[i] < bound }

  lemma LatticeStep(at: nat, t: nat, u: nat)
    requires t <= u < U64_MAX && at <= U64_MAX
    ensures NextAt(at, t) == (if t < at then at else SatAdd(t, QUANTUM - (t - at) % QUANTUM))
    ensures TicksAt(at, t) + TicksAt(NextAt(at, t), u) == TicksAt(at, u)
    ensures NextAt(NextAt(at, t), u) == NextAt(at, u)
  {
    if t >= at {
      var k := (t - at) / QUANTUM;
      assert t - at == k * QUANTUM + (t - at) % QUANTUM;
      if at + QUANTUM * (k + 1) <= u {
        var m := (u - at) / QUANTUM;
        DivisionIsUnique(u - (at + QUANTUM * (k + 1)), QUANTUM, m - k - 1, (u - at) % QUANTUM);
      }
    }
  }

  // Every schedule decrements once per lattice point reached, and leaves the
  // deadline at the first lattice point after the last poll.
  lemma {:induction false} InstructionScheduleIsExact(c: Clock, s: Image, at: nat, p: nat, times: seq<nat>)
    requires c.wallLast.None? && c.next == Some(at) && at <= U64_MAX
    requires times != [] && Nondecreasing(p, times) && AllBelow(times, U64_MAX)
    ensures var end := RunInstructions(c, s, times);
      var now := Last(p, times);
      && end.sim == Decremented(s, TicksAt(at, now))
      && end.expired == Expired(s, TicksAt(at, now))
      && end.clock == c.(next := Some(NextAt(at, now)))
    decreases |times|
  {
    hide Decremented, Expired, Or;
    var t, rest := times[0], times[1..];
    var now := Last(p, times);
    LastIsMember(t, rest, U64_MAX);
    LatticeStep(at, t, now);
    var e := TicksAt(at, t);
    EmptyPass(s);
    var first := Advance(c, s, t);
    assert first == Polled(c.(next := Some(NextAt(at, t))), Decremented(s, e), Expired(s, e));
    if rest == [] {
      OrZero(first.expired);
    } else {
      InstructionScheduleIsExact(first.clock, first.sim, NextAt(at, t), t, rest);
      PassesCompose(s, e, TicksAt(NextAt(at, t), now));
    }
  }

  lemma {:induction false} LastIsMember(from: nat, times: seq<nat>, bound: nat)
    requires from < bound && AllBelow(times, bound)
    ensures Last(from, times) < bound
    decreases |times|
  {
    if times != [] { LastIsMember(times[0], times[1..], bound); }
  }

  // Armed at n0, the total at any later time is floor((now - n0) / 10,000).
  lemma InstructionClockIsExact(c: Clock, s: Image, n0: nat, times: seq<nat>)
    requires c.wallLast.None? && c.next.None?
    requires Nondecreasing(n0, times) && AllBelow([n0] + times, U64_MAX)
    ensures var end := RunInstructions(c, s, [n0] + times);
      var now := Last(n0, times);
      && n0 <= now
      && end.sim == Decremented(s, (now - n0) / 10_000)
      && end.expired == Expired(s, (now - n0) / 10_000)
      && end.clock.next == Some(Min(n0 + 10_000 * ((now - n0) / 10_000 + 1), U64_MAX))
  {
    hide Decremented, Expired, Or;
    var at := SatAdd(n0, QUANTUM);
    assert ([n0] + times)[0] == n0 && ([n0] + times)[1..] == times;
    assert AllBelow(times, U64_MAX) by {
      forall i | 0 <= i < |times| ensures times[i] < U64_MAX { assert ([n0] + times)[i + 1] == times[i]; }
    }
    var first := Advance(c, s, n0);
    assert first == Polled(c.(next := Some(at)), s, 0);
    if times == [] {
      EmptyPass(s);
      OrZero(0);
    } else {
      InstructionScheduleIsExact(first.clock, s, at, n0, times);
      OrZero(RunInstructions(first.clock, s, times).expired);
      LastIsMember(n0, times, U64_MAX);
      var now := Last(n0, times);
      if at <= now {
        DivisionIsUnique(now - at, QUANTUM, (now - n0) / QUANTUM - 1, (now - n0) % QUANTUM);
      }
    }
  }

  // At the very last u64 instant the deadline saturates. One more poll from an
  // armed clock counts the lattice points passed since the previous poll `p`
  // exactly when it comes earlier or the deadline was still representable.
  lemma ExactExceptAtSaturation(c: Clock, s: Image, n0: nat, p: nat, now: nat)
    requires n0 <= p <= now <= U64_MAX
    requires c.wallLast.None? && c.next == Some(Min(n0 + QUANTUM * ((p - n0) / QUANTUM + 1), U64_MAX))
    ensures TicksAt(c.next.value, now) == (now - n0) / QUANTUM - (p - n0) / QUANTUM
       <==> now < U64_MAX || n0 + QUANTUM * ((p - n0) / QUANTUM + 1) <= U64_MAX
    ensures Advance(c, s, now).sim == Decremented(s, TicksAt(c.next.value, now))
  {
    hide Expired;
    var k := (p - n0) / QUANTUM;
    var point := n0 + QUANTUM * (k + 1);
    EmptyPass(s);
    hide Decremented;
    if point <= now {
      DivisionIsUnique(now - point, QUANTUM, (now - n0) / QUANTUM - k - 1, (now - n0) % QUANTUM);
    } else {
      DivisionIsUnique(now - n0, QUANTUM, k, now - n0 - k * QUANTUM);
    }
  }

  // ---------- checkpoints ----------

  // Deadlines `at` and `other` have counted the same d instructions after
  // `captured` and `now`.
  predicate SameCount(at: nat, captured: nat, other: nat, now: nat, d: nat) {
    TicksAt(at, captured + d) == TicksAt(other, now + d)
  }

  // Not overdue and still representable after the move; or overdue by less than
  // a quantum with no whole quantum of 64-bit instants left to notice it.
  predicate KeepsDelay(at: nat, captured: nat, now: nat) {
    if captured <= at then now + (at - captured) <= U64_MAX
    else captured - at < QUANTUM && now + QUANTUM - (captured - at) > U64_MAX
  }

  // The deadline keeps its distance for every later 64-bit poll exactly then.
  lemma RebaseKeepsDelay(at: nat, captured: nat, now: nat)
    requires at <= U64_MAX && now <= U64_MAX
    ensures (forall d: nat | now + d <= U64_MAX :: SameCount(at, captured, RebasedAt(at, captured, now), now, d))
       <==> KeepsDelay(at, captured, now)
  {
    var r := RebasedAt(at, captured, now);
    if captured <= at && now + (at - captured) <= U64_MAX {
      forall d: nat | now + d <= U64_MAX
        ensures SameCount(at, captured, r, now, d)
      {
        if captured + d >= at { assert captured + d - at == now + d - r; }
      }
    } else if captured <= at {
      assert !SameCount(at, captured, r, now, U64_MAX - now);
    } else {
      OverdueDelay(at, captured, now);
    }
  }

  lemma OverdueDelay(at: nat, captured: nat, now: nat)
    requires at < captured && now <= U64_MAX
    ensures (forall d: nat | now + d <= U64_MAX :: SameCount(at, captured, RebasedAt(at, captured, now), now, d))
       <==> KeepsDelay(at, captured, now)
  {
    var late := captured - at;
    var d: nat := if late >= QUANTUM then 0 else QUANTUM - late;
    assert RebasedAt(at, captured, now) == now;
    assert !SameCount(at, captured, now, now, d);
    if KeepsDelay(at, captured, now) {
      forall e: nat | now + e <= U64_MAX ensures SameCount(at, captured, now, now, e) {
        assert late + e < QUANTUM;
      }
    }
  }

  // Overdue by five at the checkpoint: 9,995 instructions later the original has
  // counted two ticks and the restored clock one.
  lemma OverdueCheckpointDiffers()
    ensures !SameCount(5, 10, RebasedAt(5, 10, 1000), 1000, 9995)
  {}

  function Shifted(times: seq<nat>, from: nat, to: nat): seq<nat>
    requires forall i | 0 <= i < |times| :: from <= times[i]
  {
    seq(|times|, i requires 0 <= i < |times| => times[i] - from + to)
  }

  lemma {:induction false} ShiftedSchedule(times: seq<nat>, p: nat, from: nat, to: nat)
    requires from <= p && Nondecreasing(p, times)
    requires forall i | 0 <= i < |times| :: from <= times[i]
    ensures Nondecreasing(p - from + to, Shifted(times, from, to))
    ensures Last(p - from + to, Shifted(times, from, to)) == Last(p, times) - from + to
    ensures Last(p, times) >= from
    decreases |times|
  {
    if times != [] {
      ShiftedSchedule(times[1..], times[0], from, to);
      assert Shifted(times, from, to)[1..] == Shifted(times[1..], from, to);
    }
  }

  // A restored checkpoint replays every schedule of polls with the same register
  // images and the same expiries, `now - captured` instructions later.
  lemma RestoredRunsAgree(c: Clock, s: Image, captured: nat, now: nat, times: seq<nat>)
    requires c.wallLast.None? && c.next.Some? && captured <= c.next.value <= U64_MAX
    requires now <= U64_MAX && times != [] && Nondecreasing(captured, times)
    requires forall i | 0 <= i < |times| :: captured <= times[i]
    requires AllBelow(times, U64_MAX) && AllBelow(Shifted(times, captured, now), U64_MAX)
    ensures var original := RunInstructions(c, s, times);
      var restored := RunInstructions(Rebase(c, captured, now), s, Shifted(times, captured, now));
      restored.sim == original.sim && restored.expired == original.expired
  {
    hide Decremented, Expired, RunInstructions;
    var at, later := c.next.value, Shifted(times, captured, now);
    ShiftedSchedule(times, captured, captured, now);
    assert now <= later[0] < U64_MAX;
    LastIsMember(now, later, U64_MAX);
    InstructionScheduleIsExact(c, s, at, captured, times);
    InstructionScheduleIsExact(Rebase(c, captured, now), s, RebasedAt(at, captured, now), now,
        Shifted(times, captured, now));
    assert TicksAt(RebasedAt(at, captured, now), Last(now, later)) == TicksAt(at, Last(captured, times));
  }

  function LastInstants(n: nat): seq<nat> { seq(n, _ => U64_MAX) }

  // The last 64-bit instant is the exception: a deadline saturated there is
  // reached again by every poll at it.
  lemma {:induction false} LastInstantCountsAgain(c: Clock, s: Image, n: nat)
    requires c.wallLast.None? && c.next == Some(U64_MAX)
    ensures RunInstructions(c, s, LastInstants(n)).sim == Decremented(s, n)
    decreases n
  {
    hide Decremented, Expired, Or;
    if n == 0 {
      EmptyPass(s);
    } else {
      assert LastInstants(n)[0] == U64_MAX && LastInstants(n)[1..] == LastInstants(n - 1);
      assert Advance(c, s, U64_MAX) == Polled(c, Decremented(s, 1), Expired(s, 1));
      LastInstantCountsAgain(c, Decremented(s, 1), n - 1);
      PassesCompose(s, 1, n - 1);
    }
  }

  // Host time spent outside a session is never counted.
  lemma RestoreForgetsHostTime(c: Clock, s: Image, captured: nat, now: nat, wall: nat)
    ensures var first := AdvanceWall(Rebase(c, captured, now), s, wall);
      first.sim == s && first.expired == 0 && first.clock.wallRemainder == 0
  {}

  // ---------- the periodic interrupt timer ----------

  datatype Pit = Pit(next: Option<nat>, pending: bool)

  function PollPit(p: Pit, period: Option<nat>, now: nat): Pit {
    if period.None? then Pit(None, false)
    else
      var next := if p.next.Some? then p.next.value else SatAdd(now, period.value);
      if now >= next then Pit(Some(SatAdd(now, period.value)), true) else Pit(Some(next), p.pending)
  }

  function RebasePit(p: Pit, captured: nat, now: nat): Pit {
    p.(next := if p.next.Some? then Some(RebasedAt(p.next.value, captured, now)) else None)
  }

  function RunPit(p: Pit, period: nat, times: seq<nat>): seq<bool>
    decreases |times|
  {
    if times == [] then []
    else
      var q := PollPit(p.(pending := false), Some(period), times[0]);
      [q.pending] + RunPit(q, period, times[1..])
  }

  // The deadlines of two timers that are to fire together, `at` being what the
  // first would be if instants never ran out.
  ghost predicate PitsAgree(p: Pit, q: Pit, captured: nat, now: nat, at: nat) {
    && (p.next.Some? <==> q.next.Some?)
    && (p.next.Some? ==> p.next.value == Min(at, U64_MAX) && q.next.value == Min(now + Monus(at, captured), U64_MAX))
  }

  lemma {:induction false} AgreeingPits(p: Pit, q: Pit, period: nat, captured: nat, now: nat, from: nat,
      times: seq<nat>, at: nat)
    requires captured <= from && Nondecreasing(from, times) && PitsAgree(p, q, captured, now, at)
    requires forall i | 0 <= i < |times| :: captured <= times[i]
    requires AllBelow(times, U64_MAX) && AllBelow(Shifted(times, captured, now), U64_MAX)
    ensures RunPit(q, period, Shifted(times, captured, now)) == RunPit(p, period, times)
    decreases |times|
  {
    if times != [] {
      var t := times[0];
      var later := Shifted(times, captured, now);
      assert later[0] == t - captured + now && later[1..] == Shifted(times[1..], captured, now);
      var p1 := PollPit(p.(pending := false), Some(period), t);
      var q1 := PollPit(q.(pending := false), Some(period), later[0]);
      var next := if p.next.None? || p1.pending then t + period else at;
      assert p1.pending == q1.pending && PitsAgree(p1, q1, captured, now, next);
      hide PollPit, PitsAgree;
      assert forall i | 0 <= i < |later[1..]| :: later[1..][i] == later[i + 1];
      AgreeingPits(p1, q1, period, captured, now, t, times[1..], next);
    }
  }

  // The periodic timer fires at the same polls after a restore, overdue or not,
  // whatever instants saturate.
  lemma RestoredPitAgrees(p: Pit, period: nat, captured: nat, now: nat, from: nat, times: seq<nat>)
    requires captured <= from && Nondecreasing(from, times)
    requires forall i | 0 <= i < |times| :: captured <= times[i]
    requires AllBelow(times, U64_MAX) && AllBelow(Shifted(times, captured, now), U64_MAX)
    requires p.next.Some? ==> p.next.value <= U64_MAX
    ensures RunPit(RebasePit(p, captured, now), period, Shifted(times, captured, now)) == RunPit(p, period, times)
  {
    var at := if p.next.Some? then p.next.value else 0;
    AgreeingPits(p, RebasePit(p, captured, now), period, captured, now, from, times, at);
  }
}
