// The UART idle timeout of TPU channel 5 (function 13). The emulator keeps a
// countdown that each idle poll lowers by the time since the previous poll;
// the reference below keeps only the instant of the last reload.
module TpuUart {
  import opened Bits
  import opened TpuRegisters

  datatype Uart = Uart(service: bool, remaining: Option<nat>, halfPeriod: nat, last: nat, idle: bool)

  // Channel 5 runs function 13 with a priority.
  predicate Configured(s: Image) {
    Shr(Word(s, 0xe10), 4) % 16 == 13 && Shr(Word(s, 0xe1e), 10) % 4 != 0
  }

  function AtLeastOne(n: nat): nat { if n == 0 then 1 else n }

  predicate Halved(s: Image) { Word(s, 0xf52) >= 0x8000 }

  function HalfPeriod(s: Image): nat { if Halved(s) then AtLeastOne(Word(s, 0xf52) % 0x8000) else 0 }

  // The interval a reload takes from the channel parameters.
  function Interval(s: Image): nat {
    if Halved(s) then AtLeastOne(Word(s, 0xf50)) * 2 * HalfPeriod(s)
    else AtLeastOne(Word(s, 0xf50) * 0x1_0000 + Word(s, 0xf52))
  }

  function HostService(u: Uart, value: Byte): Uart {
    u.(service := u.service || value / 4 % 4 == 1)
  }

  predicate Reloads(u: Uart, idle: bool) { u.service || (idle && !u.idle) }

  function ReloadedImage(s: Image, idle: bool): Image {
    Put(Put(Put(s, 0xf54, if idle then 1 else 0), 0xf56, Word(s, 0xf50)), 0xf58, if Halved(s) then 0x8000 else 0)
  }

  function Halves(remaining: nat, half: nat): nat
    requires half > 0
  {
    (remaining + half - 1) / half
  }

  function CountedImage(s: Image, half: nat, remaining: nat): Image {
    if half != 0 then
      var halves := Halves(remaining, half);
      Put(Put(s, 0xf58, if halves % 2 == 0 then 0x8000 else 0), 0xf56, (halves + 1) / 2 % 0x1_0000)
    else Put(s, 0xf56, remaining / 0x1_0000 % 0x1_0000)
  }

  function ExpiredImage(s: Image): Image {
    var t := Put(Put(Put(s, 0xf54, 1), 0xf56, 0), 0xf58, 0x8000);
    OrIsWord(Word(t, 0xe20), 0x20);
    Put(t, 0xe20, Or(Word(t, 0xe20), 0x20))
  }

  datatype Outcome = Outcome(uart: Uart, sim: Image, fired: bool)

  function Poll(u: Uart, s: Image, now: nat, idle: bool): Outcome {
    var elapsed := Monus(now, u.last);
    var v := u.(last := now);
    if Stopped(s) then Outcome(v, s, false)
    else if !Configured(s) then Outcome(v.(remaining := None), s, false)
    else if Reloads(u, idle) then
      Outcome(Uart(false, Some(Interval(s)), HalfPeriod(s), now, idle), ReloadedImage(s, idle), false)
    else if idle && u.remaining.Some? then
      var remaining := Monus(u.remaining.value, elapsed);
      var t := CountedImage(s, u.halfPeriod, remaining);
      if remaining == 0 then Outcome(v.(remaining := None, idle := idle), ExpiredImage(t), true)
      else Outcome(v.(remaining := Some(remaining), idle := idle), t, false)
    else Outcome(v.(idle := idle), s, false)
  }

  datatype Event = Service(value: Byte) | Tick(now: nat, idle: bool)

  // The polls of a run at which the timeout fires, in order.
  function Fires(u: Uart, s: Image, events: seq<Event>): seq<bool>
    decreases |events|
  {
    if events == [] then []
    else match events[0]
      case Service(value) => [false] + Fires(HostService(u, value), s, events[1..])
      case Tick(now, idle) =>
        var o := Poll(u, s, now, idle);
        [o.fired] + Fires(o.uart, o.sim, events[1..])
  }

  // ---------- what polls leave alone ----------

  // The words a poll decides by.
  ghost predicate SameSetup(s: Image, t: Image) {
    && Word(t, TPUMCR) == Word(s, TPUMCR)
    && Word(t, 0xe10) == Word(s, 0xe10)
    && Word(t, 0xe1e) == Word(s, 0xe1e)
    && Word(t, 0xf50) == Word(s, 0xf50)
    && Word(t, 0xf52) == Word(s, 0xf52)
  }

  lemma PollKeepsSetup(u: Uart, s: Image, now: nat, idle: bool)
    ensures SameSetup(s, Poll(u, s, now, idle).sim)
  {
    hide Put, SameSetup, Or, Interval, HalfPeriod, Halves, Word;
    var image := Poll(u, s, now, idle).sim;
    if image == ReloadedImage(s, idle) {
      ReloadKeepsSetup(s, idle);
    } else if image != s {
      var remaining := Monus(u.remaining.value, Monus(now, u.last));
      CountKeepsSetup(s, u.halfPeriod, remaining);
      ExpiryKeepsSetup(CountedImage(s, u.halfPeriod, remaining));
      SetupTransitive(s, CountedImage(s, u.halfPeriod, remaining),
          ExpiredImage(CountedImage(s, u.halfPeriod, remaining)));
    } else {
      SetupReflexive(s);
    }
  }

  lemma SetupReflexive(s: Image)
    ensures SameSetup(s, s)
  {}

  lemma SetupTransitive(s: Image, t: Image, v: Image)
    requires SameSetup(s, t)
    ensures SameSetup(t, v) ==> SameSetup(s, v)
  {}

  lemma ReloadKeepsSetup(s: Image, idle: bool)
    ensures SameSetup(s, ReloadedImage(s, idle))
  {}

  lemma CountKeepsSetup(s: Image, half: nat, remaining: nat)
    ensures SameSetup(s, CountedImage(s, half, remaining))
  {
    hide Halves;
  }

  lemma ExpiryKeepsSetup(s: Image)
    ensures SameSetup(s, ExpiredImage(s))
  {
    hide Or;
    OrIsWord(Word(Put(Put(Put(s, 0xf54, 1), 0xf56, 0), 0xf58, 0x8000), 0xe20), 0x20);
  }

  lemma SetupDecides(s: Image, t: Image)
    requires SameSetup(s, t)
    ensures Stopped(t) == Stopped(s) && Configured(t) == Configured(s)
    ensures Interval(t) == Interval(s) && HalfPeriod(t) == HalfPeriod(s)
  {}

  lemma IntervalPositive(s: Image)
    ensures Interval(s) > 0
    ensures Halved(s) ==> HalfPeriod(s) > 0 && Interval(s) <= 0x1_fffe * HalfPeriod(s)
    ensures Interval(s) <= U64_MAX && Interval(s) + HalfPeriod(s) <= U64_MAX
  {
    if Halved(s) {
      var half := HalfPeriod(s);
      assert 0 < half < 0x8000 && AtLeastOne(Word(s, 0xf50)) <= 0xffff;
      assert Interval(s) == (AtLeastOne(Word(s, 0xf50)) * 2) * half;
      ProductBound(AtLeastOne(Word(s, 0xf50)) * 2, half, 0x1_fffe, 0x8000);
    }
  }

  lemma ProductBound(a: nat, b: nat, x: nat, y: nat)
    requires 0 < a <= x && 0 < b <= y
    ensures 0 < a * b <= x * b <= x * y
  {
    assert (x - a) * b >= 0 && x * (y - b) >= 0;
    assert a * b >= 1 * b by { assert (a - 1) * b >= 0; }
  }

  // ---------- the reference: an absolute reload instant ----------

  // `reload` is the instant of the last reload that has not timed out yet.
  datatype Reference = Reference(reload: Option<nat>, service: bool, idle: bool)

  function ReferenceFires(r: Reference, interval: nat, events: seq<Event>): seq<bool>
    decreases |events|
  {
    if events == [] then []
    else match events[0]
      case Service(value) => [false] + ReferenceFires(r.(service := r.service || value / 4 % 4 == 1), interval,
          events[1..])
      case Tick(now, idle) =>
        if r.service || (idle && !r.idle) then
          [false] + ReferenceFires(Reference(Some(now), false, idle), interval, events[1..])
        else if idle && r.reload.Some? && now - r.reload.value >= interval then
          [true] + ReferenceFires(Reference(None, false, idle), interval, events[1..])
        else
          [false] + ReferenceFires(r.(idle := idle), interval, events[1..])
  }

  predicate Ordered(from: nat, events: seq<Event>)
    decreases |events|
  {
    events == [] ||
    match events[0]
    case Service(_) => Ordered(from, events[1..])
    case Tick(now, _) => from <= now && Ordered(now, events[1..])
  }

  // While the line is idle the countdown is the interval less the time since
  // the reload. Off the idle line it may lag: the next idle edge reloads it.
  ghost predicate Tracks(u: Uart, r: Reference, interval: nat) {
    && u.service == r.service && u.idle == r.idle
    && (u.remaining.Some? <==> r.reload.Some?)
    && (u.remaining.Some? && u.idle ==>
          r.reload.value <= u.last && u.remaining.value == interval - (u.last - r.reload.value)
              && u.remaining.value > 0)
  }

  // The countdown fires at exactly the polls the reference fires at, for every
  // interleaving of host services and of idle and busy polls.
  lemma {:induction false} CountdownRefinesDeadline(u: Uart, s: Image, r: Reference, events: seq<Event>)
    requires !Stopped(s) && Configured(s)
    requires Tracks(u, r, Interval(s)) && Ordered(u.last, events)
    ensures Fires(u, s, events) == ReferenceFires(r, Interval(s), events)
    decreases |events|
  {
    hide Stopped, Configured, Interval, HalfPeriod, ReloadedImage, CountedImage, ExpiredImage, SameSetup;
    if events != [] {
      match events[0]
      case Service(value) =>
        CountdownRefinesDeadline(HostService(u, value), s, r.(service := r.service || value / 4 % 4 == 1), events[1..]);
      case Tick(now, idle) =>
        var o := Poll(u, s, now, idle);
        PollKeepsSetup(u, s, now, idle);
        SetupDecides(s, o.sim);
        IntervalPositive(s);
        var q := if r.service || (idle && !r.idle) then Reference(Some(now), false, idle)
                 else if o.fired then Reference(None, false, idle) else r.(idle := idle);
        assert Tracks(o.uart, q, Interval(s));
        CountdownRefinesDeadline(o.uart, o.sim, q, events[1..]);
    }
  }

  // On the idle line, `interval` after the reload, the reference fires once.
  lemma {:induction false} DeadlineFiresOnce(reload: nat, interval: nat, from: nat, events: seq<Event>)
    requires Ordered(from, events) && reload <= from < reload + interval
    requires forall i | 0 <= i < |events| :: events[i].Tick? && events[i].idle
    ensures var fires := ReferenceFires(Reference(Some(reload), false, true), interval, events);
      |fires| == |events| && forall i | 0 <= i < |events| ::
        fires[i] <==> events[i].now - reload >= interval && forall j | 0 <= j < i :: events[j].now - reload < interval
    decreases |events|
  {
    if events != [] {
      var now, rest := events[0].now, events[1..];
      var fires := ReferenceFires(Reference(Some(reload), false, true), interval, events);
      assert forall i | 0 <= i < |rest| :: rest[i] == events[i + 1];
      if now - reload >= interval {
        SpentDeadlineIsSilent(interval, rest);
        assert fires == [true] + ReferenceFires(Reference(None, false, true), interval, rest);
      } else {
        DeadlineFiresOnce(reload, interval, now, rest);
        var later := ReferenceFires(Reference(Some(reload), false, true), interval, rest);
        assert fires == [false] + later;
        forall i | 0 < i < |events|
          ensures fires[i] <==> events[i].now - reload >= interval && forall j | 0 <= j < i ::
            events[j].now - reload < interval
        {
          assert fires[i] == later[i - 1] && rest[i - 1] == events[i];
          if forall j | 0 <= j < i :: events[j].now - reload < interval {
            assert forall j | 0 <= j < i - 1 :: rest[j].now - reload < interval;
          }
          if fires[i] {
            forall j | 0 <= j < i ensures events[j].now - reload < interval {
              if j > 0 { assert rest[j - 1] == events[j]; }
            }
          }
        }
      }
    }
  }

  lemma {:induction false} SpentDeadlineIsSilent(interval: nat, events: seq<Event>)
    requires forall i | 0 <= i < |events| :: events[i].Tick? && events[i].idle
    ensures var fires := ReferenceFires(Reference(None, false, true), interval, events);
      |fires| == |events| && forall i | 0 <= i < |events| :: !fires[i]
    decreases |events|
  {
    if events != [] { SpentDeadlineIsSilent(interval, events[1..]); }
  }

  // After a reload at `start` on the idle line, and until a busy poll or a host
  // service, the timeout fires at the first poll `Interval` or more later and
  // at no other.
  lemma TimeoutFiresOncePerReload(u: Uart, s: Image, start: nat, events: seq<Event>)
    requires !Stopped(s) && Configured(s) && Reloads(u, true)
    requires Ordered(start, events)
    requires forall i | 0 <= i < |events| :: events[i].Tick? && events[i].idle
    ensures var fires := Fires(u, s, [Tick(start, true)] + events);
      |fires| == |events| + 1 && !fires[0] && forall i | 0 <= i < |events| ::
        fires[i + 1] <==> events[i].now - start >= Interval(s) && forall j | 0 <= j < i ::
          events[j].now - start < Interval(s)
  {
    hide Stopped, Configured, Interval, HalfPeriod, ReloadedImage, SameSetup, ReferenceFires, Ordered;
    var o := Poll(u, s, start, true);
    assert ([Tick(start, true)] + events)[1..] == events;
    PollKeepsSetup(u, s, start, true);
    SetupDecides(s, o.sim);
    IntervalPositive(s);
    CountdownRefinesDeadline(o.uart, o.sim, Reference(Some(start), false, true), events);
    DeadlineFiresOnce(start, Interval(s), start, events);
    assert Fires(u, s, [Tick(start, true)] + events) == [false] + Fires(o.uart, o.sim, events);
  }

  // ---------- the same from the bytes of the registers ----------

  // The TPU runs, channel 5 has function 13 and a priority.
  predicate Enabled(s: Image) { s[0xe00] < 0x80 && s[0xe11] / 16 == 13 && s[0xe1e] / 4 % 4 != 0 }

  function Parameter(s: Image, off: nat): nat
    requires off + 1 < 0x1000
  {
    256 * s[off] as int + s[off + 1] as int
  }

  // The interval from the two parameter words at 0xf50 and 0xf52: a count of periods
  // of two half periods each, or a 32-bit number; a zero counts as one.
  function ShownInterval(s: Image): nat {
    var p0, p1 := Parameter(s, 0xf50), Parameter(s, 0xf52);
    if s[0xf52] >= 0x80 then
      (if p0 == 0 then 1 else p0) * 2 * (if p1 == 0x8000 then 1 else p1 - 0x8000)
    else if p0 == 0 && p1 == 0 then 1 else p0 * 65_536 + p1
  }

  lemma EnabledIsConfigured(s: Image)
    ensures Enabled(s) <==> !Stopped(s) && Configured(s)
  {
    assert Pow2(10) == 0x400 && Pow2(4) == 0x10 by { assert Pow2(5) == 0x20; }
    hide Shr, Pow2;
    ShrDivides(Word(s, 0xe10), 4);
    ShrDivides(Word(s, 0xe1e), 10);
    FieldsOfBytes(s[0xe10], s[0xe11]);
    FieldsOfBytes(s[0xe1e], s[0xe1f]);
  }

  lemma FieldsOfBytes(high: Byte, low: Byte)
    ensures (high as int * 0x100 + low as int) / 0x10 % 16 == low / 16
    ensures (high as int * 0x100 + low as int) / 0x400 % 4 == high / 4 % 4
  {
    var w := high as int * 0x100 + low as int;
    assert w / 0x10 == high as int * 0x10 + low as int / 0x10;
    assert w / 0x400 == high / 4;
  }

  lemma IntervalShown(s: Image)
    ensures Interval(s) == ShownInterval(s)
  {
    var p0, p1 := Parameter(s, 0xf50), Parameter(s, 0xf52);
    assert p0 == Word(s, 0xf50) && p1 == Word(s, 0xf52);
    if Halved(s) { assert p1 % 0x8000 == p1 - 0x8000; }
  }

  // Event i is the first poll `interval` or more after `start`.
  predicate FirstPast(events: seq<Event>, i: nat, start: nat, interval: nat)
    requires i < |events| && forall j | 0 <= j <= i :: events[j].Tick?
  {
    events[i].now - start >= interval && forall j | 0 <= j < i :: events[j].now - start < interval
  }

  // A host service code of 1 in bits 2 and 3 makes the next poll reload; from there
  // the timeout fires at the first idle poll that comes the shown interval later.
  lemma ServicedTimeoutFires(u: Uart, s: Image, service: Byte, start: nat, events: seq<Event>)
    requires Enabled(s) && service / 4 % 4 == 1 && Ordered(start, events)
    requires forall i | 0 <= i < |events| :: events[i].Tick? && events[i].idle
    ensures var fires := Fires(u, s, [Service(service), Tick(start, true)] + events);
      && |fires| == |events| + 2 && !fires[0] && !fires[1]
      && forall i | 0 <= i < |events| :: fires[i + 2] <==> FirstPast(events, i, start, ShownInterval(s))
  {
    EnabledIsConfigured(s);
    IntervalShown(s);
    hide Enabled, Stopped, Configured, Interval, ShownInterval, Poll, Ordered, HalfPeriod;
    var all, rest := [Service(service), Tick(start, true)] + events, [Tick(start, true)] + events;
    assert all[1..] == rest;
    TimeoutFiresOncePerReload(HostService(u, service), s, start, events);
    var later := Fires(HostService(u, service), s, rest);
    var fires := Fires(u, s, all);
    assert fires == [false] + later;
    assert |fires| == |events| + 2 && !fires[0] && !fires[1];
    forall i | 0 <= i < |events|
      ensures fires[i + 2] <==> FirstPast(events, i, start, ShownInterval(s))
    {
      assert fires[i + 2] == later[i + 1];
    }
    hide FirstPast;
  }

  // ---------- the registers decode back to the countdown ----------

  // Half periods left, as COUNT and PHASE encode them.
  function DecodedHalves(s: Image): int {
    2 * Word(s, 0xf56) - (if Word(s, 0xf58) == 0x8000 then 0 else 1)
  }

  ghost predicate Bounded(u: Uart) {
    u.halfPeriod > 0 && u.remaining.Some? ==> u.remaining.value <= 0x1_fffe * u.halfPeriod
  }

  lemma PollKeepsBound(u: Uart, s: Image, now: nat, idle: bool)
    requires Bounded(u)
    ensures Bounded(Poll(u, s, now, idle).uart)
  {
    hide Interval, HalfPeriod, ReloadedImage, CountedImage, ExpiredImage;
    IntervalPositive(s);
    if !Halved(s) { assert HalfPeriod(s) == 0 by { WholePeriod(s); } }
  }

  lemma WholePeriod(s: Image)
    requires !Halved(s)
    ensures HalfPeriod(s) == 0
  {}

  lemma HalvesBound(remaining: nat, half: nat)
    requires half > 0 && remaining <= 0x1_fffe * half
    ensures Halves(remaining, half) <= 0x1_fffe
  {
    var h := Halves(remaining, half);
    assert remaining + half - 1 == h * half + (remaining + half - 1) % half;
    assert 0x1_ffff * half == 0x1_fffe * half + half;
    CancelFactor(h, 0x1_ffff, half);
  }

  // On an idle poll of a half-period timer the two registers decode to the half
  // periods left, rounded up, and the 16-bit count is never truncated.
  lemma RegistersDecode(u: Uart, s: Image, now: nat)
    requires !Stopped(s) && Configured(s) && !Reloads(u, true)
    requires u.remaining.Some? && u.halfPeriod > 0 && Bounded(u)
    ensures var remaining := Monus(u.remaining.value, Monus(now, u.last));
      && DecodedHalves(Poll(u, s, now, true).sim) == Halves(remaining, u.halfPeriod)
      && (Halves(remaining, u.halfPeriod) + 1) / 2 < 0x1_0000
  {
    hide Stopped, Configured, Or;
    var remaining := Monus(u.remaining.value, Monus(now, u.last));
    HalvesBound(remaining, u.halfPeriod);
    var halves := Halves(remaining, u.halfPeriod);
    if remaining == 0 {
      assert halves == 0 by { SmallQuotient(u.halfPeriod); }
      ExpiredRegisters(CountedImage(s, u.halfPeriod, remaining));
    } else {
      CountedRegisters(s, u.halfPeriod, remaining);
    }
  }

  lemma SmallQuotient(half: nat)
    requires half > 0
    ensures Halves(0, half) == 0
  {}

  lemma CountedRegisters(s: Image, half: nat, remaining: nat)
    requires half > 0 && Halves(remaining, half) <= 0x1_fffe
    ensures DecodedHalves(CountedImage(s, half, remaining)) == Halves(remaining, half)
  {
    hide Halves;
  }

  lemma ExpiredRegisters(s: Image)
    ensures DecodedHalves(ExpiredImage(s)) == 0
  {
    hide Or;
    OrIsWord(Word(Put(Put(Put(s, 0xf54, 1), 0xf56, 0), 0xf58, 0x8000), 0xe20), 0x20);
  }

  // Expiry always leaves the channel's interrupt status set.
  lemma ExpirySetsStatus(u: Uart, s: Image, now: nat, idle: bool)
    requires Poll(u, s, now, idle).fired
    ensures Bit(Word(Poll(u, s, now, idle).sim, 0xe20), 5)
  {
    hide Stopped, Configured, Interval, HalfPeriod, ReloadedImage;
    var t := CountedImage(s, u.halfPeriod, 0);
    var v := Put(Put(Put(t, 0xf54, 1), 0xf56, 0), 0xf58, 0x8000);
    OrIsWord(Word(v, 0xe20), 0x20);
    OrBit(Word(v, 0xe20), 0x20, 5);
    assert Pow2(5) == 32;
    Pow2Bit(5, 5);
  }

  // ---------- checkpoints ----------

  function Rebase(u: Uart, now: nat): Uart { u.(last := now) }

  // The same events `now - captured` instructions later.
  function Moved(events: seq<Event>, captured: nat, now: nat): seq<Event> {
    if events == [] then []
    else
      [match events[0]
       case Service(value) => Service(value)
       case Tick(at, idle) => Tick(now + Monus(at, captured), idle)]
      + Moved(events[1..], captured, now)
  }

  // The restored timeout fires at the same events as the original.
  ghost predicate SameFires(u: Uart, s: Image, captured: nat, now: nat, events: seq<Event>) {
    Fires(Rebase(u, now), s, Moved(events, captured, now)) == Fires(u, s, events)
  }

  // The next poll does not count from the previous one: a reload is due, there
  // is nothing to count, or the channel does not run.
  predicate Uncounted(u: Uart, s: Image) {
    u.service || !u.idle || u.remaining.None? || Stopped(s) || !Configured(s)
  }

  // Two timeouts that differ in the instant of the last poll only, and there
  // only by the shift unless the next poll does not look at it.
  predicate Shifted(u: Uart, v: Uart, s: Image, captured: nat, now: nat) {
    v == u.(last := v.last) && (Uncounted(u, s) || (captured <= u.last && v.last - now == u.last - captured))
  }

  // A running timeout always has something left.
  predicate Running(u: Uart) { u.remaining.Some? ==> u.remaining.value > 0 }

  lemma PollKeepsRunning(u: Uart, s: Image, now: nat, idle: bool)
    requires Running(u)
    ensures Running(Poll(u, s, now, idle).uart)
  {
    IntervalPositive(s);
    hide Interval, HalfPeriod, ReloadedImage, CountedImage, ExpiredImage, Stopped, Configured;
  }

  lemma ShiftedPoll(u: Uart, v: Uart, s: Image, captured: nat, now: nat, at: nat, idle: bool)
    requires Shifted(u, v, s, captured, now) && captured <= at
    ensures var later := now + at - captured;
      var o, p := Poll(u, s, at, idle), Poll(v, s, later, idle);
      && p.fired == o.fired && p.sim == o.sim && o.uart.last == at
      && p.uart == o.uart.(last := later)
  {
    hide Interval, HalfPeriod, ReloadedImage, CountedImage, ExpiredImage, Stopped, Configured;
  }

  lemma {:induction false} ShiftedFires(u: Uart, v: Uart, s: Image, captured: nat, now: nat, from: nat,
      events: seq<Event>)
    requires Shifted(u, v, s, captured, now) && captured <= from && Ordered(from, events)
    ensures Fires(v, s, Moved(events, captured, now)) == Fires(u, s, events)
    decreases |events|
  {
    hide Poll, Stopped, Configured, SameSetup;
    if events != [] {
      var rest := Moved(events[1..], captured, now);
      assert Moved(events, captured, now)[1..] == rest;
      match events[0]
      case Service(value) =>
        ShiftedFires(HostService(u, value), HostService(v, value), s, captured, now, from, events[1..]);
      case Tick(at, idle) =>
        ShiftedPoll(u, v, s, captured, now, at, idle);
        var o, p := Poll(u, s, at, idle), Poll(v, s, now + at - captured, idle);
        ShiftedFires(o.uart, p.uart, o.sim, captured, now, at, events[1..]);
    }
  }

  // One idle poll at which the original times out and the restored one has one
  // tick left.
  lemma RebaseLosesElapsed(u: Uart, s: Image, captured: nat, now: nat)
    requires u.last < captured && Running(u) && !Uncounted(u, s)
    ensures var events := [Tick(captured + u.remaining.value - 1, true)];
      Ordered(captured, events) && Fires(u, s, events) == [true]
      && Fires(Rebase(u, now), s, Moved(events, captured, now)) == [false]
  {
    hide Interval, HalfPeriod, ReloadedImage, CountedImage, ExpiredImage, Stopped, Configured;
    var tick := Tick(captured + u.remaining.value - 1, true);
    var later := Tick(now + u.remaining.value - 1, true);
    assert Ordered(captured, [tick]) && [tick][1..] == [];
    assert Moved([tick], captured, now) == [later] && [later][1..] == [];
    var o, p := Poll(u, s, tick.now, true), Poll(Rebase(u, now), s, later.now, true);
    assert o.fired && !p.fired;
    hide Poll;
    assert Fires(u, s, [tick]) == [o.fired] + Fires(o.uart, o.sim, []);
    assert Fires(Rebase(u, now), s, [later]) == [p.fired] + Fires(p.uart, p.sim, []);
  }

  // A restore keeps the timeout for every later interleaving of services and
  // polls exactly when the checkpoint was taken at the instant of the last poll
  // or the next poll does not count from it. Otherwise the time since that poll
  // is lost.
  lemma RebaseKeepsTimeout(u: Uart, s: Image, captured: nat, now: nat)
    requires u.last <= captured && Running(u)
    ensures (forall events | Ordered(captured, events) :: SameFires(u, s, captured, now, events))
       <==> u.last == captured || Uncounted(u, s)
  {
    hide Fires, Moved, Ordered;
    if u.last == captured || Uncounted(u, s) {
      forall events | Ordered(captured, events) ensures SameFires(u, s, captured, now, events) {
        ShiftedFires(u, Rebase(u, now), s, captured, now, captured, events);
      }
    } else {
      RebaseLosesElapsed(u, s, captured, now);
      assert !SameFires(u, s, captured, now, [Tick(captured + u.remaining.value - 1, true)]);
    }
  }

  // Five ticks were left at the poll at 10 and two more instructions had passed
  // at the checkpoint at 12: the original times out at the poll four later, the
  // restored one does not.
  lemma RebaseLosesTwoTicks(s: Image)
    requires !Stopped(s) && Configured(s)
    ensures var u := Uart(false, Some(5), 0, 10, true);
      && Fires(u, s, [Tick(16, true)]) == [true]
      && Fires(Rebase(u, 100), s, Moved([Tick(16, true)], 12, 100)) == [false]
  {
    RebaseLosesElapsed(Uart(false, Some(5), 0, 10, true), s, 12, 100);
  }
}
