// The countdown timer as the emulator keeps it: fields updated in place by the
// poll of either clock, by host service and by a checkpoint restore.
module Tpu {
  import opened Bits
  import opened TpuRegisters
  import opened TpuClocks
  import TpuUart

  class Countdown {
    var next: Option<nat>
    var wallLast: Option<nat>
    var wallRemainder: nat
    var wallDivider: nat
    var uart: TpuUart.Uart

    constructor ()
      ensures Clock() == TpuClocks.Clock(None, None, 0, 0)
      ensures uart == TpuUart.Uart(false, None, 0, 0, false)
    {
      next, wallLast, wallRemainder, wallDivider := None, None, 0, 0;
      uart := TpuUart.Uart(false, None, 0, 0, false);
    }

    function Clock(): Clock
      reads this
    {
      TpuClocks.Clock(next, wallLast, wallRemainder, wallDivider)
    }

    method Rebase(captured: nat, now: nat)
      modifies this
      ensures Clock() == TpuClocks.Rebase(old(Clock()), captured, now)
      ensures uart == TpuUart.Rebase(old(uart), now)
    {
      if next.Some? {
        next := Some(SatAdd(now, Monus(next.value, captured)));
      }
      uart := uart.(last := now);
      wallLast := None;
      wallRemainder := 0;
    }

    method UartHostService(value: Byte)
      modifies this`uart
      ensures uart == TpuUart.HostService(old(uart), value)
    {
      uart := uart.(service := uart.service || value / 4 % 4 == 1);
    }

    method Advance(sim: array<Byte>, now: nat) returns (expired: nat)
      requires sim.Length == 0x1000
      modifies this, sim
      ensures TpuClocks.Polled(Clock(), sim[..], expired) == TpuClocks.Advance(old(Clock()), old(sim[..]), now)
      ensures uart == old(uart)
    {
      hide Decremented, Expired;
      if wallLast.Some? {
        wallLast := None;
        next := None;
        wallRemainder := 0;
      }
      if next.None? {
        next := Some(SatAdd(now, QUANTUM));
      }
      var at := next.value;
      if now < at {
        return 0;
      }
      var elapsed := (now - at) / QUANTUM + 1;
      next := Some(SatAdd(now, QUANTUM - (now - at) % QUANTUM));
      expired := Decrement(sim, elapsed);
    }

    method AdvanceWall(sim: array<Byte>, now: nat) returns (expired: nat)
      requires sim.Length == 0x1000
      modifies this, sim
      ensures TpuClocks.Polled(Clock(), sim[..], expired) == TpuClocks.AdvanceWall(old(Clock()), old(sim[..]), now)
      ensures uart == old(uart)
    {
      hide Decremented, Expired, Denominator, Divider;
      var divider := TpuClocks.Divider(sim[..]);
      var previous := wallLast;
      wallLast := Some(now);
      next := None;
      if previous.None? || now < previous.value || wallDivider != divider {
        wallDivider := divider;
        wallRemainder := 0;
        return 0;
      }
      if WordAt(sim, TPUMCR) >= 0x8000 {
        return 0;
      }
      var numerator := (now - previous.value) * SYSTEM_HZ + wallRemainder;
      var denominator := Denominator(divider);
      var elapsed := Quot(numerator, denominator);
      wallRemainder := Rem(numerator, denominator);
      expired := Decrement(sim, Min(elapsed, U64_MAX));
    }

    method AdvanceUart(sim: array<Byte>, now: nat, idle: bool) returns (fired: bool)
      requires sim.Length == 0x1000
      modifies this`uart, sim
      ensures TpuUart.Outcome(uart, sim[..], fired) == TpuUart.Poll(old(uart), old(sim[..]), now, idle)
    {
      hide Put, Or, Shr, TpuUart.Halves;
      ghost var s: Image := sim[..];
      var elapsed := Monus(now, uart.last);
      uart := uart.(last := now);
      if WordAt(sim, TPUMCR) >= 0x8000 {
        return false;
      }
      if Shr(WordAt(sim, 0xe10), 4) % 16 != 13 || Shr(WordAt(sim, 0xe1e), 10) % 4 == 0 {
        uart := uart.(remaining := None);
        return false;
      }
      if uart.service || (idle && !uart.idle) {
        ReloadUart(sim, idle);
      } else if idle && uart.remaining.Some? {
        var remaining := Monus(uart.remaining.value, elapsed);
        uart := uart.(remaining := Some(remaining));
        CountUart(sim, uart.halfPeriod, remaining);
        if remaining == 0 {
          uart := uart.(remaining := None);
          ExpireUart(sim);
          uart := uart.(idle := idle);
          return true;
        }
      }
      uart := uart.(idle := idle);
      fired := false;
    }

    // Take a fresh interval from the channel parameters.
    method ReloadUart(sim: array<Byte>, idle: bool)
      requires sim.Length == 0x1000
      modifies this`uart, sim
      ensures sim[..] == TpuUart.ReloadedImage(old(sim[..]), idle)
      ensures uart == old(uart).(service := false, remaining := Some(TpuUart.Interval(old(sim[..]))),
                                 halfPeriod := TpuUart.HalfPeriod(old(sim[..])))
    {
      ghost var s: Image := sim[..];
      var p0 := WordAt(sim, 0xf50);
      var p1 := WordAt(sim, 0xf52);
      assert p0 == Word(s, 0xf50) && p1 == Word(s, 0xf52);
      if p1 >= 0x8000 {
        var half := TpuUart.AtLeastOne(p1 % 0x8000);
        var count := TpuUart.AtLeastOne(p0);
        uart := uart.(halfPeriod := half, remaining := Some(count * 2 * half));
      } else {
        uart := uart.(halfPeriod := 0, remaining := Some(TpuUart.AtLeastOne(p0 as int * 0x1_0000 + p1 as int)));
      }
      uart := uart.(service := false);
      hide Put;
      PutAt(sim, 0xf54, if idle then 1 else 0);
      PutAt(sim, 0xf56, p0);
      PutAt(sim, 0xf58, if p1 >= 0x8000 then 0x8000 else 0);
    }
  }

  // Show what is left of the interval in the channel registers.
  method CountUart(sim: array<Byte>, half: nat, remaining: nat)
    requires sim.Length == 0x1000
    modifies sim
    ensures sim[..] == TpuUart.CountedImage(old(sim[..]), half, remaining)
  {
    hide Put;
    if half != 0 {
      var halves := (remaining + half - 1) / half;
      assert halves == TpuUart.Halves(remaining, half);
      hide TpuUart.Halves;
      PutAt(sim, 0xf58, if halves % 2 == 0 then 0x8000 else 0);
      PutAt(sim, 0xf56, (halves + 1) / 2 % 0x1_0000);
    } else {
      PutAt(sim, 0xf56, remaining / 0x1_0000 % 0x1_0000);
    }
  }

  method ExpireUart(sim: array<Byte>)
    requires sim.Length == 0x1000
    modifies sim
    ensures sim[..] == TpuUart.ExpiredImage(old(sim[..]))
  {
    hide Put, Or;
    PutAt(sim, 0xf54, 1);
    PutAt(sim, 0xf56, 0);
    PutAt(sim, 0xf58, 0x8000);
    OrIsWord(Word(sim[..], CISR), 0x20);
    WordReads(sim, CISR);
    PutAt(sim, CISR, Or(WordAt(sim, CISR), 0x20));
  }
}
