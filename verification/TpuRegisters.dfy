// The 4 KiB SIM/TPU register image and the countdown pass over it.
//
// `Decrement` is the in-place pass of the emulator. `Decremented` says what the
// pass leaves behind, register by register, and the lemmas below it prove that
// passes compose: counting a and then b ticks is counting a + b ticks.
module TpuRegisters {
  import opened Bits

  type Image = s: seq<Byte> | |s| == 0x1000 witness seq(0x1000, _ => 0)

  const TPUMCR := 0xe00
  const TICR := 0xe08
  const CIER := 0xe0a
  const CISR := 0xe20
  const CHANNELS := 0xf00

  function Word(s: Image, off: nat): Word16
    requires off + 1 < 0x1000
  {
    s[off] as int * 0x100 + s[off + 1] as int
  }

  function Put(s: Image, off: nat, value: Word16): Image
    requires off + 1 < 0x1000
  {
    s[off := value / 0x100][off + 1 := value % 0x100]
  }

  function WordAt(sim: array<Byte>, off: nat): Word16
    requires sim.Length == 0x1000 && off + 1 < 0x1000
    reads sim
  {
    sim[off] as int * 0x100 + sim[off + 1] as int
  }

  method PutAt(sim: array<Byte>, off: nat, value: Word16)
    requires sim.Length == 0x1000 && off + 1 < 0x1000
    modifies sim
    ensures sim[..] == Put(old(sim[..]), off, value)
  {
    sim[off] := value / 0x100;
    sim[off + 1] := value % 0x100;
  }

  // STOP halts the TPU.
  predicate Stopped(s: Image) { Word(s, TPUMCR) >= 0x8000 }

  function FunctionCode(s: Image, channel: nat): nat
    requires channel < 16
  {
    Shr(Word(s, 0xe12 - channel / 4 * 2), channel % 4 * 4) % 16
  }

  function Priority(s: Image, channel: nat): nat
    requires channel < 16
  {
    Shr(Word(s, if channel < 8 then 0xe1e else 0xe1c), channel % 8 * 2) % 4
  }

  function Sequence(s: Image, channel: nat): nat
    requires channel < 16
  {
    Shr(Word(s, if channel < 8 then 0xe16 else 0xe14), channel % 8 * 2) % 4
  }

  // Function 15 with a priority and host sequence bit 1 is a running countdown.
  predicate Counting(s: Image, channel: nat)
    requires channel < 16
  {
    FunctionCode(s, channel) == 15 && Priority(s, channel) != 0 && Sequence(s, channel) / 2 % 2 == 1
  }

  function Register(channel: nat, index: nat): nat
    requires channel < 16 && index < 8
  {
    CHANNELS + channel * 16 + index * 2
  }

  // Register `index` of `channel` reaches zero within `ticks`.
  predicate Hits(s: Image, ticks: nat, channel: nat, index: nat)
    requires channel < 16 && index < 8
  {
    0 < Word(s, Register(channel, index)) <= ticks
  }

  predicate Expires(s: Image, ticks: nat, channel: nat)
    requires channel < 16
  {
    Counting(s, channel) && exists index :: 1 <= index < 6 && Hits(s, ticks, channel, index)
  }

  // Host sequence bit 0 suppresses the channel interrupt status.
  predicate Raises(s: Image, ticks: nat, channel: nat)
    requires channel < 16
  {
    Expires(s, ticks, channel) && Sequence(s, channel) % 2 == 0
  }

  function ExpiredBits(s: Image, ticks: nat): (bits: seq<bool>)
    ensures |bits| == 16
  {
    seq(16, channel requires 0 <= channel < 16 => Expires(s, ticks, channel))
  }

  function RaisedBits(s: Image, ticks: nat): (bits: seq<bool>)
    ensures |bits| == 16
  {
    seq(16, channel requires 0 <= channel < 16 => Raises(s, ticks, channel))
  }

  function Expired(s: Image, ticks: nat): nat {
    if Stopped(s) then 0 else Gather(ExpiredBits(s, ticks))
  }

  // What one channel register holds `ticks` later: register 0 counts up and
  // wraps, registers 1 to 5 count down to zero, 6 and 7 are not touched.
  function RegisterAfter(s: Image, ticks: nat, channel: nat, index: nat): Word16
    requires channel < 16 && index < 8
  {
    var before := Word(s, Register(channel, index));
    if !Counting(s, channel) || index >= 6 then before
    else if index == 0 then (before + ticks) % 0x1_0000
    else Monus(before, ticks)
  }

  // The image once the first n of the 128 channel registers have been updated.
  function Sweep(s: Image, ticks: nat, n: nat): Image
    requires n <= 128
  {
    if n == 0 then s
    else Put(Sweep(s, ticks, n - 1), CHANNELS + 2 * (n - 1), RegisterAfter(s, ticks, (n - 1) / 8, (n - 1) % 8))
  }

  function Decremented(s: Image, ticks: nat): Image {
    if Stopped(s) then s
    else
      OrIsWordHere(s, ticks);
      Put(Sweep(s, ticks, 128), CISR, Or(Word(s, CISR), Gather(RaisedBits(s, ticks))))
  }

  lemma OrIsWordHere(s: Image, ticks: nat)
    ensures Or(Word(s, CISR), Gather(RaisedBits(s, ticks))) < 0x1_0000
  {
    GatherIsWord(RaisedBits(s, ticks));
    OrIsWord(Word(s, CISR), Gather(RaisedBits(s, ticks)));
  }

  // ---------- the pass itself ----------

  lemma {:induction false} SweepFrame(s: Image, ticks: nat, n: nat)
    requires n <= 128
    ensures forall o | 0 <= o < CHANNELS || CHANNELS + 2 * n <= o < 0x1000 :: Sweep(s, ticks, n)[o] == s[o]
  {
    if n > 0 { SweepFrame(s, ticks, n - 1); }
  }

  lemma {:induction false} SweepWord(s: Image, ticks: nat, n: nat, j: nat)
    requires j < n <= 128
    ensures Word(Sweep(s, ticks, n), CHANNELS + 2 * j) == RegisterAfter(s, ticks, j / 8, j % 8)
  {
    if j < n - 1 { SweepWord(s, ticks, n - 1, j); }
  }

  lemma SweepStep(s: Image, ticks: nat, channel: nat, index: nat)
    requires channel < 16 && index < 8
    ensures Sweep(s, ticks, channel * 8 + index + 1)
         == Put(Sweep(s, ticks, channel * 8 + index), Register(channel, index), RegisterAfter(s, ticks, channel, index))
  {
    var n := channel * 8 + index;
    assert n / 8 == channel && n % 8 == index;
  }

  lemma PutSame(t: Image, off: nat)
    requires off + 1 < 0x1000
    ensures Put(t, off, Word(t, off)) == t
  {
    assert Word(t, off) / 0x100 == t[off] && Word(t, off) % 0x100 == t[off + 1];
  }

  lemma SweepNotYet(s: Image, ticks: nat, channel: nat, index: nat)
    requires channel < 16 && index < 8
    ensures Word(Sweep(s, ticks, channel * 8 + index), Register(channel, index)) == Word(s, Register(channel, index))
  {
    SweepFrame(s, ticks, channel * 8 + index);
  }

  // A register that keeps its value needs no write.
  lemma SweepSame(s: Image, ticks: nat, channel: nat, index: nat)
    requires channel < 16 && index < 8
    requires RegisterAfter(s, ticks, channel, index) == Word(s, Register(channel, index))
    ensures Sweep(s, ticks, channel * 8 + index + 1) == Sweep(s, ticks, channel * 8 + index)
  {
    SweepStep(s, ticks, channel, index);
    SweepNotYet(s, ticks, channel, index);
    PutSame(Sweep(s, ticks, channel * 8 + index), Register(channel, index));
  }

  lemma {:induction false} SweepIdleChannel(s: Image, ticks: nat, channel: nat, index: nat)
    requires channel < 16 && index <= 8
    requires !Counting(s, channel)
    ensures Sweep(s, ticks, channel * 8 + index) == Sweep(s, ticks, channel * 8)
  {
    hide Counting, Put, Word, Sweep;
    if index > 0 {
      SweepIdleChannel(s, ticks, channel, index - 1);
      SweepSame(s, ticks, channel, index - 1);
    }
  }

  // Images that agree below the channel registers and on all 128 of them are equal.
  lemma SameImage(s: Image, t: Image)
    requires forall o | 0 <= o < CHANNELS :: s[o] == t[o]
    requires forall j | 0 <= j < 128 :: Word(s, CHANNELS + 2 * j) == Word(t, CHANNELS + 2 * j)
    ensures s == t
  {
    forall o | CHANNELS <= o < 0x1000
      ensures s[o] == t[o]
    {
      var j := (o - CHANNELS) / 2;
      assert Word(s, CHANNELS + 2 * j) == Word(t, CHANNELS + 2 * j);
      assert o == CHANNELS + 2 * j || o == CHANNELS + 2 * j + 1;
    }
    assert s == t;
  }

  // Configuration words lie below the channel registers, so a partial sweep
  // leaves every channel's configuration as it was.
  lemma ConfigurationKept(s: Image, t: Image, channel: nat)
    requires channel < 16
    requires forall o | TPUMCR <= o < CISR :: s[o] == t[o]
    ensures FunctionCode(s, channel) == FunctionCode(t, channel)
    ensures Priority(s, channel) == Priority(t, channel)
    ensures Sequence(s, channel) == Sequence(t, channel)
    ensures Counting(s, channel) == Counting(t, channel)
    ensures Stopped(s) == Stopped(t)
  {
    assert 0 <= channel / 4 <= 3;
  }

  // Marks of the channels below `channel`, with `hit` for `channel` itself.
  ghost function Marks(all: seq<bool>, channel: nat, hit: bool): (bits: seq<bool>)
    requires |all| == 16 && channel <= 16
    ensures |bits| == 16
  {
    seq(16, c requires 0 <= c < 16 => (c < channel && all[c]) || (c == channel && hit))
  }

  // `if mark { mask |= 1 << channel }` on a mask gathered so far.
  lemma MarkStep(all: seq<bool>, channel: nat, hit: bool, now: bool)
    requires |all| == 16 && channel < 16
    ensures Or(Gather(Marks(all, channel, hit)), if now then Pow2(channel) else 0)
         == Gather(Marks(all, channel, hit || now))
  {
    var m := Marks(all, channel, hit);
    if now {
      OrPow2(m, channel);
      assert m[channel := true] == Marks(all, channel, true);
    } else {
      OrZero(Gather(m));
    }
  }

  method Decrement(sim: array<Byte>, ticks: nat) returns (expired: nat)
    requires sim.Length == 0x1000
    modifies sim
    ensures sim[..] == Decremented(old(sim[..]), ticks)
    ensures expired == Expired(old(sim[..]), ticks)
  {
    hide ExpiredBits, RaisedBits, Put, Sweep, Gather, Or, Marks, Word, WordAt;
    ghost var s: Image := sim[..];
    WordReads(sim, TPUMCR);
    if WordAt(sim, TPUMCR) >= 0x8000 {
      return 0;
    }
    expired := 0;
    var cisrMask := 0;
    ghost var xs, rs := ExpiredBits(s, ticks), RaisedBits(s, ticks);
    NoMarks(xs);
    NoMarks(rs);
    assert sim[..] == Sweep(s, ticks, 0) by { SweepNothing(s, ticks); }
    for channel := 0 to 16
      invariant sim[..] == Sweep(s, ticks, channel * 8)
      invariant expired == Gather(Marks(xs, channel, false))
      invariant cisrMask == Gather(Marks(rs, channel, false))
    {
      expired, cisrMask := DecrementChannel(sim, ticks, channel, expired, cisrMask, s);
    }
    AllMarks(xs);
    AllMarks(rs);
    OrIsWordHere(s, ticks);
    SweepFrame(s, ticks, 128);
    WordReads(sim, CISR);
    SameStatus(s, sim[..]);
    PutAt(sim, CISR, Or(WordAt(sim, CISR), cisrMask));
  }

  lemma SameStatus(s: Image, t: Image)
    requires s[CISR] == t[CISR] && s[CISR + 1] == t[CISR + 1]
    ensures Word(s, CISR) == Word(t, CISR)
  {}

  lemma SweepNothing(s: Image, ticks: nat)
    ensures Sweep(s, ticks, 0) == s
  {}

  lemma AllMarks(all: seq<bool>)
    requires |all| == 16
    ensures Marks(all, 16, false) == all
  {}

  lemma NoMarks(all: seq<bool>)
    requires |all| == 16
    ensures Gather(Marks(all, 0, false)) == 0
  {
    GatherNothing(Marks(all, 0, false));
  }

  method ReadConfiguration(sim: array<Byte>, channel: nat) returns (counting: bool, sequence: nat)
    requires sim.Length == 0x1000 && channel < 16
    ensures counting == Counting(sim[..], channel) && sequence == Sequence(sim[..], channel)
  {
    var functionCode := Shr(WordAt(sim, 0xe12 - channel / 4 * 2), channel % 4 * 4) % 16;
    var priority := Shr(WordAt(sim, if channel < 8 then 0xe1e else 0xe1c), channel % 8 * 2) % 4;
    sequence := Shr(WordAt(sim, if channel < 8 then 0xe16 else 0xe14), channel % 8 * 2) % 4;
    counting := functionCode == 15 && priority != 0 && sequence / 2 % 2 == 1;
  }

  // One turn of the pass's channel loop.
  method DecrementChannel(sim: array<Byte>, ticks: nat, channel: nat, expiredIn: nat, cisrIn: nat, ghost s: Image)
    returns (expired: nat, cisrMask: nat)
    requires sim.Length == 0x1000 && channel < 16
    requires sim[..] == Sweep(s, ticks, channel * 8)
    requires expiredIn == Gather(Marks(ExpiredBits(s, ticks), channel, false))
    requires cisrIn == Gather(Marks(RaisedBits(s, ticks), channel, false))
    modifies sim
    ensures sim[..] == Sweep(s, ticks, channel * 8 + 8)
    ensures expired == Gather(Marks(ExpiredBits(s, ticks), channel + 1, false))
    ensures cisrMask == Gather(Marks(RaisedBits(s, ticks), channel + 1, false))
  {
    hide Counting, Sequence, Put, Marks, Gather, Sweep, Word;
    expired, cisrMask := expiredIn, cisrIn;
    ghost var xs, rs := ExpiredBits(s, ticks), RaisedBits(s, ticks);
    SweepFrame(s, ticks, channel * 8);
    ConfigurationKept(s, sim[..], channel);
    var counting, sequence := ReadConfiguration(sim, channel);
    if !counting {
      SweepIdleChannel(s, ticks, channel, 8);
      MarksNext(xs, channel, false);
      MarksNext(rs, channel, false);
      return;
    }
    var base := CHANNELS + channel * 16;
    SweepStep(s, ticks, channel, 0);
    SweepNotYet(s, ticks, channel, 0);
    WordReads(sim, base);
    CountUp(WordAt(sim, base), ticks);
    PutAt(sim, base, (WordAt(sim, base) + ticks % 0x1_0000) % 0x1_0000);
    ghost var hit := false;
    for index := 1 to 6
      invariant sim[..] == Sweep(s, ticks, channel * 8 + index)
      invariant hit <==> exists i :: 1 <= i < index && Hits(s, ticks, channel, i)
      invariant expired == Gather(Marks(xs, channel, hit))
      invariant cisrMask == Gather(Marks(rs, channel, hit && sequence % 2 == 0))
    {
      expired, cisrMask, hit := DecrementRegister(sim, ticks, channel, index, sequence, expired, cisrMask, s, hit);
    }
    SweepSame(s, ticks, channel, 6);
    SweepSame(s, ticks, channel, 7);
    MarksNext(xs, channel, hit);
    MarksNext(rs, channel, hit && sequence % 2 == 0);
  }

  lemma WordReads(sim: array<Byte>, off: nat)
    requires sim.Length == 0x1000 && off + 1 < 0x1000
    ensures WordAt(sim, off) == Word(sim[..], off)
  {}

  // Adding the low 16 bits of an elapsed count wraps as adding all of it.
  lemma CountUp(before: Word16, ticks: nat)
    ensures (before + ticks % 0x1_0000) % 0x1_0000 == (before + ticks) % 0x1_0000
  {}

  lemma MarksNext(all: seq<bool>, channel: nat, hit: bool)
    requires |all| == 16 && channel < 16
    requires hit == all[channel]
    ensures Gather(Marks(all, channel, hit)) == Gather(Marks(all, channel + 1, false))
  {
    assert Marks(all, channel, hit) == Marks(all, channel + 1, false);
  }

  // One turn of the pass's register loop.
  method DecrementRegister(sim: array<Byte>, ticks: nat, channel: nat, index: nat, sequence: nat,
                           expiredIn: nat, cisrIn: nat, ghost s: Image, ghost hitIn: bool)
    returns (expired: nat, cisrMask: nat, ghost hit: bool)
    requires sim.Length == 0x1000 && channel < 16 && 1 <= index < 6
    requires Counting(s, channel)
    requires sim[..] == Sweep(s, ticks, channel * 8 + index)
    requires expiredIn == Gather(Marks(ExpiredBits(s, ticks), channel, hitIn))
    requires cisrIn == Gather(Marks(RaisedBits(s, ticks), channel, hitIn && sequence % 2 == 0))
    modifies sim
    ensures sim[..] == Sweep(s, ticks, channel * 8 + index + 1)
    ensures hit == (hitIn || Hits(s, ticks, channel, index))
    ensures expired == Gather(Marks(ExpiredBits(s, ticks), channel, hit))
    ensures cisrMask == Gather(Marks(RaisedBits(s, ticks), channel, hit && sequence % 2 == 0))
  {
    hide Counting, Put, Marks, Gather, Sweep, ExpiredBits, RaisedBits;
    expired, cisrMask := expiredIn, cisrIn;
    var off := CHANNELS + channel * 16 + index * 2;
    SweepNotYet(s, ticks, channel, index);
    var before := WordAt(sim, off);
    assert before == Word(s, off);
    var after := Monus(before, ticks);
    ghost var now := before != 0 && after == 0;
    hit := hitIn || now;
    MarkStep(ExpiredBits(s, ticks), channel, hitIn, now);
    MarkStep(RaisedBits(s, ticks), channel, hitIn && sequence % 2 == 0, now && sequence % 2 == 0);
    OrZero(expired);
    OrZero(cisrMask);
    SweepStep(s, ticks, channel, index);
    if before != 0 {
      PutAt(sim, off, after);
      if after == 0 {
        expired := Or(expired, Pow2(channel));
        if sequence % 2 == 0 {
          cisrMask := Or(cisrMask, Pow2(channel));
        }
      }
    } else {
      SweepSame(s, ticks, channel, index);
    }
  }

  // ---------- passes compose ----------

  lemma WordOfPut(s: Image, off: nat, value: Word16)
    requires off + 1 < 0x1000
    ensures Word(Put(s, off, value), off) == value
  {}

  // Every register word after a pass.
  lemma WordAfter(s: Image, ticks: nat, channel: nat, index: nat)
    requires !Stopped(s)
    requires channel < 16 && index < 8
    ensures Word(Decremented(s, ticks), Register(channel, index)) == RegisterAfter(s, ticks, channel, index)
  {
    var n := channel * 8 + index;
    assert n / 8 == channel && n % 8 == index && Register(channel, index) == CHANNELS + 2 * n;
    OrIsWordHere(s, ticks);
    SweepWord(s, ticks, 128, n);
  }

  lemma PassKeepsConfiguration(s: Image, ticks: nat)
    ensures forall channel | 0 <= channel < 16 ::
      Counting(Decremented(s, ticks), channel) == Counting(s, channel)
      && Sequence(Decremented(s, ticks), channel) == Sequence(s, channel)
    ensures Stopped(Decremented(s, ticks)) == Stopped(s)
    ensures Word(Decremented(s, ticks), TPUMCR) == Word(s, TPUMCR)
  {
    OrIsWordHere(s, ticks);
    SweepFrame(s, ticks, 128);
    var t := Decremented(s, ticks);
    assert forall o | TPUMCR <= o < CISR :: s[o] == t[o];
    forall channel | 0 <= channel < 16
      ensures Counting(t, channel) == Counting(s, channel) && Sequence(t, channel) == Sequence(s, channel)
    {
      ConfigurationKept(s, t, channel);
    }
    ConfigurationKept(s, t, 0);
  }

  // Outside the channel registers a pass writes CISR and nothing else.
  lemma PassFrame(s: Image, ticks: nat)
    ensures forall o | 0 <= o < 0xf00 && o != 0xe20 && o != 0xe21 :: Decremented(s, ticks)[o] == s[o]
  {
    OrIsWordHere(s, ticks);
    SweepFrame(s, ticks, 128);
  }

  lemma RegistersCompose(s: Image, a: nat, b: nat, channel: nat, index: nat)
    requires !Stopped(s)
    requires channel < 16 && index < 8
    ensures RegisterAfter(Decremented(s, a), b, channel, index) == RegisterAfter(s, a + b, channel, index)
  {
    WordAfter(s, a, channel, index);
    PassKeepsConfiguration(s, a);
    CountsCompose(Word(s, Register(channel, index)), a, b);
    hide Counting, Decremented, Word, Register, Stopped, Monus;
  }

  lemma CountsCompose(before: Word16, a: nat, b: nat)
    ensures ((before + a) % 0x1_0000 + b) % 0x1_0000 == (before + (a + b)) % 0x1_0000
    ensures Monus(Monus(before, a), b) == Monus(before, a + b)
  {}

  lemma HitsCompose(s: Image, a: nat, b: nat, channel: nat)
    requires !Stopped(s)
    requires channel < 16
    ensures Expires(s, a + b, channel) <==> Expires(s, a, channel) || Expires(Decremented(s, a), b, channel)
    ensures Raises(s, a + b, channel) <==> Raises(s, a, channel) || Raises(Decremented(s, a), b, channel)
  {
    PassKeepsConfiguration(s, a);
    var t := Decremented(s, a);
    assert Counting(t, channel) == Counting(s, channel) && Sequence(t, channel) == Sequence(s, channel);
    if Counting(s, channel) {
      forall index | 1 <= index < 6
        ensures Hits(s, a + b, channel, index) <==> Hits(s, a, channel, index) || Hits(t, b, channel, index)
      {
        WordAfter(s, a, channel, index);
      }
      hide Counting, Decremented, Sequence, Hits;
      if Expires(s, a + b, channel) {
        var index :| 1 <= index < 6 && Hits(s, a + b, channel, index);
        assert Hits(s, a, channel, index) || Hits(t, b, channel, index);
      }
    }
  }

  lemma StatusComposes(s: Image, a: nat, b: nat)
    requires !Stopped(s)
    ensures Word(Decremented(Decremented(s, a), b), CISR) == Word(Decremented(s, a + b), CISR)
  {
    var t := Decremented(s, a);
    PassKeepsConfiguration(s, a);
    OrIsWordHere(s, a);
    OrIsWordHere(t, b);
    OrIsWordHere(s, a + b);
    WordOfPut(Sweep(s, a, 128), CISR, Or(Word(s, CISR), Gather(RaisedBits(s, a))));
    WordOfPut(Sweep(t, b, 128), CISR, Or(Word(t, CISR), Gather(RaisedBits(t, b))));
    WordOfPut(Sweep(s, a + b, 128), CISR, Or(Word(s, CISR), Gather(RaisedBits(s, a + b))));
    forall channel | 0 <= channel < 16
      ensures RaisedBits(s, a + b)[channel] <==> RaisedBits(s, a)[channel] || RaisedBits(t, b)[channel]
    {
      HitsCompose(s, a, b, channel);
    }
    OrGather(Word(s, CISR), RaisedBits(s, a), RaisedBits(t, b), RaisedBits(s, a + b));
  }

  // Counting a ticks and then b ticks is counting a + b ticks: same registers,
  // same CISR, and the same channels reported over the two passes.
  lemma PassesCompose(s: Image, a: nat, b: nat)
    ensures Decremented(Decremented(s, a), b) == Decremented(s, a + b)
    ensures Or(Expired(s, a), Expired(Decremented(s, a), b)) == Expired(s, a + b)
  {
    var t := Decremented(s, a);
    PassKeepsConfiguration(s, a);
    if Stopped(s) {
      OrZero(0);
    } else {
      ImagesCompose(s, a, b);
      ExpiryComposes(s, a, b);
    }
  }

  lemma ImagesCompose(s: Image, a: nat, b: nat)
    requires !Stopped(s)
    ensures Decremented(Decremented(s, a), b) == Decremented(s, a + b)
  {
    var t := Decremented(s, a);
    PassKeepsConfiguration(s, a);
    StatusComposes(s, a, b);
    var two, one := Decremented(t, b), Decremented(s, a + b);
    PassFrame(s, a);
    PassFrame(t, b);
    PassFrame(s, a + b);
    forall j | 0 <= j < 128
      ensures Word(two, CHANNELS + 2 * j) == Word(one, CHANNELS + 2 * j)
    {
      assert Register(j / 8, j % 8) == CHANNELS + 2 * j;
      WordAfter(t, b, j / 8, j % 8);
      WordAfter(s, a + b, j / 8, j % 8);
      RegistersCompose(s, a, b, j / 8, j % 8);
    }
    SameImage(two, one);
  }

  lemma ExpiryComposes(s: Image, a: nat, b: nat)
    requires !Stopped(s)
    ensures Or(Gather(ExpiredBits(s, a)), Gather(ExpiredBits(Decremented(s, a), b))) == Gather(ExpiredBits(s, a + b))
  {
    var p, q, r := ExpiredBits(s, a), ExpiredBits(Decremented(s, a), b), ExpiredBits(s, a + b);
    forall channel | 0 <= channel < 16
      ensures r[channel] <==> p[channel] || q[channel]
    {
      HitsCompose(s, a, b, channel);
    }
    OrGather(0, p, q, r);
    OrZero(Gather(p));
    OrZero(Gather(r));
  }

  lemma EmptyMasks(s: Image)
    ensures Gather(RaisedBits(s, 0)) == 0 && Gather(ExpiredBits(s, 0)) == 0
  {
    hide Counting, Sequence;
    GatherNothing(RaisedBits(s, 0));
    GatherNothing(ExpiredBits(s, 0));
  }

  lemma {:induction false} EmptySweep(s: Image, n: nat)
    requires n <= 128
    ensures Sweep(s, 0, n) == s
  {
    hide Counting, Shr;
    if n > 0 {
      EmptySweep(s, n - 1);
      var at := Register((n - 1) / 8, (n - 1) % 8);
      assert at == CHANNELS + 2 * (n - 1);
      assert RegisterAfter(s, 0, (n - 1) / 8, (n - 1) % 8) == Word(s, at);
      PutSame(s, at);
    }
  }

  // A pass of no ticks changes nothing and reports nothing.
  lemma EmptyPass(s: Image)
    ensures Decremented(s, 0) == s
    ensures Expired(s, 0) == 0
  {
    EmptyMasks(s);
    EmptySweep(s, 128);
    OrZero(Word(s, CISR));
    PutSame(s, CISR);
  }

  // ---------- interrupt arbitration ----------

  predicate Requests(s: Image, channel: nat)
    requires channel < 16
  {
    Bit(Word(s, 0xe0a), channel) && Bit(Word(s, 0xe20), channel) && Priority(s, channel) != 0
  }

  lemma LevelAndVector(s: Image)
    ensures Shr(Word(s, TICR), 8) % 8 == s[0xe08] % 8
    ensures Word(s, TICR) / 0x10 % 0x10 * 0x10 == s[0xe09] / 0x10 * 0x10
  {
    assert Pow2(8) == 0x100 by { assert Pow2(4) == 0x10; }
    hide Shr, Pow2;
    ShrDivides(Word(s, TICR), 8);
    BytesOfWord(s[0xe08], s[0xe09]);
  }

  lemma BytesOfWord(high: Byte, low: Byte)
    ensures (high as int * 0x100 + low as int) / 0x100 == high
    ensures (high as int * 0x100 + low as int) / 0x10 % 0x10 == low as int / 0x10
  {
    var w := high as int * 0x100 + low as int;
    assert w / 0x10 == high as int * 0x10 + low as int / 0x10;
  }

  // The pending level and vector: the lowest requesting channel wins.
  method Interrupt(sim: array<Byte>) returns (irq: Option<(nat, nat)>)
    requires sim.Length == 0x1000
    ensures var s: Image := sim[..];
      var level := s[0xe08] % 8;
      match irq
      case None => level == 0 || forall channel | 0 <= channel < 16 :: !Requests(s, channel)
      case Some((l, v)) =>
        && l == level > 0
        && exists channel :: (0 <= channel < 16 && Requests(s, channel)
                              && (forall lower | 0 <= lower < channel :: !Requests(s, lower))
                              && v == s[0xe09] / 0x10 * 0x10 + channel)
  {
    hide Shr, And, Bit;
    ghost var s: Image := sim[..];
    LevelAndVector(s);
    var pending := And(WordAt(sim, CIER), WordAt(sim, CISR));
    var level := Shr(WordAt(sim, TICR), 8) % 8;
    forall channel: nat | channel < 16
      ensures Bit(pending, channel) <==> Bit(Word(s, CIER), channel) && Bit(Word(s, CISR), channel)
    {
      AndBit(Word(s, CIER), Word(s, CISR), channel);
    }
    if pending == 0 || level == 0 {
      if pending == 0 {
        forall channel: nat | channel < 16 ensures !Bit(pending, channel) { ZeroHasNoBits(channel); }
      }
      return None;
    }
    for channel := 0 to 16
      invariant forall lower | 0 <= lower < channel :: !Requests(s, lower)
    {
      var priority := Shr(WordAt(sim, if channel < 8 then 0xe1e else 0xe1c), channel % 8 * 2) % 4;
      if Bit(pending, channel) && priority != 0 {
        assert Requests(s, channel);
        return Some((level, WordAt(sim, TICR) / 0x10 % 0x10 * 0x10 + channel));
      }
    }
    return None;
  }
}
