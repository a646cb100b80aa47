// The guest bus with its wide fast paths. ROM with its EPROM command decoder,
// RAM, and the research overlays on both are modelled; every other address
// belongs to a device that may answer reads from the whole history of accesses
// made to it.
module WideBus {
  import opened Bits

  type Address = x: int | 0 <= x < 0x1_0000_0000

  const FLASH_SIZE: nat := 0x4_0000
  const RAM_BASE: nat := 0x10_0000
  const RAM_SIZE: nat := 0x10_0000

  datatype Access = Read(address: nat) | Write(address: nat, value: Byte)

  // The boot block ends here; neither programs nor erases reach below it.
  const UPDATE_START: nat := 0x8018

  // The EPROM takes 16-bit commands; `pending` is the first lane of a word.
  datatype Eprom = Eprom(status: bool, eraseArmed: bool, programArmed: bool, pending: Option<(nat, Byte)>,
                         writes: nat, erases: nat)

  // `writable`: programs and erases change the ROM image.
  datatype State = State(flash: seq<Byte>, ram: seq<Byte>, research: bool, writable: bool, eprom: Eprom,
                         history: seq<Access>)
  {
    predicate Valid() {
      && |flash| == FLASH_SIZE && |ram| == RAM_SIZE
      && (eprom.pending.Some? ==> eprom.pending.value.0 < FLASH_SIZE && eprom.pending.value.0 % 2 == 0)
    }
  }

  // What a device answers depends on everything done to it so far.
  type Device = seq<Access> -> Byte

  function A24(address: Address): nat { address % 0x100_0000 }
  function Plus(address: Address, n: nat): Address { (address + n) % 0x1_0000_0000 }

  predicate InSwitches(a: nat) { 0x40_1000 <= a < 0x40_1800 }
  predicate InFlash(a: nat) { a < FLASH_SIZE }
  predicate InRam(a: nat) { RAM_BASE <= a < RAM_BASE + RAM_SIZE }

  // Research-only bytes laid over the ROM and its RAM copy.
  function Overlay(s: State, a: nat): Option<Byte> {
    if !s.research then None
    else if a == 0x1_6ED2 || a == 0x10_EEBA then Some(0x4E)
    else if a == 0x1_6ED3 || a == 0x10_EEBB then Some(0x71)
    else if a == 0x1_6EEE || a == 0x10_EED6 then Some(0x4E)
    else if a == 0x1_6EEF || a == 0x10_EED7 then Some(0x71)
    else if a == 0x5FFC then Some(0x01)
    else None
  }

  function FlashByte(s: State, a: nat): Byte
    requires s.Valid() && InFlash(a)
  {
    if s.eprom.status && (a < 2 || a == 0x8000 || a == 0x8001) then 0x80 else s.flash[a]
  }

  function RamByte(s: State, a: nat): Byte
    requires s.Valid() && InRam(a)
  {
    var off := a - RAM_BASE;
    if s.research && (off == 0x127F || off == 0x1281) then
      if s.ram[off] == 0 && s.ram[off - 1] == 0 then 8 else s.ram[off]
    else s.ram[off]
  }

  // ---------- the EPROM ----------

  function ErasedBlock(flash: seq<Byte>, address: nat): seq<Byte>
    requires |flash| == FLASH_SIZE && InFlash(address)
  {
    var block := address / 0x1_0000 * 0x1_0000;
    var start := if block < UPDATE_START then UPDATE_START else block;
    var end := block + 0x1_0000;
    flash[..start] + seq(end - start, _ => 0xff) + flash[end..]
  }

  function EpromWord(s: State, address: nat, high: Byte, low: Byte): (t: State)
    requires s.Valid() && InFlash(address) && address % 2 == 0
    ensures t.Valid()
  {
    var e, word := s.eprom, high as int * 0x100 + low as int;
    if e.programArmed then
      var t := s.(eprom := e.(programArmed := false, status := true, writes := e.writes + 2));
      if address >= UPDATE_START && s.writable then t.(flash := s.flash[address := high][address + 1 := low]) else t
    else if word == 0x5050 || word == 0xffff then s.(eprom := e.(status := false))
    else if word == 0x2020 then s.(eprom := e.(eraseArmed := true))
    else if word == 0xd0d0 && e.eraseArmed then
      var t := s.(eprom := e.(eraseArmed := false, status := true, erases := e.erases + 1));
      if s.writable then t.(flash := ErasedBlock(s.flash, address)) else t
    else if word == 0x4040 || word == 0x1010 then s.(eprom := e.(programArmed := true))
    else if word == 0x7070 then s.(eprom := e.(status := true))
    else s
  }

  // A lane with no lane before it.
  function EpromLane(s: State, address: nat, value: Byte): (t: State)
    requires s.Valid() && InFlash(address)
    ensures t.Valid()
  {
    if address % 2 == 0 then s.(eprom := s.eprom.(pending := Some((address, value))))
    else EpromWord(s, address - 1, value, value)
  }

  function EpromByte(s: State, address: nat, value: Byte): (t: State)
    requires s.Valid() && InFlash(address)
    ensures t.Valid()
  {
    if s.eprom.pending.None? then EpromLane(s, address, value)
    else
      var (first, high) := s.eprom.pending.value;
      var t := s.(eprom := s.eprom.(pending := None));
      if first + 1 == address then EpromWord(t, first, high, value)
      else EpromLane(EpromWord(t, first, high, high), address, value)
  }

  // ---------- the byte bus ----------

  function ReadByteSpec(s: State, device: Device, address: Address): (State, Byte)
    requires s.Valid()
  {
    var a := A24(address);
    if InSwitches(a) then (s, 0xff)
    else if Overlay(s, a).Some? then (s, Overlay(s, a).value)
    else if InFlash(a) then (s, FlashByte(s, a))
    else if InRam(a) then (s, RamByte(s, a))
    else
      var t := s.(history := s.history + [Read(a)]);
      (t, device(t.history))
  }

  function WriteByteSpec(s: State, address: Address, value: Byte): (t: State)
    requires s.Valid()
    ensures t.Valid()
  {
    var a := A24(address);
    if InRam(a) then s.(ram := s.ram[a - RAM_BASE := value])
    else if InFlash(a) then if 2 <= a < 0x8000 then s else EpromByte(s, a, value)
    else s.(history := s.history + [Write(a, value)])
  }

  // Wide accesses as byte accesses, high byte first.
  function ReadWordSpec(s: State, device: Device, address: Address): (State, nat)
    requires s.Valid()
  {
    if InSwitches(A24(address)) then (s, 0)
    else
      var (t, high) := ReadByteSpec(s, device, address);
      var (u, low) := ReadByteSpec(t, device, Plus(address, 1));
      (u, high as int * 0x100 + low as int)
  }

  function ReadLongSpec(s: State, device: Device, address: Address): (State, nat)
    requires s.Valid()
  {
    var (t, high) := ReadWordSpec(s, device, address);
    var (u, low) := ReadWordSpec(t, device, Plus(address, 2));
    (u, high * 0x1_0000 + low)
  }

  function WriteWordSpec(s: State, address: Address, value: Word16): (t: State)
    requires s.Valid()
    ensures t.Valid()
  {
    var a := A24(address);
    if InSwitches(a) then
      if a % 2 == 0 then s.(history := s.history + [Write(a, value % 0x100)]) else s
    else WriteByteSpec(WriteByteSpec(s, address, value / 0x100), Plus(address, 1), value % 0x100)
  }

  function WriteLongSpec(s: State, address: Address, value: nat): (t: State)
    requires s.Valid() && value < 0x1_0000_0000
    ensures t.Valid()
  {
    WriteWordSpec(WriteWordSpec(s, address, value / 0x1_0000), Plus(address, 2), value % 0x1_0000)
  }

  // ---------- the byte bus in literals ----------

  // Every byte address selects, by its low 24 bits, the switches, the ROM, RAM or a
  // device; only a device sees the read.
  lemma ByteReadInLiterals(s: State, device: Device, address: Address)
    requires s.Valid()
    ensures var a := address % 0x100_0000; var (t, v) := ReadByteSpec(s, device, address);
      && (0x40_1000 <= a < 0x40_1800 ==> t == s && v == 0xff)
      && (a < 0x4_0000 ==> t == s && (!s.research && !s.eprom.status ==> v == s.flash[a]))
      && (0x10_0000 <= a < 0x20_0000 ==> t == s && (!s.research ==> v == s.ram[a - 0x10_0000]))
      && (0x4_0000 <= a < 0x10_0000 || 0x20_0000 <= a < 0x40_1000 || 0x40_1800 <= a ==>
            t == s.(history := s.history + [Read(a)]) && v == device(t.history))
  {}

  lemma ByteWriteInLiterals(s: State, address: Address, value: Byte)
    requires s.Valid()
    ensures var a := address % 0x100_0000; var t := WriteByteSpec(s, address, value);
      && (0x10_0000 <= a < 0x20_0000 ==> t == s.(ram := s.ram[a - 0x10_0000 := value]))
      && (2 <= a < 0x8000 ==> t == s)
      && (a < 2 || 0x8000 <= a < 0x4_0000 ==> t == EpromByte(s, a, value))
      && (0x4_0000 <= a < 0x10_0000 || 0x20_0000 <= a ==> t == s.(history := s.history + [Write(a, value)]))
  {
    hide EpromByte;
  }

  // Wide accesses are the byte accesses in ascending 32-bit addresses, high byte
  // first, except that a word of the switches reads as zero.
  lemma WideInBytes(s: State, device: Device, address: Address)
    requires s.Valid() && !(0x40_1000 <= address % 0x100_0000 < 0x40_1800)
    ensures var (t, b0) := ReadByteSpec(s, device, address);
      var (u, b1) := ReadByteSpec(t, device, (address + 1) % 0x1_0000_0000);
      ReadWordSpec(s, device, address) == (u, b0 as int * 256 + b1 as int)
    ensures forall value: Word16 ::
      WriteWordSpec(s, address, value)
        == WriteByteSpec(WriteByteSpec(s, address, value / 256), (address + 1) % 0x1_0000_0000, value % 256)
  {
    hide ReadByteSpec, WriteByteSpec;
  }

  // ---------- the fast read ----------

  predicate PlainFlash(s: State, a: nat, end: nat) {
    && end <= FLASH_SIZE
    && !(s.eprom.status && (a < 2 || (a < 0x8002 && end > 0x8000)))
    && !(s.research && ((a <= 0x5FFC && end > 0x5FFC) || (a < 0x1_6EF0 && end > 0x1_6ED2)))
  }

  predicate PlainRam(s: State, a: nat, end: nat) {
    && RAM_BASE <= a && end <= RAM_BASE + RAM_SIZE
    && !(s.research && ((a < 0x10_1282 && end > 0x10_127F) || (a < 0x10_EED8 && end > 0x10_EEBA)))
  }

  // n bytes at once when none of them is overlaid and all lie in one memory.
  function PlainRead(s: State, address: Address, n: nat): Option<seq<Byte>>
    requires s.Valid()
  {
    var a := A24(address);
    if PlainFlash(s, a, a + n) then Some(s.flash[a..a + n])
    else if PlainRam(s, a, a + n) then Some(s.ram[a - RAM_BASE..a + n - RAM_BASE])
    else None
  }

  // Within the 24-bit space the address arithmetic does not wrap.
  lemma AddressStep(address: Address, k: nat)
    requires A24(address) + k < 0x100_0000
    ensures A24(Plus(address, k)) == A24(address) + k
  {}

  lemma PlainFlashByte(s: State, device: Device, address: Address, a: nat, n: nat)
    requires s.Valid() && PlainFlash(s, a, a + n) && a <= A24(address) < a + n
    ensures ReadByteSpec(s, device, address) == (s, s.flash[A24(address)])
  {
    hide A24, RamByte;
  }

  lemma PlainRamByte(s: State, device: Device, address: Address, a: nat, n: nat)
    requires s.Valid() && PlainRam(s, a, a + n) && a <= A24(address) < a + n
    ensures ReadByteSpec(s, device, address) == (s, s.ram[A24(address) - RAM_BASE])
  {
    hide A24, FlashByte;
  }

  // Whenever the fast read answers, byte reads give those bytes and change nothing.
  lemma PlainReadAgrees(s: State, device: Device, address: Address, n: nat, k: nat)
    requires s.Valid() && k < n && PlainRead(s, address, n).Some?
    ensures |PlainRead(s, address, n).value| == n
    ensures ReadByteSpec(s, device, Plus(address, k)) == (s, PlainRead(s, address, n).value[k])
  {
    hide ReadByteSpec, A24, Plus;
    var a := A24(address);
    if PlainFlash(s, a, a + n) {
      AddressStep(address, k);
      PlainFlashByte(s, device, Plus(address, k), a, n);
    } else {
      AddressStep(address, k);
      PlainRamByte(s, device, Plus(address, k), a, n);
    }
    hide PlainFlash, PlainRam;
  }

  lemma PlainWord(s: State, device: Device, address: Address)
    requires s.Valid() && PlainRead(s, address, 2).Some?
    ensures var b := PlainRead(s, address, 2).value;
      |b| == 2 && ReadWordSpec(s, device, address) == (s, b[0] as int * 0x100 + b[1] as int)
  {
    PlainReadAgrees(s, device, address, 2, 0);
    PlainReadAgrees(s, device, address, 2, 1);
  }

  lemma SliceHalves(bytes: seq<Byte>, o: nat)
    requires o + 4 <= |bytes|
    ensures bytes[o..o + 4][..2] == bytes[o..o + 2] && bytes[o..o + 4][2..] == bytes[o + 2..o + 4]
  {}

  lemma PlainHalves(s: State, address: Address)
    requires s.Valid() && PlainRead(s, address, 4).Some?
    ensures |PlainRead(s, address, 4).value| == 4
    ensures PlainRead(s, address, 2) == Some(PlainRead(s, address, 4).value[..2])
    ensures PlainRead(s, Plus(address, 2), 2) == Some(PlainRead(s, address, 4).value[2..])
  {
    var a := A24(address);
    if PlainFlash(s, a, a + 4) {
      SliceHalves(s.flash, a);
      assert PlainFlash(s, a, a + 2) && PlainFlash(s, a + 2, a + 4);
    } else {
      SliceHalves(s.ram, a - RAM_BASE);
      assert PlainRam(s, a, a + 2) && PlainRam(s, a + 2, a + 4);
      assert !PlainFlash(s, a, a + 2) && !PlainFlash(s, a + 2, a + 4);
    }
    assert A24(Plus(address, 2)) == a + 2;
    hide PlainFlash, PlainRam, A24;
  }

  lemma PlainLong(s: State, device: Device, address: Address)
    requires s.Valid() && PlainRead(s, address, 4).Some?
    ensures var b := PlainRead(s, address, 4).value;
      |b| == 4 && ReadLongSpec(s, device, address)
        == (s, b[0] as int * 0x100_0000 + b[1] as int * 0x1_0000 + b[2] as int * 0x100 + b[3] as int)
  {
    PlainHalves(s, address);
    PlainWord(s, device, address);
    PlainWord(s, device, Plus(address, 2));
    hide PlainRead, ReadWordSpec;
    var b := PlainRead(s, address, 4).value;
    assert b[..2][0] == b[0] && b[..2][1] == b[1] && b[2..][0] == b[2] && b[2..][1] == b[3];
  }

  // ---------- fast RAM stores ----------

  lemma RamWord(s: State, address: Address, value: Word16)
    requires s.Valid() && RAM_BASE <= A24(address) <= RAM_BASE + RAM_SIZE - 2
    ensures var o := A24(address) - RAM_BASE;
      WriteWordSpec(s, address, value) == s.(ram := s.ram[o := value / 0x100][o + 1 := value % 0x100])
  {
    assert A24(Plus(address, 1)) == A24(address) + 1;
  }

  lemma RamLong(s: State, address: Address, value: nat)
    requires s.Valid() && value < 0x1_0000_0000 && RAM_BASE <= A24(address) <= RAM_BASE + RAM_SIZE - 4
    ensures var o := A24(address) - RAM_BASE;
      WriteLongSpec(s, address, value) == s.(ram := s.ram[o := value / 0x100_0000][o + 1 := value / 0x1_0000 % 0x100]
                                                        [o + 2 := value / 0x100 % 0x100][o + 3 := value % 0x100])
  {
    hide WriteWordSpec, A24, Plus;
    var high, low := value / 0x1_0000, value % 0x1_0000;
    LongHalves(value);
    AddressStep(address, 2);
    RamWord(s, address, high);
    RamWord(WriteWordSpec(s, address, high), Plus(address, 2), low);
  }

  lemma LongHalves(value: nat)
    requires value < 0x1_0000_0000
    ensures var high, low := value / 0x1_0000, value % 0x1_0000;
      && high / 0x100 == value / 0x100_0000 && high % 0x100 == value / 0x1_0000 % 0x100
      && low / 0x100 == value / 0x100 % 0x100 && low % 0x100 == value % 0x100
  {}

  // A byte v stored at a RAM address behind a byte `before` that the research
  // overlays show as something else.
  predicate Disguised(s: State, a: nat, v: Byte, before: Byte) {
    s.research &&
    if Overlay(s, a).Some? then v != Overlay(s, a).value
    else (a == RAM_BASE + 0x127F || a == RAM_BASE + 0x1281) && v == 0 && before == 0
  }

  // The byte before an address; the overlays never ask for the one before RAM.
  function Before(s: State, a: nat): Byte
    requires s.Valid() && InRam(a)
  {
    if a == RAM_BASE then 0 else s.ram[a - RAM_BASE - 1]
  }

  // What a byte read of RAM answers.
  function Seen(s: State, a: nat): Byte
    requires s.Valid() && InRam(a)
  {
    if Overlay(s, a).Some? then Overlay(s, a).value else RamByte(s, a)
  }

  lemma SeenIsStored(s: State, a: nat)
    requires s.Valid() && InRam(a)
    ensures Seen(s, a) == s.ram[a - RAM_BASE] <==> !Disguised(s, a, s.ram[a - RAM_BASE], Before(s, a))
  {}

  lemma RamWordSeen(s: State, device: Device, address: Address)
    requires s.Valid() && RAM_BASE <= A24(address) <= RAM_BASE + RAM_SIZE - 2
    ensures var a := A24(address);
      ReadWordSpec(s, device, address) == (s, Seen(s, a) as int * 0x100 + Seen(s, a + 1) as int)
  {
    assert A24(Plus(address, 1)) == A24(address) + 1;
    hide Overlay, RamByte, FlashByte;
  }

  // Before the store: one of the bytes of the value would be disguised where it
  // is to go.
  predicate LongDisguised(s: State, a: nat, value: nat)
    requires s.Valid() && RAM_BASE <= a <= RAM_BASE + RAM_SIZE - 4 && value < 0x1_0000_0000
  {
    var b0, b1, b2, b3 := value / 0x100_0000, value / 0x1_0000 % 0x100, value / 0x100 % 0x100, value % 0x100;
    Disguised(s, a, b0, Before(s, a)) || Disguised(s, a + 1, b1, b0) || Disguised(s, a + 2, b2, b1)
    || Disguised(s, a + 3, b3, b2)
  }

  lemma LongSeen(s: State, device: Device, address: Address)
    requires s.Valid() && RAM_BASE <= A24(address) <= RAM_BASE + RAM_SIZE - 4
    ensures var a := A24(address);
      ReadLongSpec(s, device, address)
      == (s, (Seen(s, a) * 0x100 + Seen(s, a + 1)) * 0x1_0000 + (Seen(s, a + 2) * 0x100 + Seen(s, a + 3)))
  {
    assert A24(Plus(address, 2)) == A24(address) + 2;
    RamWordSeen(s, device, address);
    RamWordSeen(s, device, Plus(address, 2));
    hide ReadWordSpec, Seen, A24, Plus;
  }

  lemma LongStored(s: State, address: Address, value: nat)
    requires s.Valid() && value < 0x1_0000_0000
    requires RAM_BASE <= A24(address) <= RAM_BASE + RAM_SIZE - 4
    ensures var t, a := WriteLongSpec(s, address, value), A24(address);
      var o := a - RAM_BASE;
      && t.research == s.research && Before(t, a) == Before(s, a)
      && t.ram[o] == Before(t, a + 1) == value / 0x100_0000
      && t.ram[o + 1] == Before(t, a + 2) == value / 0x1_0000 % 0x100
      && t.ram[o + 2] == Before(t, a + 3) == value / 0x100 % 0x100 && t.ram[o + 3] == value % 0x100
  {
    RamLong(s, address, value);
    hide WriteLongSpec, A24;
  }

  lemma DisguisedByMode(s: State, t: State, a: nat, v: Byte, before: Byte)
    requires t.research == s.research
    ensures Disguised(s, a, v, before) == Disguised(t, a, v, before)
  {}

  lemma RamLongReadsBack(s: State, device: Device, address: Address, value: nat)
    requires s.Valid() && value < 0x1_0000_0000
    requires RAM_BASE <= A24(address) <= RAM_BASE + RAM_SIZE - 4
    ensures var t := WriteLongSpec(s, address, value);
      && ReadLongSpec(t, device, address).0 == t
      && (ReadLongSpec(t, device, address).1 == value <==> !LongDisguised(s, A24(address), value))
  {
    hide WriteLongSpec, ReadLongSpec, A24, Seen, Disguised, Before;
    var t, a := WriteLongSpec(s, address, value), A24(address);
    var b0, b1, b2, b3 := value / 0x100_0000, value / 0x1_0000 % 0x100, value / 0x100 % 0x100, value % 0x100;
    LongStored(s, address, value);
    LongSeen(t, device, address);
    SeenIsStored(t, a);
    SeenIsStored(t, a + 1);
    SeenIsStored(t, a + 2);
    SeenIsStored(t, a + 3);
    DisguisedByMode(s, t, a, b0, Before(s, a));
    DisguisedByMode(s, t, a + 1, b1, b0);
    DisguisedByMode(s, t, a + 2, b2, b1);
    DisguisedByMode(s, t, a + 3, b3, b2);
    FourBytes(Seen(t, a), Seen(t, a + 1), Seen(t, a + 2), Seen(t, a + 3), value);
  }

  // A long stored in RAM reads back, whatever the address arithmetic wraps,
  // exactly when no research overlay would show one of its bytes as another.
  lemma LongReadsBack(s: State, device: Device, address: Address, value: nat)
    requires s.Valid() && value < 0x1_0000_0000
    requires 0x10_0000 <= address % 0x100_0000 <= 0x1f_fffc
    ensures var t := WriteLongSpec(s, address, value);
      && ReadLongSpec(t, device, address).0 == t
      && (ReadLongSpec(t, device, address).1 == value <==> !LongDisguised(s, address % 0x100_0000, value))
  {
    assert A24(address) == address % 0x100_0000;
    RamLongReadsBack(s, device, address, value);
    hide WriteLongSpec, ReadLongSpec, LongDisguised;
  }

  // A zero long stored over an overlaid pair of bytes reads back as the overlay.
  lemma OverlaidLongDiffers(s: State, device: Device)
    requires s.Valid() && s.research
    ensures ReadLongSpec(WriteLongSpec(s, 0x10_EEB8, 0), device, 0x10_EEB8).1 == 0x4E71
  {
    hide WriteLongSpec, ReadLongSpec, Before, FlashByte;
    assert A24(0x10_EEB8) == 0x10_EEB8;
    LongStored(s, 0x10_EEB8, 0);
    LongSeen(WriteLongSpec(s, 0x10_EEB8, 0), device, 0x10_EEB8);
  }

  // Four bytes make a long exactly when they are its bytes.
  lemma FourBytes(b0: Byte, b1: Byte, b2: Byte, b3: Byte, value: nat)
    requires value < 0x1_0000_0000
    ensures (b0 * 0x100 + b1) * 0x1_0000 + (b2 * 0x100 + b3) == value
       <==>
         && b0 == value / 0x100_0000 && b1 == value / 0x1_0000 % 0x100
         && b2 == value / 0x100 % 0x100 && b3 == value % 0x100
  {
    BytesJoin(value);
  }

  lemma BytesJoin(value: nat)
    ensures value == value / 0x100_0000 * 0x100_0000 + value / 0x1_0000 % 0x100 * 0x1_0000
                   + value / 0x100 % 0x100 * 0x100 + value % 0x100
  {
    assert value / 0x100_0000 == value / 0x1_0000 / 0x100;
    assert value / 0x1_0000 == value / 0x100 / 0x100;
  }

  // ---------- what stores can do to the ROM ----------

  // No store changes the boot block, and none changes the ROM at all unless it
  // is writable.
  ghost predicate BootKept(s: State, t: State) {
    && |t.flash| == |s.flash| == 0x4_0000 && t.writable == s.writable
    && (forall k | 0 <= k < 0x8018 :: t.flash[k] == s.flash[k])
    && (!s.writable ==> t.flash == s.flash)
  }

  lemma EpromWordKeepsBoot(s: State, address: nat, high: Byte, low: Byte)
    requires s.Valid() && InFlash(address) && address % 2 == 0
    ensures BootKept(s, EpromWord(s, address, high, low))
  {}

  lemma EpromByteKeepsBoot(s: State, address: nat, value: Byte)
    requires s.Valid() && InFlash(address)
    ensures BootKept(s, EpromByte(s, address, value))
  {
    var t := s.(eprom := s.eprom.(pending := None));
    if s.eprom.pending.Some? {
      var (first, high) := s.eprom.pending.value;
      EpromWordKeepsBoot(t, first, high, value);
      EpromWordKeepsBoot(t, first, high, high);
      if address % 2 == 1 { EpromWordKeepsBoot(EpromWord(t, first, high, high), address - 1, value, value); }
    } else if address % 2 == 1 {
      EpromWordKeepsBoot(s, address - 1, value, value);
    }
    hide EpromWord;
  }

  datatype Store = Store(address: Address, value: Byte)

  function Stored(s: State, stores: seq<Store>): (t: State)
    requires s.Valid()
    ensures t.Valid()
    decreases |stores|
  {
    if stores == [] then s else Stored(WriteByteSpec(s, stores[0].address, stores[0].value), stores[1..])
  }

  // Whatever bytes are stored, aligned or not and in any order.
  lemma {:induction false} StoresKeepBoot(s: State, stores: seq<Store>)
    requires s.Valid()
    ensures BootKept(s, Stored(s, stores))
    decreases |stores|
  {
    hide EpromByte;
    if stores != [] {
      var t := WriteByteSpec(s, stores[0].address, stores[0].value);
      if InFlash(A24(stores[0].address)) {
        EpromByteKeepsBoot(s, A24(stores[0].address), stores[0].value);
      }
      hide WriteByteSpec;
      StoresKeepBoot(t, stores[1..]);
    }
  }

  // An aligned word store to the command range, with no lane left over, is one
  // word of the decoder.
  lemma AlignedStoreIsCommand(s: State, address: Address, value: Word16)
    requires s.Valid() && s.eprom.pending.None?
    requires InFlash(A24(address)) && A24(address) % 2 == 0 && !(2 <= A24(address) < 0x8000)
    ensures WriteWordSpec(s, address, value) == EpromWord(s, A24(address), value / 0x100, value % 0x100)
  {
    var a := A24(address);
    assert A24(Plus(address, 1)) == a + 1;
    hide EpromWord;
    var half := WriteByteSpec(s, address, value / 0x100);
    assert half == s.(eprom := s.eprom.(pending := Some((a, value / 0x100))));
    assert s.(eprom := s.eprom.(pending := None)) == s;
  }

  function Armed(s: State): State { s.(eprom := s.eprom.(programArmed := true)) }

  function Programmed(s: State, a: nat, value: Word16): State
    requires s.Valid() && InFlash(a) && a % 2 == 0
  {
    s.(flash := s.flash[a := value / 0x100][a + 1 := value % 0x100],
       eprom := s.eprom.(status := true, writes := s.eprom.writes + 2))
  }

  lemma CommandStoreArms(s: State, address: Address, alternate: bool)
    requires s.Valid() && s.eprom.pending.None? && !s.eprom.programArmed
    requires InFlash(A24(address)) && A24(address) % 2 == 0 && UPDATE_START <= A24(address)
    ensures WriteWordSpec(s, address, if alternate then 0x1010 else 0x4040) == Armed(s)
  {
    hide WriteWordSpec, EpromWord, A24;
    AlignedStoreIsCommand(s, address, if alternate then 0x1010 else 0x4040);
    ProgramArms(s, A24(address), alternate);
  }

  lemma DataStorePrograms(s: State, address: Address, value: Word16)
    requires s.Valid() && s.writable && s.eprom.pending.None? && !s.eprom.programArmed
    requires InFlash(A24(address)) && A24(address) % 2 == 0 && UPDATE_START <= A24(address)
    ensures WriteWordSpec(Armed(s), address, value) == Programmed(s, A24(address), value)
  {
    hide WriteWordSpec, EpromWord, A24;
    AlignedStoreIsCommand(Armed(s), address, value);
    ArmedTakesWord(s, A24(address), value / 0x100, value % 0x100);
  }

  // A program command at an address, and then a word at it.
  function CommandAndData(s: State, address: Address, value: Word16, alternate: bool): State
    requires s.Valid()
  {
    WriteWordSpec(WriteWordSpec(s, address, if alternate then 0x1010 else 0x4040), address, value)
  }

  lemma CommandPrograms(s: State, address: Address, value: Word16, alternate: bool)
    requires s.Valid() && s.writable && s.eprom.pending.None? && !s.eprom.programArmed
    requires InFlash(A24(address)) && A24(address) % 2 == 0 && UPDATE_START <= A24(address)
    ensures CommandAndData(s, address, value, alternate) == Programmed(s, A24(address), value)
  {
    hide WriteWordSpec, Programmed, Armed, A24;
    CommandStoreArms(s, address, alternate);
    DataStorePrograms(s, address, value);
  }

  // A program command and a word of any value, itself command-shaped or not,
  // leave exactly that word in a writable ROM.
  lemma ProgramStoresWord(s: State, address: Address, value: Word16, alternate: bool)
    requires s.Valid() && s.writable && s.eprom.pending.None? && !s.eprom.programArmed
    requires 0x8018 <= address % 0x100_0000 < 0x4_0000 && address % 0x100_0000 % 2 == 0
    ensures CommandAndData(s, address, value, alternate) == Programmed(s, address % 0x100_0000, value)
  {
    hide A24, Plus, CommandAndData, Programmed;
    EvenAddress(address);
    CommandPrograms(s, address, value, alternate);
  }

  lemma EvenAddress(address: Address)
    ensures A24(address) == address % 0x100_0000
  {}

  lemma ProgramArms(s: State, address: nat, alternate: bool)
    requires s.Valid() && InFlash(address) && address % 2 == 0 && !s.eprom.programArmed
    ensures var command := if alternate then 0x10 else 0x40;
      EpromWord(s, address, command, command) == Armed(s)
  {}

  lemma ArmedTakesWord(s: State, address: nat, high: Byte, low: Byte)
    requires s.Valid() && InFlash(address) && address % 2 == 0 && !s.eprom.programArmed
    requires s.writable && UPDATE_START <= address
    ensures EpromWord(Armed(s), address, high, low)
         == s.(flash := s.flash[address := high][address + 1 := low],
               eprom := s.eprom.(status := true, writes := s.eprom.writes + 2))
  {}

  // ---------- the bus object ----------

  class Tech2Bus {
    const flash: array<Byte>
    const ram: array<Byte>
    const research: bool
    const writable: bool
    const device: Device
    var cfiStatus: bool
    var eraseArmed: bool
    var programArmed: bool
    var pendingByte: Option<(nat, Byte)>
    var epromWrites: nat
    var epromErases: nat
    var history: seq<Access>

    // A bus with an image shorter than the ROM padded with 0xff, and zeroed RAM.
    constructor (image: seq<Byte>, research: bool, writable: bool, device: Device)
      ensures Valid() && fresh(flash) && fresh(ram) && this.device == device
      ensures View() == State(seq(FLASH_SIZE, i requires 0 <= i < FLASH_SIZE => if i < |image| then image[i] else 0xff),
                              seq(RAM_SIZE, _ => 0), research, writable, Eprom(false, false, false, None, 0, 0), [])
    {
      flash := new Byte[FLASH_SIZE](i => if 0 <= i < |image| then image[i] else 0xff);
      ram := new Byte[RAM_SIZE](_ => 0);
      this.research, this.writable, this.device := research, writable, device;
      cfiStatus, eraseArmed, programArmed, pendingByte := false, false, false, None;
      epromWrites, epromErases := 0, 0;
      history := [];
    }

    predicate Valid()
      reads this
    {
      && flash.Length == FLASH_SIZE && ram.Length == RAM_SIZE && flash != ram
      && (pendingByte.Some? ==> pendingByte.value.0 < FLASH_SIZE && pendingByte.value.0 % 2 == 0)
    }

    function View(): (s: State)
      requires Valid()
      reads this, flash, ram
      ensures s.Valid()
    {
      State(flash[..], ram[..], research, writable,
            Eprom(cfiStatus, eraseArmed, programArmed, pendingByte, epromWrites, epromErases), history)
    }

    method WriteEpromWord(address: nat, high: Byte, low: Byte)
      requires Valid() && InFlash(address) && address % 2 == 0
      modifies this, flash
      ensures Valid() && View() == EpromWord(old(View()), address, high, low)
    {
      if programArmed {
        ProgramWord(address, high, low);
        return;
      }
      hide ErasedBlock;
      var word := high as int * 0x100 + low as int;
      if word == 0x5050 || word == 0xffff {
        cfiStatus := false;
      } else if word == 0x2020 {
        eraseArmed := true;
      } else if word == 0xd0d0 && eraseArmed {
        eraseArmed := false;
        cfiStatus := true;
        epromErases := epromErases + 1;
        if writable {
          EraseBlock(address);
        }
      } else if word == 0x4040 || word == 0x1010 {
        programArmed := true;
      } else if word == 0x7070 {
        cfiStatus := true;
      }
    }

    // The word after a program command.
    method ProgramWord(address: nat, high: Byte, low: Byte)
      requires Valid() && InFlash(address) && address % 2 == 0 && programArmed
      modifies this, flash
      ensures Valid() && View() == EpromWord(old(View()), address, high, low)
    {
      hide ErasedBlock;
      programArmed := false;
      cfiStatus := true;
      epromWrites := epromWrites + 2;
      if address >= UPDATE_START && writable {
        flash[address] := high;
        flash[address + 1] := low;
      }
    }

    method EraseBlock(address: nat)
      requires Valid() && InFlash(address)
      modifies flash
      ensures flash[..] == ErasedBlock(old(flash[..]), address)
    {
      var block := address / 0x1_0000 * 0x1_0000;
      var start := if block < UPDATE_START then UPDATE_START else block;
      for i := start to block + 0x1_0000
        invariant forall k | 0 <= k < flash.Length :: flash[k] == if start <= k < i then 0xff else old(flash[k])
      {
        flash[i] := 0xff;
      }
    }

    // One lane of an EPROM word.
    method WriteEpromByte(address: nat, value: Byte)
      requires Valid() && InFlash(address)
      modifies this, flash
      ensures Valid() && View() == EpromByte(old(View()), address, value)
    {
      hide EpromWord;
      if pendingByte.Some? {
        var (first, high) := pendingByte.value;
        pendingByte := None;
        if first + 1 == address {
          WriteEpromWord(first, high, value);
          return;
        }
        WriteEpromWord(first, high, high);
      }
      if address % 2 == 0 {
        pendingByte := Some((address, value));
      } else {
        WriteEpromWord(address - 1, value, value);
      }
    }

    method ReadByte(address: Address) returns (value: Byte)
      requires Valid()
      modifies this`history
      ensures Valid()
      ensures (View(), value) == ReadByteSpec(old(View()), device, address)
    {
      var a := A24(address);
      if InSwitches(a) {
        return 0xff;
      }
      if research {
        if a == 0x1_6ED2 || a == 0x10_EEBA {
          return 0x4E;
        }
        if a == 0x1_6ED3 || a == 0x10_EEBB {
          return 0x71;
        }
        if a == 0x1_6EEE || a == 0x10_EED6 {
          return 0x4E;
        }
        if a == 0x1_6EEF || a == 0x10_EED7 {
          return 0x71;
        }
        if a == 0x5FFC {
          return 0x01;
        }
      }
      if a < FLASH_SIZE {
        if cfiStatus && (a < 2 || a == 0x8000 || a == 0x8001) {
          return 0x80;
        }
        return flash[a];
      }
      if InRam(a) {
        var off := a - RAM_BASE;
        if research && (off == 0x127F || off == 0x1281) {
          var v := ram[off];
          return if v == 0 && ram[off - 1] == 0 then 8 else v;
        }
        return ram[off];
      }
      history := history + [Read(a)];
      value := device(history);
    }

    method WriteByte(address: Address, value: Byte)
      requires Valid()
      modifies this, flash, ram
      ensures Valid()
      ensures View() == WriteByteSpec(old(View()), address, value)
    {
      hide EpromByte;
      var a := A24(address);
      if InFlash(a) {
        if !(2 <= a < 0x8000) {
          WriteEpromByte(a, value);
        }
        return;
      }
      if InRam(a) {
        ram[a - RAM_BASE] := value;
        return;
      }
      history := history + [Write(a, value)];
    }

    // n plain bytes in one decode, or nothing; never a device access.
    method LoadTestPlainRead(address: Address, n: nat) returns (bytes: Option<seq<Byte>>)
      requires Valid()
      ensures bytes == PlainRead(View(), address, n)
    {
      var a := A24(address);
      var end := a + n;
      if end <= FLASH_SIZE {
        if cfiStatus && (a < 2 || (a < 0x8002 && end > 0x8000)) {
          return None;
        }
        if research && ((a <= 0x5FFC && end > 0x5FFC) || (a < 0x1_6EF0 && end > 0x1_6ED2)) {
          return None;
        }
        return Some(flash[a..end]);
      }
      if a >= RAM_BASE && end <= RAM_BASE + RAM_SIZE {
        if research && ((a < 0x10_1282 && end > 0x10_127F) || (a < 0x10_EED8 && end > 0x10_EEBA)) {
          return None;
        }
        return Some(ram[a - RAM_BASE..end - RAM_BASE]);
      }
      return None;
    }

    method ReadWord(address: Address) returns (value: nat)
      requires Valid()
      modifies this`history
      ensures Valid()
      ensures (View(), value) == ReadWordSpec(old(View()), device, address)
    {
      hide ReadByteSpec, PlainRead;
      if InSwitches(A24(address)) {
        return 0;
      }
      var bytes := LoadTestPlainRead(address, 2);
      if bytes.Some? {
        PlainWord(View(), device, address);
        return bytes.value[0] as int * 0x100 + bytes.value[1] as int;
      }
      var high := ReadByte(address);
      var low := ReadByte(Plus(address, 1));
      value := high as int * 0x100 + low as int;
    }

    method ReadLong(address: Address) returns (value: nat)
      requires Valid()
      modifies this`history
      ensures Valid()
      ensures (View(), value) == ReadLongSpec(old(View()), device, address)
    {
      hide ReadWordSpec, PlainRead;
      var bytes := LoadTestPlainRead(address, 4);
      if bytes.Some? {
        PlainLong(View(), device, address);
        var b := bytes.value;
        return b[0] as int * 0x100_0000 + b[1] as int * 0x1_0000 + b[2] as int * 0x100 + b[3] as int;
      }
      var high := ReadWord(address);
      var low := ReadWord(Plus(address, 2));
      value := high * 0x1_0000 + low;
    }

    method WriteWord(address: Address, value: Word16)
      requires Valid()
      modifies this, flash, ram
      ensures Valid()
      ensures View() == WriteWordSpec(old(View()), address, value)
    {
      var a := A24(address);
      if InSwitches(a) {
        if a % 2 == 0 {
          history := history + [Write(a, value % 0x100)];
        }
        return;
      }
      if RAM_BASE <= a <= RAM_BASE + RAM_SIZE - 2 {
        RamWord(View(), address, value);
        ram[a - RAM_BASE] := value / 0x100;
        ram[a - RAM_BASE + 1] := value % 0x100;
        return;
      }
      hide WriteByteSpec;
      WriteByte(address, value / 0x100);
      WriteByte(Plus(address, 1), value % 0x100);
    }

    method WriteLong(address: Address, value: nat)
      requires Valid() && value < 0x1_0000_0000
      modifies this, flash, ram
      ensures Valid()
      ensures View() == WriteLongSpec(old(View()), address, value)
    {
      var a := A24(address);
      hide WriteWordSpec;
      if RAM_BASE <= a <= RAM_BASE + RAM_SIZE - 4 {
        RamLong(View(), address, value);
        ram[a - RAM_BASE] := value / 0x100_0000;
        ram[a - RAM_BASE + 1] := value / 0x1_0000 % 0x100;
        ram[a - RAM_BASE + 2] := value / 0x100 % 0x100;
        ram[a - RAM_BASE + 3] := value % 0x100;
        return;
      }
      WriteWord(address, value / 0x1_0000);
      WriteWord(Plus(address, 2), value % 0x1_0000);
    }
  }
}
