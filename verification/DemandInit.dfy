// Deferred CANdi start: at the first communication entry the guest CPU is
// borrowed to run the firmware's own wait, mark and loader routines, and then
// handed back. Guest execution between the borrowed calls is arbitrary.
module DemandInit {
  import opened Bits

  const INIT_ENTRY: nat := 0x1ee5a6
  const REQUEST_ENTRY: nat := 0x1dbb96
  const WAIT_ROUTINE: nat := 0x126f6
  const MARK_ROUTINE: nat := 0x1d68c6
  const LOADER_ROUTINE: nat := 0x1d8f46
  const ASSERTION_HALT: nat := 0x1_0cbe
  const ASSERTION_HALT_COPY: nat := 0x11_0cbe
  const FLAGS: nat := 0x1fbc10
  const FLASH_SIZE: nat := 0x4_0000
  const TIMEOUT_MS: nat := 60_000

  type U32 = x: int | 0 <= x < 0x1_0000_0000

  // Data registers, then address registers; the last is the stack pointer.
  type Registers = s: seq<U32> | |s| == 16 witness seq(16, _ => 0)

  datatype Cpu = Cpu(registers: Registers, sr: nat, pc: U32)
  {
    function Sp(): U32 { registers[15] }
  }

  type Memory = map<nat, Byte>

  // `saved` is the CPU at the entry; its pc is where the borrowed calls return.
  datatype Init = Init(saved: Cpu, inventory: bool, markAttempt: bool, marked: bool)

  datatype State = State(cpu: Cpu, mem: Memory, pending: bool, bootComplete: bool, init: Option<Init>, failed: bool)

  datatype Routine = Wait | Mark | Loader

  // What happened, in order.
  datatype Entry =
    | Started(cpu: Cpu) | Called(routine: Routine) | Restored(cpu: Cpu) | Failed | Ran(pc: U32, sp: U32)

  // What the world decides at one step: host time since the start, whether the
  // firmware signatures match (of its assertion halt, of the entries and of the
  // routines), whether the secondary CPU starts, and what the
  // guest instruction does if one runs.
  datatype World = World(
    elapsedMs: nat, assertionSignature: bool, initSignature: bool, requestSignature: bool, loaderSupported: bool,
        helpersSupported: bool,
    startOk: bool, cpu: Cpu, mem: Memory, keepsPending: bool, bootComplete: bool, guestFails: bool)

  function ByteAt(mem: Memory, a: nat): Byte { if a in mem then mem[a] else 0 }
  function WordAt(mem: Memory, a: nat): nat { ByteAt(mem, a) as int * 0x100 + ByteAt(mem, a + 1) as int }
  function LongAt(mem: Memory, a: nat): nat { WordAt(mem, a) * 0x1_0000 + WordAt(mem, a + 2) }

  // A store; ROM does not take it.
  function PutByte(mem: Memory, a: nat, value: Byte): Memory {
    if a < FLASH_SIZE then mem else mem[a := value]
  }
  function PutWord(mem: Memory, a: nat, value: nat): Memory {
    PutByte(PutByte(mem, a, value / 0x100 % 0x100), a + 1, value % 0x100)
  }
  function PutLong(mem: Memory, a: nat, value: nat): Memory {
    PutWord(PutWord(mem, a, value / 0x1_0000), a + 2, value % 0x1_0000)
  }

  // The eight bytes below the stack pointer lie in ROM, RAM or external RAM.
  predicate StackBacked(sp: nat) {
    sp >= 8 && (sp <= FLASH_SIZE || 0x10_0008 <= sp <= 0x20_0000 || 0x30_1008 <= sp <= 0x40_0000)
  }

  function RoutineOf(i: Init): Routine { if i.markAttempt then Mark else if i.inventory then Loader else Wait }

  function EntryPoint(r: Routine): U32 {
    match r
    case Wait => WAIT_ROUTINE
    case Mark => MARK_ROUTINE
    case Loader => LOADER_ROUTINE
  }

  // Bytes of frame below the saved stack pointer, and what the routine pops on
  // return: its return address, and for the marking routine its argument.
  function FrameSize(r: Routine): nat {
    match r
    case Wait => 8
    case Mark => 6
    case Loader => 4
  }
  function Popped(r: Routine): nat { if r == Mark then 6 else 4 }

  function ReturnSp(i: Init): int { i.saved.Sp() - (if i.inventory then 0 else 4) }

  // The frame of a call: argument, then return address.
  function WithFrame(mem: Memory, sp: nat, r: Routine, resume: nat): Memory
    requires sp >= 8
  {
    match r
    case Mark => PutLong(PutWord(mem, sp - 2, 8), sp - 6, resume)
    case Loader => PutLong(mem, sp - 4, resume)
    case Wait => PutLong(PutLong(mem, sp - 4, 1), sp - 8, resume)
  }

  predicate IsEntry(pc: nat) { pc == INIT_ENTRY || pc == REQUEST_ENTRY }

  predicate GoodInit(i: Init) {
    StackBacked(i.saved.Sp()) && IsEntry(i.saved.pc) && (i.markAttempt ==> i.inventory && !i.marked)
  }

  predicate Good(s: State) { s.init.Some? ==> GoodInit(s.init.value) }

  // ---------- one step ----------

  function Attempt(mem: Memory, i: Init): Init {
    var inventory := WordAt(mem, FLAGS) / 2 % 2 == 1;
    i.(inventory := inventory, markAttempt := inventory && !i.marked)
  }

  // Borrow the CPU for the next routine.
  function Borrow(s: State, i: Init): State
    requires StackBacked(i.saved.Sp())
  {
    var j := Attempt(s.mem, i);
    var sp, routine := i.saved.Sp(), RoutineOf(j);
    s.(init := Some(j), mem := WithFrame(s.mem, sp, routine, i.saved.pc),
       cpu := s.cpu.(registers := s.cpu.registers[15 := sp - FrameSize(routine)], pc := EntryPoint(routine)))
  }

  predicate LoaderSucceeded(mem: Memory, result: nat) {
    WordAt(mem, FLAGS) / 0x1000 != 0 && (result % 0x100 == 0 || result % 0x100 == 2)
  }

  predicate Triggers(s: State, w: World) {
    (s.cpu.pc == INIT_ENTRY && w.initSignature) || (s.cpu.pc == REQUEST_ENTRY && w.requestSignature)
  }

  // The guest has run into its own assertion.
  predicate Asserted(s: State, w: World) {
    (s.cpu.pc == ASSERTION_HALT || s.cpu.pc == ASSERTION_HALT_COPY) && w.assertionSignature
  }

  // A borrowed routine has come back.
  function Returned(s: State, i: Init): (State, seq<Entry>)
    requires GoodInit(i)
  {
    var t := s.(cpu := s.cpu.(sr := i.saved.sr, registers := i.saved.registers), init := None);
    if i.markAttempt then
      var u := Borrow(t, i.(marked := true));
      (u, [Called(RoutineOf(u.init.value))])
    else if i.inventory then
      if LoaderSucceeded(s.mem, s.cpu.registers[0]) then (t, [Restored(t.cpu)])
      else (t.(failed := true), [Failed])
    else
      var u := Borrow(t, i);
      (u, [Called(RoutineOf(u.init.value))])
  }

  // The first communication entry.
  function Start(s: State, w: World): (State, seq<Entry>) {
    if !w.loaderSupported || !w.helpersSupported || !StackBacked(s.cpu.Sp()) then (s.(failed := true), [Failed])
    else if !w.startOk then (s.(pending := false, failed := true), [Failed])
    else
      var u := Borrow(s.(pending := false), Init(s.cpu, false, false, false));
      (u, [Started(s.cpu), Called(RoutineOf(u.init.value))])
  }

  function Dependency(s: State, w: World): (r: (State, seq<Entry>))
    requires Good(s)
    ensures Good(r.0)
  {
    if s.init.Some? then
      var i := s.init.value;
      if w.elapsedMs > TIMEOUT_MS then (s.(init := None, failed := true), [Failed])
      else if s.cpu.pc == i.saved.pc && s.cpu.Sp() == ReturnSp(i) then Returned(s, i)
      else (s, [])
    else if s.pending && s.bootComplete && Triggers(s, w) then Start(s, w)
    else (s, [])
  }

  // The guest runs one instruction, which may do anything but start over.
  function GuestRuns(s: State, w: World): (State, seq<Entry>) {
    (s.(cpu := w.cpu, mem := w.mem, pending := s.pending && w.keepsPending,
        bootComplete := s.bootComplete || w.bootComplete, failed := w.guestFails),
     if w.guestFails then [Ran(s.cpu.pc, s.cpu.Sp()), Failed] else [Ran(s.cpu.pc, s.cpu.Sp())])
  }

  function Stepped(s: State, w: World): (r: (State, seq<Entry>))
    requires Good(s)
    ensures Good(r.0)
  {
    if s.failed then (s, [])
    else if Asserted(s, w) then (s.(failed := true), [Failed])
    else
      var (t, entries) := Dependency(s, w);
      if t.failed then (t, entries)
      else
        var (u, more) := GuestRuns(t, w);
        (u, entries + more)
  }

  // ---------- the machine object ----------

  class Guest {
    var cpu: Cpu
    var mem: Memory
    var pending: bool
    var bootComplete: bool
    var init: Option<Init>
    var failed: bool

    ghost var log: seq<Entry>

    // A machine whose secondary CPU has not been started.
    constructor (cpu: Cpu, mem: Memory)
      ensures Valid() && log == []
      ensures View() == State(cpu, mem, true, false, None, false)
    {
      this.cpu, this.mem := cpu, mem;
      pending, bootComplete, init, failed := true, false, None, false;
      log := [];
    }

    function View(): State
      reads this
    {
      State(cpu, mem, pending, bootComplete, init, failed)
    }

    ghost predicate Valid()
      reads this
    {
      Consistent(View(), log)
    }

    // Point the CPU at the next routine, with a frame that returns to the entry.
    method Call(saved: Init)
      requires StackBacked(saved.saved.Sp())
      modifies this`cpu, this`mem, this`init
      ensures View() == Borrow(old(View()), saved)
    {
      hide WordAt, PutLong, PutWord;
      var sp := saved.saved.Sp();
      var inventory := WordAt(mem, FLAGS) / 2 % 2 == 1;
      var markAttempt := inventory && !saved.marked;
      var callSp := if markAttempt then sp - 6 else if inventory then sp - 4 else sp - 8;
      if markAttempt {
        mem := PutWord(mem, sp - 2, 8);
      }
      if !inventory {
        mem := PutLong(mem, sp - 4, 1);
      }
      mem := PutLong(mem, callSp, saved.saved.pc);
      cpu := cpu.(registers := cpu.registers[15 := callSp]);
      cpu := cpu.(pc := if markAttempt then MARK_ROUTINE else if inventory then LOADER_ROUTINE else WAIT_ROUTINE);
      init := Some(saved.(inventory := inventory, markAttempt := markAttempt));
    }

    method GuestDependency(w: World)
      requires Good(View())
      modifies this
      ensures (View(), log) == (Dependency(old(View()), w).0, old(log) + Dependency(old(View()), w).1)
    {
      hide WordAt, WithFrame, PutLong, PutWord;
      if init.Some? {
        var i := init.value;
        init := None;
        if w.elapsedMs > TIMEOUT_MS {
          failed := true;
          log := log + [Failed];
          return;
        }
        if cpu.pc == i.saved.pc && cpu.Sp() == ReturnSp(i) {
          FinishCall(i);
          return;
        }
        init := Some(i);
        assert log + [] == log;
        return;
      }
      if !pending || !bootComplete || !Triggers(View(), w) {
        assert log + [] == log;
        return;
      }
      if !w.loaderSupported || !w.helpersSupported || !StackBacked(cpu.Sp()) {
        failed := true;
        log := log + [Failed];
        return;
      }
      pending := false;
      if !w.startOk {
        failed := true;
        log := log + [Failed];
        return;
      }
      ghost var before := log;
      log := log + [Started(cpu)];
      Call(Init(cpu, false, false, false));
      ghost var called := Called(RoutineOf(init.value));
      log := log + [called];
      assert log == before + [Started(old(cpu)), called];
    }

    // The outstanding call has returned.
    method FinishCall(i: Init)
      requires GoodInit(i) && init.None?
      modifies this
      ensures (View(), log) == (Returned(old(View()), i).0, old(log) + Returned(old(View()), i).1)
    {
      hide WordAt, WithFrame, PutLong, PutWord;
      var result := cpu.registers[0];
      cpu := cpu.(sr := i.saved.sr);
      cpu := cpu.(registers := i.saved.registers);
      if i.markAttempt {
        Call(i.(marked := true));
        log := log + [Called(RoutineOf(init.value))];
        return;
      }
      if i.inventory {
        if !LoaderSucceeded(mem, result) {
          failed := true;
          log := log + [Failed];
        } else {
          log := log + [Restored(cpu)];
        }
        return;
      }
      Call(i);
      log := log + [Called(RoutineOf(init.value))];
    }

    // One emulator step; nothing runs once a failure is recorded.
    method StepGuest(w: World) returns (ran: bool)
      requires Valid()
      modifies this
      ensures Valid()
      ensures (View(), log) == (Stepped(old(View()), w).0, old(log) + Stepped(old(View()), w).1)
      ensures ran ==> !old(failed)
    {
      hide Consistent, Dependency, GuestRuns;
      ghost var before, entries := View(), log;
      StepConsistent(before, entries, w);
      ConsistentIsGood(before, entries);
      if failed {
        assert log + [] == log;
        return false;
      }
      if Asserted(View(), w) {
        failed := true;
        log := log + [Failed];
        return false;
      }
      GuestDependency(w);
      if failed {
        return false;
      }
      ghost var more := GuestRuns(View(), w).1;
      assert entries + (Dependency(before, w).1 + more) == entries + Dependency(before, w).1 + more;
      GuestInstruction(w);
      return true;
    }

    // One guest instruction, which does what the world says.
    method GuestInstruction(w: World)
      modifies this
      ensures (View(), log) == (GuestRuns(old(View()), w).0, old(log) + GuestRuns(old(View()), w).1)
    {
      log := log + (if w.guestFails then [Ran(cpu.pc, cpu.Sp()), Failed] else [Ran(cpu.pc, cpu.Sp())]);
      cpu, mem := w.cpu, w.mem;
      pending := pending && w.keepsPending;
      bootComplete := bootComplete || w.bootComplete;
      failed := w.guestFails;
    }
  }

  // ---------- frames ----------

  lemma PutLongReads(mem: Memory, a: nat, value: nat)
    requires value < 0x1_0000_0000
    ensures a >= FLASH_SIZE ==> LongAt(PutLong(mem, a, value), a) == value
    ensures forall x: nat | !(a <= x < a + 4) :: ByteAt(PutLong(mem, a, value), x) == ByteAt(mem, x)
  {
    var high, low := value / 0x1_0000, value % 0x1_0000;
    assert high / 0x100 % 0x100 * 0x100 + high % 0x100 == high;
    assert low / 0x100 % 0x100 * 0x100 + low % 0x100 == low;
  }

  lemma PutWordReads(mem: Memory, a: nat, value: nat)
    requires value < 0x1_0000
    ensures a >= FLASH_SIZE ==> WordAt(PutWord(mem, a, value), a) == value
    ensures forall x: nat | !(a <= x < a + 2) :: ByteAt(PutWord(mem, a, value), x) == ByteAt(mem, x)
  {
    assert value / 0x100 % 0x100 * 0x100 + value % 0x100 == value;
  }

  ghost predicate SameOutside(m: Memory, n: Memory, sp: nat) {
    forall x: nat | !(sp - 8 <= x < sp) :: ByteAt(m, x) == ByteAt(n, x)
  }

  // What a frame holds, from the callee's stack pointer up.
  predicate FrameHolds(mem: Memory, sp: nat, r: Routine, resume: nat)
    requires sp >= 8
  {
    && LongAt(mem, sp - FrameSize(r)) == resume
    && (r == Wait ==> LongAt(mem, sp - 4) == 1)
    && (r == Mark ==> WordAt(mem, sp - 2) == 8)
  }

  lemma FrameReads(mem: Memory, sp: nat, r: Routine, resume: U32)
    requires StackBacked(sp)
    ensures SameOutside(WithFrame(mem, sp, r, resume), mem, sp)
    ensures sp > FLASH_SIZE ==> FrameHolds(WithFrame(mem, sp, r, resume), sp, r, resume)
  {
    hide PutLong, PutWord;
    match r {
      case Wait =>
        PutLongReads(mem, sp - 4, 1);
        PutLongReads(PutLong(mem, sp - 4, 1), sp - 8, resume);
      case Mark =>
        PutWordReads(mem, sp - 2, 8);
        PutLongReads(PutWord(mem, sp - 2, 8), sp - 6, resume);
      case Loader =>
        PutLongReads(mem, sp - 4, resume);
    }
  }

  // Borrowing writes only the eight bytes below the saved stack pointer; on a
  // stack that takes stores it leaves the return address where the callee's
  // stack pointer is and the argument above it; and what the callee pops brings
  // the stack pointer to where the return is recognised.
  lemma BorrowFrame(s: State, i: Init)
    requires StackBacked(i.saved.Sp())
    ensures var t := Borrow(s, i); var sp := i.saved.Sp(); var routine := RoutineOf(t.init.value);
      && SameOutside(t.mem, s.mem, sp)
      && (sp > FLASH_SIZE ==> FrameHolds(t.mem, sp, routine, i.saved.pc))
      && t.cpu.Sp() == sp - FrameSize(routine)
      && t.cpu.Sp() + Popped(routine) == ReturnSp(t.init.value)
  {
    hide WithFrame, FrameHolds, SameOutside;
    FrameReads(s.mem, i.saved.Sp(), RoutineOf(Attempt(s.mem, i)), i.saved.pc);
  }

  // Whatever the dependency check does, memory outside the eight bytes below
  // the stack pointer it saved at the entry is untouched, and it writes nothing
  // at all unless it starts a call.
  lemma DependencyFrame(s: State, w: World)
    requires Good(s)
    ensures var t := Dependency(s, w).0;
      t.mem == s.mem || (t.init.Some? && SameOutside(t.mem, s.mem, t.init.value.saved.Sp()))
  {
    hide WithFrame, SameOutside, FrameHolds, Triggers, WordAt, StackBacked;
    if s.init.Some? {
      var i := s.init.value;
      var t := s.(cpu := s.cpu.(sr := i.saved.sr, registers := i.saved.registers), init := None);
      BorrowFrame(t, if i.markAttempt then i.(marked := true) else i);
    } else if StackBacked(s.cpu.Sp()) {
      BorrowFrame(s.(pending := false), Init(s.cpu, false, false, false));
    }
  }

  // While the outcome is open, the instruction at the entry does not run from
  // the stack where the outstanding routine returns: neither the one that
  // triggered the start nor a return from a borrowed routine slips through.
  lemma EntryWaits(s: State, w: World, pc: U32, sp: U32)
    requires Good(s)
    ensures var (t, entries) := Stepped(s, w);
      t.init.Some? && Ran(pc, sp) in entries ==> !(pc == t.init.value.saved.pc && sp == ReturnSp(t.init.value))
  {
    hide WithFrame, Triggers, WordAt, StackBacked, LoaderSucceeded;
    var (t, entries) := Dependency(s, w);
    assert forall r: Routine :: !IsEntry(EntryPoint(r));
  }

  // From any other stack pointer it does run, and the call stays outstanding.
  lemma EntryRunsElsewhere(s: State, w: World)
    requires Good(s) && s.init.Some? && !s.failed && Calm(s, w) && s.cpu.pc == s.init.value.saved.pc
    ensures var (t, entries) := Stepped(s, w);
      && entries != [] && (entries[0] == Ran(s.cpu.pc, s.cpu.Sp()) <==> s.cpu.Sp() != ReturnSp(s.init.value))
      && (s.cpu.Sp() != ReturnSp(s.init.value) ==> t.init == s.init)
  {
    hide WithFrame, Triggers, WordAt, StackBacked, LoaderSucceeded;
  }

  // ---------- one step in literals ----------

  predicate HoldsByte(mem: Memory, a: nat, value: int) { a in mem && mem[a] == value }

  predicate HoldsLong(mem: Memory, a: nat, value: U32) {
    && HoldsByte(mem, a, value / 0x100_0000) && HoldsByte(mem, a + 1, value / 0x1_0000 % 0x100)
    && HoldsByte(mem, a + 2, value / 0x100 % 0x100) && HoldsByte(mem, a + 3, value % 0x100)
  }

  predicate SameByte(m: Memory, n: Memory, a: nat) { (a in m <==> a in n) && (a in m ==> m[a] == n[a]) }

  lemma PutWordBytes(mem: Memory, a: nat, value: nat)
    requires value < 0x1_0000
    ensures a >= 0x4_0000 ==>
      HoldsByte(PutWord(mem, a, value), a, value / 0x100) && HoldsByte(PutWord(mem, a, value), a + 1, value % 0x100)
    ensures forall x: nat | !(a <= x < a + 2) :: SameByte(PutWord(mem, a, value), mem, x)
  {}

  lemma BytesOfLong(value: U32)
    ensures value / 0x1_0000 / 0x100 == value / 0x100_0000 && value / 0x1_0000 % 0x100 < 0x100
    ensures value % 0x1_0000 / 0x100 == value / 0x100 % 0x100 && value % 0x1_0000 % 0x100 == value % 0x100
  {}

  lemma PutLongBytes(mem: Memory, a: nat, value: U32)
    ensures a >= 0x4_0000 ==> HoldsLong(PutLong(mem, a, value), a, value)
    ensures forall x: nat | !(a <= x < a + 4) :: SameByte(PutLong(mem, a, value), mem, x)
  {
    var half := PutWord(mem, a, value / 0x1_0000);
    PutWordBytes(mem, a, value / 0x1_0000);
    PutWordBytes(half, a + 2, value % 0x1_0000);
    BytesOfLong(value);
    hide PutWord;
    var after := PutLong(mem, a, value);
    assert SameByte(after, half, a) && SameByte(after, half, a + 1);
    forall x: nat | !(a <= x < a + 4) ensures SameByte(after, mem, x) {
      assert SameByte(after, half, x) && SameByte(half, mem, x);
    }
  }

  lemma LongKept(m: Memory, n: Memory, a: nat, value: U32)
    requires HoldsLong(n, a, value) && forall x: nat | a <= x < a + 4 :: SameByte(m, n, x)
    ensures HoldsLong(m, a, value)
  {
    assert SameByte(m, n, a) && SameByte(m, n, a + 1) && SameByte(m, n, a + 2) && SameByte(m, n, a + 3);
  }

  // The bytes of a frame, on a stack that takes stores.
  lemma FrameInBytes(mem: Memory, sp: nat, r: Routine, resume: U32)
    requires sp >= 0x4_0008
    ensures var after := WithFrame(mem, sp, r, resume);
      match r
      case Mark => HoldsByte(after, sp - 2, 0) && HoldsByte(after, sp - 1, 8) && HoldsLong(after, sp - 6, resume)
      case Loader => HoldsLong(after, sp - 4, resume)
      case Wait => HoldsLong(after, sp - 4, 1) && HoldsLong(after, sp - 8, resume)
  {
    hide PutLong, PutWord, HoldsLong;
    match r {
      case Mark =>
        PutWordBytes(mem, sp - 2, 8);
        PutLongBytes(PutWord(mem, sp - 2, 8), sp - 6, resume);
        assert SameByte(WithFrame(mem, sp, r, resume), PutWord(mem, sp - 2, 8), sp - 2);
        assert SameByte(WithFrame(mem, sp, r, resume), PutWord(mem, sp - 2, 8), sp - 1);
      case Loader =>
        PutLongBytes(mem, sp - 4, resume);
      case Wait =>
        PutLongBytes(mem, sp - 4, 1);
        PutLongBytes(PutLong(mem, sp - 4, 1), sp - 8, resume);
        LongKept(WithFrame(mem, sp, r, resume), PutLong(mem, sp - 4, 1), sp - 4, 1);
    }
  }

  // The firmware's inventory flag: bit 1 of the word at 0x1fbc10.
  predicate InventoryBit(mem: Memory) { 0x1fbc11 in mem && mem[0x1fbc11] / 2 % 2 == 1 }

  lemma InventoryInBytes(mem: Memory)
    ensures WordAt(mem, FLAGS) / 2 % 2 == 1 <==> InventoryBit(mem)
  {
    var high: int, low: int := ByteAt(mem, 0x1fbc10), ByteAt(mem, 0x1fbc11);
    assert (high * 0x100 + low) / 2 == high * 0x80 + low / 2;
  }

  // The borrowed CPU: the loader at 0x1d8f46 once the mark is made, before it the
  // mark routine at 0x1d68c6 with argument 8, and while inventory is not done the
  // wait routine at 0x126f6 with argument 1. Each returns to the entry.
  lemma BorrowInBytes(s: State, i: Init)
    requires StackBacked(i.saved.Sp())
    ensures var t, sp, done := Borrow(s, i), i.saved.registers[15], InventoryBit(s.mem);
      && t.init == Some(i.(inventory := done, markAttempt := done && !i.marked))
      && t.cpu.pc == (if !done then 0x126f6 else if i.marked then 0x1d8f46 else 0x1d68c6)
      && t.cpu.registers == s.cpu.registers[15 := sp - (if !done then 8 else if i.marked then 4 else 6)]
      && t.cpu.sr == s.cpu.sr
      && (sp >= 0x4_0008 ==> FrameBytes(t.mem, sp, done, i.marked, i.saved.pc))
  {
    InventoryInBytes(s.mem);
    if i.saved.Sp() >= 0x4_0008 { BorrowedMemory(s, i); }
    hide WithFrame, FrameBytes, WordAt, InventoryBit;
  }

  predicate FrameBytes(mem: Memory, sp: nat, done: bool, marked: bool, resume: U32)
    requires sp >= 8
  {
    if !done then HoldsLong(mem, sp - 4, 1) && HoldsLong(mem, sp - 8, resume)
    else if marked then HoldsLong(mem, sp - 4, resume)
    else HoldsByte(mem, sp - 2, 0) && HoldsByte(mem, sp - 1, 8) && HoldsLong(mem, sp - 6, resume)
  }

  lemma BorrowedMemory(s: State, i: Init)
    requires StackBacked(i.saved.Sp()) && i.saved.Sp() >= 0x4_0008
    ensures FrameBytes(Borrow(s, i).mem, i.saved.Sp(), InventoryBit(s.mem), i.marked, i.saved.pc)
  {
    InventoryInBytes(s.mem);
    FrameInBytes(s.mem, i.saved.Sp(), RoutineOf(Attempt(s.mem, i)), i.saved.pc);
    hide WithFrame, HoldsLong, HoldsByte, WordAt, InventoryBit, FrameSize, EntryPoint, StackBacked;
  }

  // Eight bytes from `a` lie in the flash, in RAM or in external RAM.
  predicate Backed(a: nat) {
    a + 8 <= 0x4_0000 || (0x10_0000 <= a && a + 8 <= 0x20_0000) || (0x30_1000 <= a && a + 8 <= 0x40_0000)
  }

  // A start, in literals: at one of the two entries, with its signature there, once
  // the guest has booted and while the start is pending.
  predicate StartDue(s: State, w: World) {
    && !s.failed && s.init.None? && s.pending && s.bootComplete
    && !(s.cpu.pc in {0x1_0cbe, 0x11_0cbe} && w.assertionSignature)
    && ((s.cpu.pc == 0x1e_e5a6 && w.initSignature) || (s.cpu.pc == 0x1d_bb96 && w.requestSignature))
  }

  predicate StartWorks(s: State, w: World) {
    && w.loaderSupported && w.helpersSupported && w.startOk
    && s.cpu.registers[15] >= 8 && Backed(s.cpu.registers[15] - 8)
  }

  // The CPU is borrowed exactly when a start is due and works; one that is due and
  // does not work fails, and nothing runs.
  lemma StartInLiterals(s: State, w: World)
    requires Good(s)
    ensures var (t, entries) := Stepped(s, w);
      && ((exists k :: 0 <= k < |entries| && entries[k].Started?) <==> StartDue(s, w) && StartWorks(s, w))
      && (StartDue(s, w) && StartWorks(s, w) ==> entries[0] == Started(s.cpu))
      && (StartDue(s, w) && !StartWorks(s, w) ==> entries == [Failed] && t.failed && t.mem == s.mem)
  {
    assert StackBacked(s.cpu.Sp()) <==> s.cpu.registers[15] >= 8 && Backed(s.cpu.registers[15] - 8);
    assert Triggers(s, w) && !Asserted(s, w) && !s.failed && s.init.None? && s.pending && s.bootComplete
      <==> StartDue(s, w);
    hide StackBacked, Backed, Triggers, Asserted, Borrow, LoaderSucceeded;
    var entries := Stepped(s, w).1;
    if StartDue(s, w) && StartWorks(s, w) { assert entries[0].Started?; }
  }

  // Two ways to fail, and what a step does to a call that has not returned: after a
  // minute it is given up; until then the guest just runs.
  lemma WaitInLiterals(s: State, w: World)
    requires Good(s) && !s.failed
    ensures var (t, entries) := Stepped(s, w);
      if s.cpu.pc in {0x1_0cbe, 0x11_0cbe} && w.assertionSignature then entries == [Failed] && t.failed
      else s.init.Some? ==>
        var i := s.init.value; var back := i.saved.registers[15] - (if i.inventory then 0 else 4);
        if w.elapsedMs > 60_000 then entries == [Failed] && t.failed && t.init.None?
        else if s.cpu.pc == i.saved.pc && s.cpu.registers[15] == back then
          entries != [] && !entries[0].Ran? && (entries[0] == Failed ==> i.inventory && !i.markAttempt)
        else entries[0] == Ran(s.cpu.pc, s.cpu.registers[15]) && t.init == s.init
  {
    hide Borrow, LoaderSucceeded, Triggers;
  }

  // ---------- the loader's outcome ----------

  // The firmware's own success: one of bits 12 to 15 of the word at 0x1fbc10 is
  // set, and the low byte of D0 is 0 or 2.
  predicate LoaderReportsSuccess(mem: Memory, d0: nat) {
    ByteAt(mem, 0x1fbc10) >= 0x10 && (d0 % 0x100 == 0 || d0 % 0x100 == 2)
  }

  // The loader's return is seen in time: inventory was done and no mark is due,
  // and the CPU is back at the entry with the stack pointer it had there.
  predicate LoaderReturns(s: State, w: World) {
    && s.init.Some? && s.init.value.inventory && !s.init.value.markAttempt && w.elapsedMs <= 60_000
    && s.cpu.pc == s.init.value.saved.pc && s.cpu.registers[15] == s.init.value.saved.registers[15]
  }

  // A step that sees the loader's return hands the CPU back exactly on success.
  // Otherwise it records the failure, and nothing runs in any continuation.
  lemma LoaderOutcome(s: State, w: World, later: World)
    requires Good(s) && !s.failed && !Asserted(s, w) && LoaderReturns(s, w)
    ensures var (t, entries) := Stepped(s, w); var good := LoaderReportsSuccess(s.mem, s.cpu.registers[0]);
      && (good ==> entries != [] && entries[0] == Restored(s.init.value.saved) && t.init.None?)
      && (!good ==> entries == [Failed] && t.failed && Stepped(t, later) == (t, []))
  {
    SuccessInBytes(s.mem, s.cpu.registers[0]);
    hide WithFrame, Triggers, StackBacked, ByteAt, LoaderSucceeded, LoaderReportsSuccess;
  }

  lemma SuccessInBytes(mem: Memory, d0: nat)
    ensures LoaderSucceeded(mem, d0) == LoaderReportsSuccess(mem, d0)
  {
    var high, low := ByteAt(mem, 0x1fbc10), ByteAt(mem, 0x1fbc11);
    assert high as int * 0x100 + low as int >= 0x1000 <==> high >= 0x10;
  }

  // A step hands a CPU back only where a successful loader returns.
  lemma RestoredNeedsSuccess(s: State, w: World, k: nat)
    requires Good(s) && k < |Stepped(s, w).1| && Stepped(s, w).1[k].Restored?
    ensures !s.failed && LoaderReturns(s, w) && LoaderReportsSuccess(s.mem, s.cpu.registers[0]) && k == 0
    ensures Stepped(s, w).1[k].cpu == s.init.value.saved
  {
    SuccessInBytes(s.mem, s.cpu.registers[0]);
    hide WithFrame, Triggers, StackBacked, ByteAt, LoaderSucceeded, LoaderReportsSuccess;
  }

  // ---------- completion ----------

  // The host and the guest let a step happen: in time, no assertion, no failure.
  predicate Calm(s: State, w: World) {
    w.elapsedMs <= TIMEOUT_MS && !Asserted(s, w) && !w.guestFails
  }

  // The outstanding routine is about to be seen to have returned.
  predicate AtReturn(s: State) {
    s.init.Some? && s.cpu.pc == s.init.value.saved.pc && s.cpu.Sp() == ReturnSp(s.init.value)
  }

  predicate InventoryReady(mem: Memory) { WordAt(mem, FLAGS) / 2 % 2 == 1 }

  // A return that brings the restoration nearer: of the loader, or of another
  // routine once the firmware's inventory flag is up.
  predicate Advances(s: State) {
    AtReturn(s) && (RoutineOf(s.init.value) == Loader || InventoryReady(s.mem))
  }

  // Every step until the restoration is calm, and the loader reports success.
  predicate Cooperates(s: State, worlds: seq<World>)
    requires Good(s)
    decreases |worlds|
  {
    s.init.None? || worlds == [] ||
    (Calm(s, worlds[0])
     && (AtReturn(s) && RoutineOf(s.init.value) == Loader ==> LoaderSucceeded(s.mem, s.cpu.registers[0]))
     && Cooperates(Stepped(s, worlds[0]).0, worlds[1..]))
  }

  // How often the run advances.
  function Advanced(s: State, worlds: seq<World>): nat
    requires Good(s)
    decreases |worlds|
  {
    if worlds == [] then 0
    else (if Advances(s) then 1 else 0) + Advanced(Stepped(s, worlds[0]).0, worlds[1..])
  }

  // Returns still needed: of the loader; of the mark or of a wait after it, and
  // the loader; of a wait before it, the mark and the loader.
  function Needed(i: Init): nat {
    if RoutineOf(i) == Loader then 1 else if i.marked || i.markAttempt then 2 else 3
  }

  function Happened(s: State, worlds: seq<World>): seq<Entry>
    requires Good(s)
    decreases |worlds|
  {
    if worlds == [] then []
    else Stepped(s, worlds[0]).1 + Happened(Stepped(s, worlds[0]).0, worlds[1..])
  }

  // One calm step of an outstanding call restores the CPU, or advances by one
  // call, or leaves no more to do than before.
  lemma CalmStep(s: State, w: World)
    requires Good(s) && s.init.Some? && !s.failed && Calm(s, w)
    requires AtReturn(s) && RoutineOf(s.init.value) == Loader ==> LoaderSucceeded(s.mem, s.cpu.registers[0])
    ensures var (t, entries) := Stepped(s, w); var i := s.init.value;
      && !t.failed
      && (AtReturn(s) && RoutineOf(i) == Loader ==> Restored(i.saved) in entries)
      && (!(AtReturn(s) && RoutineOf(i) == Loader) ==>
            && t.init.Some? && t.init.value.saved == i.saved
            && Needed(t.init.value) <= Needed(i) - (if Advances(s) then 1 else 0))
  {
    hide WithFrame, Triggers, WordAt, StackBacked, LoaderSucceeded, FrameSize;
    var i := s.init.value;
    if AtReturn(s) && RoutineOf(i) == Loader {
      var t := Returned(s, i).0;
      assert Dependency(s, w).1 == [Restored(t.cpu)] && t.cpu == i.saved;
      assert Stepped(s, w).1[0] == Restored(i.saved);
    }
  }

  // If the run advances as often as the outstanding call needs, whatever the
  // guest does in between and however many waits return early, it restores the
  // CPU it borrowed.
  lemma {:induction false} CooperationRestores(s: State, worlds: seq<World>)
    requires Good(s) && s.init.Some? && !s.failed && Cooperates(s, worlds)
    requires Advanced(s, worlds) >= Needed(s.init.value)
    ensures Restored(s.init.value.saved) in Happened(s, worlds)
    decreases |worlds|
  {
    hide Stepped, AtReturn, Advances, Calm, LoaderSucceeded, RoutineOf;
    assert worlds != [] by { NeedsSome(s.init.value); }
    CalmStep(s, worlds[0]);
    var t := Stepped(s, worlds[0]).0;
    if !(AtReturn(s) && RoutineOf(s.init.value) == Loader) {
      CooperationRestores(t, worlds[1..]);
    }
  }

  lemma NeedsSome(i: Init)
    ensures Needed(i) >= 1
  {}

  // The first communication entry, reached in time with everything in order,
  // puts a call out.
  predicate Startable(s: State, w: World) {
    && !s.failed && s.pending && s.init.None? && s.bootComplete && Triggers(s, w)
    && w.loaderSupported && w.helpersSupported && w.startOk && StackBacked(s.cpu.Sp())
  }

  lemma StartBorrows(s: State, w: World)
    requires Startable(s, w) && Calm(s, w)
    ensures Good(s)
    ensures var (t, entries) := Stepped(s, w);
      && t.init.Some? && t.init.value.saved == s.cpu && !t.failed && 1 <= Needed(t.init.value) <= 3
      && entries != [] && entries[0] == Started(s.cpu)
  {
    hide WithFrame, WordAt, StackBacked, FrameSize;
  }

  // From the entry to the restoration; three advances are always enough.
  lemma StartedRunRestores(s: State, w: World, later: seq<World>)
    requires Startable(s, w) && Calm(s, w) && Good(s)
    requires var t := Stepped(s, w).0;
      t.init.Some? && Cooperates(t, later) && Advanced(t, later) >= Needed(t.init.value)
    ensures Started(s.cpu) in Happened(s, [w] + later) && Restored(s.cpu) in Happened(s, [w] + later)
  {
    hide Startable, Calm, Cooperates, Advanced, Needed;
    StartBorrows(s, w);
    hide Stepped;
    assert ([w] + later)[1..] == later;
    CooperationRestores(Stepped(s, w).0, later);
  }

  // ---------- one run that restores ----------

  // A firmware whose flags say inventory done and loader present.
  function ReadyMemory(): Memory { map[FLAGS := 0x10, FLAGS + 1 := 0x02] }

  // A calm step at whose end the guest is at the entry with this stack pointer.
  function Arrives(entry: Cpu, sp: U32): World {
    World(0, false, true, true, true, true, true, entry.(registers := entry.registers[15 := sp][0 := 0]),
          ReadyMemory(), true, true, false)
  }

  // Not a matter of chance: any CPU at an entry with a backed stack is borrowed
  // and handed back when the mark and the loader return, one step each.
  lemma RestorationIsReached(s: State, entry: Cpu)
    requires IsEntry(entry.pc) && StackBacked(entry.Sp())
    requires s == State(entry, ReadyMemory(), true, true, None, false)
    ensures Good(s)
    ensures var w := Arrives(entry, entry.Sp());
      Started(entry) in Happened(s, [w] + [w, w]) && Restored(entry) in Happened(s, [w] + [w, w])
  {
    var w := Arrives(entry, entry.Sp());
    var i := Init(entry, true, true, false);
    ReadyFlags();
    hide WithFrame, WordAt, StackBacked, LoaderSucceeded, ReadyMemory;
    assert !Asserted(s, w);
    var t := Stepped(s, w).0;
    StartsWithMark(s, entry);
    MarkThenLoader(t, entry);
    var u := Stepped(t, w).0;
    assert [w, w][1..] == [w] && [w][1..] == [];
    hide Stepped;
    StartBorrows(s, w);
    assert Cooperates(u, [w]);
    assert Cooperates(t, [w, w]);
    assert Advanced(u, [w]) == 1 && Advanced(t, [w, w]) == 2;
    assert ([w] + [w, w])[1..] == [w, w];
    CooperationRestores(t, [w, w]);
  }

  lemma ReadyFlags()
    ensures WordAt(ReadyMemory(), FLAGS) == 0x1002
    ensures InventoryReady(ReadyMemory()) && LoaderSucceeded(ReadyMemory(), 0)
  {}

  // With the inventory flag up from the start, the mark is called at once.
  lemma StartsWithMark(s: State, entry: Cpu)
    requires IsEntry(entry.pc) && StackBacked(entry.Sp())
    requires s == State(entry, ReadyMemory(), true, true, None, false)
    ensures var w := Arrives(entry, entry.Sp()); var t := Stepped(s, w).0;
      t == State(w.cpu, ReadyMemory(), false, true, Some(Init(entry, true, true, false)), false)
  {
    ReadyFlags();
    hide WithFrame, WordAt, StackBacked, ReadyMemory, FrameSize;
  }

  lemma MarkThenLoader(t: State, entry: Cpu)
    requires IsEntry(entry.pc) && StackBacked(entry.Sp())
    requires t == State(Arrives(entry, entry.Sp()).cpu, ReadyMemory(), false, true,
        Some(Init(entry, true, true, false)), false)
    ensures var w := Arrives(entry, entry.Sp()); var u := Stepped(t, w).0;
      && Advances(t) && Calm(t, w) && RoutineOf(t.init.value) == Mark
      && u == State(w.cpu, ReadyMemory(), false, true, Some(Init(entry, true, false, true)), false)
      && Advances(u) && Calm(u, w) && LoaderSucceeded(u.mem, u.cpu.registers[0])
  {
    ReadyFlags();
    hide WithFrame, WordAt, StackBacked, ReadyMemory, FrameSize;
  }

  // ---------- the log ----------

  function Calls(log: seq<Entry>): seq<Routine> {
    if log == [] then []
    else
      var last := log[|log| - 1];
      if last.Called? then Calls(log[..|log| - 1]) + [last.routine] else Calls(log[..|log| - 1])
  }

  // How far a sequence of calls has come in wait* mark wait* loader.
  datatype Phase = Before | Marked | Loaded | Bad

  function PhaseOf(calls: seq<Routine>): Phase {
    if calls == [] then Before
    else match (PhaseOf(calls[..|calls| - 1]), calls[|calls| - 1])
      case (Before, Wait) => Before
      case (Before, Mark) => Marked
      case (Marked, Wait) => Marked
      case (Marked, Loader) => Loaded
      case _ => Bad
  }

  function Waits(n: nat): seq<Routine> { seq(n, _ => Wait) }

  lemma WaitsGrow(n: nat)
    ensures Waits(n) + [Wait] == Waits(n + 1)
  {}

  lemma {:induction false} PhaseIsPattern(calls: seq<Routine>) returns (a: nat, b: nat)
    requires PhaseOf(calls) != Bad
    ensures PhaseOf(calls) == Before ==> calls == Waits(a)
    ensures PhaseOf(calls) == Marked ==> calls == Waits(a) + [Mark] + Waits(b)
    ensures PhaseOf(calls) == Loaded ==> calls == Waits(a) + [Mark] + Waits(b) + [Loader]
  {
    if calls == [] {
      a, b := 0, 0;
    } else {
      var init, last := calls[..|calls| - 1], calls[|calls| - 1];
      a, b := PhaseIsPattern(init);
      assert calls == init + [last];
      match (PhaseOf(init), last) {
        case (Before, Wait) => WaitsGrow(a); a := a + 1;
        case (Before, Mark) => b := 0; assert Waits(a) + [Mark] + Waits(0) == Waits(a) + [Mark];
        case (Marked, Wait) =>
          WaitsGrow(b);
          assert Waits(a) + [Mark] + Waits(b) + [Wait] == Waits(a) + [Mark] + (Waits(b) + [Wait]);
          b := b + 1;
        case _ =>
      }
    }
  }

  predicate Starts(log: seq<Entry>) { exists k :: 0 <= k < |log| && log[k].Started? }

  predicate EndsRestored(log: seq<Entry>) { log != [] && log[|log| - 1].Restored? }

  // Nothing follows a failure; the CPU is borrowed at most once; a restoration
  // comes after the loader call, puts back exactly the CPU found at the entry,
  // and the entry instruction is what runs next; the calls so far begin
  // wait* mark wait* loader.
  ghost predicate Ordered(log: seq<Entry>) {
    && (forall k :: 0 <= k < |log| && log[k].Failed? ==> k == |log| - 1)
    && (forall j, k :: 0 <= j < |log| && 0 <= k < |log| && log[j].Started? && log[k].Started? ==> j == k)
    && (forall k :: 0 <= k < |log| && log[k].Restored? ==>
          PhaseOf(Calls(log[..k])) == Loaded && Started(log[k].cpu) in log[..k])
    && (forall k :: 0 <= k < |log| - 1 && log[k].Restored? ==> log[k + 1] == Ran(log[k].cpu.pc, log[k].cpu.Sp()))
    && PhaseOf(Calls(log)) != Bad
  }

  // What one more entry must satisfy to keep the log ordered.
  ghost predicate Follows(log: seq<Entry>, e: Entry) {
    && Failed !in log
    && (e.Started? ==> !Starts(log))
    && (e.Restored? ==> PhaseOf(Calls(log)) == Loaded && Started(e.cpu) in log)
    && (EndsRestored(log) ==> e == Ran(log[|log| - 1].cpu.pc, log[|log| - 1].cpu.Sp()))
    && (e.Called? ==> PhaseOf(Calls(log) + [e.routine]) != Bad)
  }

  lemma CallsGrow(log: seq<Entry>, e: Entry)
    ensures Calls(log + [e]) == if e.Called? then Calls(log) + [e.routine] else Calls(log)
    ensures Starts(log + [e]) <==> e.Started? || Starts(log)
    ensures EndsRestored(log + [e]) <==> e.Restored?
  {
    assert (log + [e])[..|log|] == log;
    if Starts(log) {
      var k :| 0 <= k < |log| && log[k].Started?;
      assert (log + [e])[k].Started?;
    }
    if e.Started? { assert (log + [e])[|log|].Started?; }
  }

  lemma OrderedGrows(log: seq<Entry>, e: Entry)
    requires Ordered(log) && Follows(log, e)
    ensures Ordered(log + [e])
  {
    var grown := log + [e];
    CallsGrow(log, e);
    hide PhaseOf, Calls;
    assert forall k :: 0 <= k <= |log| ==> grown[..k] == log[..k];
    assert log[..|log|] == log;
    forall k | 0 <= k < |grown| && grown[k].Restored?
      ensures PhaseOf(Calls(grown[..k])) == Loaded && Started(grown[k].cpu) in grown[..k]
    {
      assert grown[..k] == log[..k];
    }
  }

  function PhaseWanted(i: Init): Phase {
    if RoutineOf(i) == Loader then Loaded else if i.marked || i.markAttempt then Marked else Before
  }

  // The log and the state agree; this also holds in the middle of a step.
  ghost predicate Tracks(s: State, log: seq<Entry>) {
    && Good(s)
    && Ordered(log)
    && (s.failed <==> Failed in log)
    && (s.pending ==> !Starts(log) && Calls(log) == [] && s.init.None?)
    && (s.init.Some? && !s.failed ==> Outstanding(s.init.value, log))
    && (EndsRestored(log) ==> s.cpu == log[|log| - 1].cpu)
  }

  ghost predicate Outstanding(i: Init, log: seq<Entry>) {
    && PhaseOf(Calls(log)) == PhaseWanted(i)
    && Started(i.saved) in log
    && (i.inventory && !i.markAttempt ==> i.marked)
  }

  ghost predicate Consistent(s: State, log: seq<Entry>) { Tracks(s, log) && !EndsRestored(log) }

  lemma PhaseStep(calls: seq<Routine>, r: Routine)
    ensures PhaseOf(calls + [r]) ==
      match (PhaseOf(calls), r)
        case (Before, Wait) => Before
        case (Before, Mark) => Marked
        case (Marked, Wait) => Marked
        case (Marked, Loader) => Loaded
        case _ => Bad
  {
    assert (calls + [r])[..|calls|] == calls;
  }

  // A call put out for `i` continues the pattern.
  lemma BorrowTracks(s: State, log: seq<Entry>, i: Init)
    requires StackBacked(i.saved.Sp()) && IsEntry(i.saved.pc)
    requires Ordered(log) && Failed !in log && !EndsRestored(log) && !s.failed && !s.pending
    requires Started(i.saved) in log
    requires PhaseOf(Calls(log)) == if i.marked then Marked else Before
    ensures var t := Borrow(s, i); Consistent(t, log + [Called(RoutineOf(t.init.value))])
  {
    hide WithFrame, WordAt, PhaseOf, StackBacked, Starts;
    var t := Borrow(s, i);
    var e := Called(RoutineOf(t.init.value));
    PhaseStep(Calls(log), e.routine);
    CallsGrow(log, e);
    OrderedGrows(log, e);
    hide Ordered;
  }

  lemma AppendTracks(s: State, log: seq<Entry>, t: State, e: Entry)
    requires Tracks(s, log) && Follows(log, e)
    requires !e.Called? && !e.Started?
    requires Good(t) && (t.failed <==> e.Failed?) && (t.pending ==> s.pending)
    requires t.init == s.init || t.init.None?
    requires e.Restored? ==> t.cpu == e.cpu
    ensures Tracks(t, log + [e])
    ensures EndsRestored(log + [e]) <==> e.Restored?
  {
    hide PhaseOf, StackBacked;
    CallsGrow(log, e);
    OrderedGrows(log, e);
    hide Ordered;
  }

  // A step that puts `Started` in the log and borrows the CPU at once.
  lemma StartTracks(s: State, log: seq<Entry>, w: World)
    requires Consistent(s, log) && s.pending && !s.failed && s.init.None? && Triggers(s, w)
    ensures Tracks(Start(s, w).0, log + Start(s, w).1)
    ensures !EndsRestored(log + Start(s, w).1)
  {
    hide PhaseOf, WithFrame, WordAt, Ordered, StackBacked;
    var (t, entries) := Start(s, w);
    if entries == [Failed] {
      AppendTracks(s, log, t, Failed);
    } else {
      var grown := log + [Started(s.cpu)];
      CallsGrow(log, Started(s.cpu));
      OrderedGrows(log, Started(s.cpu));
      assert Started(s.cpu) == grown[|log|];
      NoCalls();
      BorrowTracks(s.(pending := false), grown, Init(s.cpu, false, false, false));
      assert log + entries == grown + [entries[1]];
    }
  }

  lemma NoCalls()
    ensures PhaseOf([]) == Before
  {}

  lemma ReturnedTracks(s: State, log: seq<Entry>)
    requires Consistent(s, log) && s.init.Some? && !s.failed
    requires s.cpu.pc == s.init.value.saved.pc
    ensures Tracks(Returned(s, s.init.value).0, log + Returned(s, s.init.value).1)
  {
    hide PhaseOf, WithFrame, WordAt, Ordered, StackBacked, Starts, LoaderSucceeded;
    var i := s.init.value;
    var t := s.(cpu := s.cpu.(sr := i.saved.sr, registers := i.saved.registers), init := None);
    var (u, entries) := Returned(s, i);
    if i.markAttempt {
      BorrowTracks(t, log, i.(marked := true));
    } else if i.inventory {
      AppendTracks(s, log, u, entries[0]);
    } else {
      BorrowTracks(t, log, i);
    }
  }

  lemma DependencyTracks(s: State, log: seq<Entry>, w: World)
    requires Consistent(s, log) && !s.failed
    ensures Tracks(Dependency(s, w).0, log + Dependency(s, w).1)
  {
    hide PhaseOf, WithFrame, WordAt, Ordered, StackBacked, Starts, Returned, Start, Triggers;
    assert log + [] == log;
    if s.init.Some? {
      if w.elapsedMs > TIMEOUT_MS {
        AppendTracks(s, log, s.(init := None, failed := true), Failed);
      } else if s.cpu.pc == s.init.value.saved.pc {
        ReturnedTracks(s, log);
      }
    } else if s.pending && s.bootComplete && Triggers(s, w) {
      StartTracks(s, log, w);
    }
  }

  lemma GuestTracks(s: State, log: seq<Entry>, w: World)
    requires Tracks(s, log) && !s.failed
    ensures Consistent(GuestRuns(s, w).0, log + GuestRuns(s, w).1)
  {
    hide PhaseOf, Ordered, StackBacked, Starts;
    var (t, entries) := GuestRuns(s, w);
    var ran := Ran(s.cpu.pc, s.cpu.Sp());
    AppendTracks(s, log, t.(failed := false), ran);
    if w.guestFails {
      AppendTracks(t.(failed := false), log + [ran], t, Failed);
      assert log + entries == log + [ran] + [Failed];
    }
  }

  lemma ConsistentIsGood(s: State, log: seq<Entry>)
    requires Consistent(s, log)
    ensures Good(s)
  {}

  // Every step keeps the log and the state in agreement.
  lemma StepConsistent(s: State, log: seq<Entry>, w: World)
    requires Consistent(s, log)
    ensures Consistent(Stepped(s, w).0, log + Stepped(s, w).1)
  {
    assert Good(s);
    hide Dependency, GuestRuns, Ordered, Calls, Starts, PhaseOf;
    assert log + [] == log;
    if !s.failed && Asserted(s, w) {
      AppendTracks(s, log, s.(failed := true), Failed);
    } else if !s.failed {
      DependencyTracks(s, log, w);
      var (t, entries) := Dependency(s, w);
      if t.failed {
        assert Failed in log + entries;
        FailedEnds(t, log + entries);
      } else {
        GuestTracks(t, log + entries, w);
        assert log + entries + GuestRuns(t, w).1 == log + (entries + GuestRuns(t, w).1);
      }
    }
  }

  lemma FailedEnds(s: State, log: seq<Entry>)
    requires Tracks(s, log) && Failed in log
    ensures !EndsRestored(log)
  {
    hide PhaseOf, Calls;
  }

  // ---------- whole runs ----------

  // A run from a machine whose secondary CPU has not been started.
  function Run(cpu: Cpu, mem: Memory, worlds: seq<World>): (r: (State, seq<Entry>))
    ensures Good(r.0)
  {
    if worlds == [] then (State(cpu, mem, true, false, None, false), [])
    else
      var (s, log) := Run(cpu, mem, worlds[..|worlds| - 1]);
      var (t, entries) := Stepped(s, worlds[|worlds| - 1]);
      (t, log + entries)
  }

  function After(s: State, worlds: seq<World>): (t: State)
    requires Good(s)
    ensures Good(t)
    decreases |worlds|
  {
    if worlds == [] then s else After(Stepped(s, worlds[0]).0, worlds[1..])
  }

  lemma {:induction false} OneMoreStep(s: State, worlds: seq<World>, w: World)
    requires Good(s)
    ensures After(s, worlds + [w]) == Stepped(After(s, worlds), w).0
    ensures Happened(s, worlds + [w]) == Happened(s, worlds) + Stepped(After(s, worlds), w).1
    decreases |worlds|
  {
    hide Stepped;
    var more := worlds + [w];
    if worlds == [] {
      assert more == [w] && more[1..] == [];
    } else {
      assert more[1..] == worlds[1..] + [w];
      OneMoreStep(Stepped(s, worlds[0]).0, worlds[1..], w);
    }
  }

  // A run is what happens from the machine it starts with.
  lemma {:induction false} RunHappens(cpu: Cpu, mem: Memory, worlds: seq<World>)
    ensures var s := State(cpu, mem, true, false, None, false);
      Run(cpu, mem, worlds) == (After(s, worlds), Happened(s, worlds))
  {
    hide Stepped;
    if worlds != [] {
      var n := |worlds| - 1;
      RunHappens(cpu, mem, worlds[..n]);
      OneMoreStep(State(cpu, mem, true, false, None, false), worlds[..n], worlds[n]);
      assert worlds == worlds[..n] + [worlds[n]];
    }
  }

  lemma {:induction false} RunConsistent(cpu: Cpu, mem: Memory, worlds: seq<World>)
    ensures Consistent(Run(cpu, mem, worlds).0, Run(cpu, mem, worlds).1)
  {
    hide Stepped;
    if worlds != [] {
      hide Consistent;
      RunConsistent(cpu, mem, worlds[..|worlds| - 1]);
      var (s, log) := Run(cpu, mem, worlds[..|worlds| - 1]);
      StepConsistent(s, log, worlds[|worlds| - 1]);
    }
  }

  // In every run the calls are an initial part of wait* mark wait* loader.
  lemma CallsFollowPattern(cpu: Cpu, mem: Memory, worlds: seq<World>) returns (a: nat, b: nat)
    ensures var calls := Calls(Run(cpu, mem, worlds).1);
      || calls == Waits(a)
      || calls == Waits(a) + [Mark] + Waits(b)
      || calls == Waits(a) + [Mark] + Waits(b) + [Loader]
  {
    RunConsistent(cpu, mem, worlds);
    var calls := Calls(Run(cpu, mem, worlds).1);
    assert PhaseOf(calls) != Bad;
    a, b := PhaseIsPattern(calls);
  }

  // The CPU is borrowed at most once, and it is handed back exactly as it was
  // found, after the whole sequence of calls; the held instruction runs next.
  lemma RestoredIsOriginal(cpu: Cpu, mem: Memory, worlds: seq<World>, k: nat) returns (j: nat, a: nat, b: nat)
    requires k < |Run(cpu, mem, worlds).1| && Run(cpu, mem, worlds).1[k].Restored?
    ensures var log := Run(cpu, mem, worlds).1; var c := log[k].cpu;
      && j < k && log[j] == Started(c)
      && (forall i :: 0 <= i < |log| && log[i].Started? ==> i == j)
      && Calls(log[..k]) == Waits(a) + [Mark] + Waits(b) + [Loader]
      && k + 1 < |log| && log[k + 1] == Ran(c.pc, c.Sp())
  {
    RunConsistent(cpu, mem, worlds);
    hide Run, Calls, PhaseOf;
    var log := Run(cpu, mem, worlds).1;
    a, b := PhaseIsPattern(Calls(log[..k]));
    assert Started(log[k].cpu) in log[..k];
    j :| 0 <= j < k && log[..k][j] == Started(log[k].cpu);
    assert k != |log| - 1;
  }

  // Once a failure is recorded, nothing runs, whatever the world does.
  lemma {:induction false} FailureIsFinal(cpu: Cpu, mem: Memory, worlds: seq<World>, later: seq<World>)
    requires Failed in Run(cpu, mem, worlds).1
    ensures Run(cpu, mem, worlds + later) == Run(cpu, mem, worlds)
    decreases |later|
  {
    if later == [] {
      assert worlds + later == worlds;
    } else {
      var init, last := later[..|later| - 1], later[|later| - 1];
      FailureIsFinal(cpu, mem, worlds, init);
      RunConsistent(cpu, mem, worlds);
      hide Calls, PhaseOf, Ordered;
      assert (worlds + later)[..|worlds + later| - 1] == worlds + init;
      var (s, log) := Run(cpu, mem, worlds);
      assert s.failed;
      assert log + [] == log;
    }
  }

  // Every restoration in a run stands behind a state in which a successful loader
  // has returned.
  lemma {:induction false} RestorationsAreEarned(cpu: Cpu, mem: Memory, worlds: seq<World>, k: nat) returns (n: nat)
    requires k < |Run(cpu, mem, worlds).1| && Run(cpu, mem, worlds).1[k].Restored?
    ensures n < |worlds| && |Run(cpu, mem, worlds[..n]).1| == k
    ensures var s := Run(cpu, mem, worlds[..n]).0;
      LoaderReturns(s, worlds[n]) && LoaderReportsSuccess(s.mem, s.cpu.registers[0])
  {
    hide Stepped, LoaderReturns, LoaderReportsSuccess;
    var m := |worlds| - 1;
    var (s, log) := Run(cpu, mem, worlds[..m]);
    if k < |log| {
      n := RestorationsAreEarned(cpu, mem, worlds[..m], k);
      assert worlds[..m][..n] == worlds[..n];
    } else {
      RestoredNeedsSuccess(s, worlds[m], k - |log|);
      n := m;
    }
  }
}
