// The bounded NOR view of the 714-byte SSA region, written a byte lane at a
// time. `WordWrite` is the word device the lanes stand for; the class updates
// the card in place.
module SsaFlash {
  import opened Bits

  const OFFSET: nat := 0xfe0000
  const SIZE: nat := 714

  type Byte = bv8
  type Cells = seq<Byte>

  function Join(high: Byte, low: Byte): bv16 { ((high as bv16) << 8) | (low as bv16) }
  function High(word: bv16): Byte { (word >> 8) as bv8 }
  function Low(word: bv16): Byte { (word & 0xff) as bv8 }

  // NOR programming clears bits.
  function Clear(before: Byte, data: Byte): Byte { before & data }

  predicate Joined(high: Byte, low: Byte, word: bv16) { ((high as bv16) << 8) | (low as bv16) == word }

  lemma SplitJoins(word: bv16)
    ensures Join(High(word), Low(word)) == word && Joined(High(word), Low(word), word)
  {}

  // The command state; counters count accepted operations.
  datatype Device = Device(program: Option<nat>, erase: bool, status: Option<Byte>, erases: nat, programmed: nat)

  datatype Flash = Flash(pending: Option<(nat, Byte)>, device: Device)

  predicate InRegion(offset: nat) { OFFSET <= offset < OFFSET + SIZE - 1 }

  predicate Programs(card: Cells, offset: nat, word: bv16)
    requires offset + 1 < |card|
  {
    Clear(card[offset], High(word)) == High(word) && Clear(card[offset + 1], Low(word)) == Low(word)
  }

  function Erased(card: Cells): Cells
    requires OFFSET + SIZE <= |card|
  {
    card[..OFFSET] + seq(SIZE, _ => 0xff) + card[OFFSET + SIZE..]
  }

  function WordWrite(d: Device, card: Cells, offset: nat, word: bv16): (Device, Cells)
    requires d.program.Some? ==> InRegion(d.program.value)
  {
    if d.program.Some? then
      var e := d.(program := None);
      if d.program.value != offset || |card| < OFFSET + SIZE then (e.(status := Some(0x90)), card)
      else if !Programs(card, offset, word) then (e.(status := Some(0x90)), card)
      else (e.(programmed := d.programmed + 2, status := Some(0x80)),
            card[offset := Clear(card[offset], High(word))][offset + 1 := Clear(card[offset + 1], Low(word))])
    else if word == 0x2020 && offset == OFFSET then (d.(erase := true), card)
    else if word == 0xd0d0 && d.erase && offset == OFFSET then
      if OFFSET + SIZE <= |card| then (d.(erase := false, erases := d.erases + 1, status := Some(0x80)), Erased(card))
      else (d.(erase := false, status := Some(0xa0)), card)
    else if (word == 0x4040 || word == 0x1010) && InRegion(offset) then (d.(program := Some(offset)), card)
    else if word == 0x5050 then (d.(status := Some(0x80)), card)
    else if word == 0x7070 then (d.(status := Some(if d.status.Some? then d.status.value else 0x80)), card)
    else if word == 0xffff then (d.(erase := false, status := None), card)
    else (d.(erase := false, status := Some(0xb0)), card)
  }

  function ByteWrite(f: Flash, card: Cells, offset: nat, value: Byte): (Flash, Cells)
    requires Sound(f)
  {
    if f.pending.Some? && f.pending.value.0 % 2 == 0 && offset == f.pending.value.0 + 1 then
      var (d, c) := WordWrite(f.device, card, f.pending.value.0, Join(f.pending.value.1, value));
      (Flash(None, d), c)
    else
      var d := if f.pending.Some? then f.device.(program := None, erase := false, status := Some(0xb0)) else f.device;
      if offset % 2 == 0 then (Flash(Some((offset, value)), d), card)
      else (Flash(None, d.(status := Some(0xb0))), card)
  }

  // An armed program address lies in the region.
  predicate Sound(f: Flash) { f.device.program.Some? ==> InRegion(f.device.program.value) }

  class SsaFlash {
    var pending: Option<(nat, Byte)>
    var program: Option<nat>
    var erase: bool
    var status: Option<Byte>
    var erases: nat
    var programmedBytes: nat

    constructor ()
      ensures Valid() && View() == Flash(None, Device(None, false, None, 0, 0))
    {
      pending, program, erase, status, erases, programmedBytes := None, None, false, None, 0, 0;
    }

    function View(): Flash
      reads this
    {
      Flash(pending, Device(program, erase, status, erases, programmedBytes))
    }

    predicate Valid()
      reads this
    {
      Sound(View())
    }

    method WriteByte(offset: nat, value: Byte, card: array<Byte>)
      requires Valid()
      modifies this, card
      ensures Valid()
      ensures (View(), card[..]) == ByteWrite(old(View()), old(card[..]), offset, value)
    {
      if pending.Some? {
        var (first, high) := pending.value;
        pending := None;
        if first % 2 == 0 && offset == first + 1 {
          WriteWord(first, Join(high, value), card);
          return;
        }
        program := None;
        erase := false;
        status := Some(0xb0);
      }
      if offset % 2 == 0 {
        pending := Some((offset, value));
      } else {
        status := Some(0xb0);
      }
    }

    method WriteWord(offset: nat, word: bv16, card: array<Byte>)
      requires Valid()
      modifies this, card
      ensures Valid() && pending == old(pending)
      ensures (View().device, card[..]) == WordWrite(old(View().device), old(card[..]), offset, word)
    {
      hide High, Low, Clear, Erased;
      if program.Some? {
        var destination := program.value;
        program := None;
        if destination != offset || card.Length < OFFSET + SIZE {
          status := Some(0x90);
          return;
        }
        if Clear(card[offset], High(word)) != High(word) || Clear(card[offset + 1], Low(word)) != Low(word) {
          status := Some(0x90);
          return;
        }
        card[offset] := Clear(card[offset], High(word));
        card[offset + 1] := Clear(card[offset + 1], Low(word));
        programmedBytes := programmedBytes + 2;
        status := Some(0x80);
        return;
      }
      if word == 0x2020 && offset == OFFSET {
        erase := true;
      } else if word == 0xd0d0 && erase && offset == OFFSET {
        erase := false;
        if OFFSET + SIZE <= card.Length {
          FillRegion(card);
          erases := erases + 1;
          status := Some(0x80);
        } else {
          status := Some(0xa0);
        }
      } else if (word == 0x4040 || word == 0x1010) && InRegion(offset) {
        program := Some(offset);
      } else if word == 0x5050 {
        status := Some(0x80);
      } else if word == 0x7070 {
        status := Some(if status.Some? then status.value else 0x80);
      } else if word == 0xffff {
        erase := false;
        status := None;
      } else {
        erase := false;
        status := Some(0xb0);
      }
    }
  }

  method FillRegion(card: array<Byte>)
    requires OFFSET + SIZE <= card.Length
    modifies card
    ensures card[..] == Erased(old(card[..]))
  {
    for i := OFFSET to OFFSET + SIZE
      invariant forall k | 0 <= k < card.Length :: card[k] == if OFFSET <= k < i then 0xff else old(card[k])
    {
      card[i] := 0xff;
    }
  }

  // ---------- byte lanes are words ----------

  datatype WordOp = WordOp(offset: nat, word: bv16)
  datatype ByteOp = ByteOp(offset: nat, value: Byte)

  function Lanes(ops: seq<WordOp>): seq<ByteOp> {
    if ops == [] then []
    else [ByteOp(ops[0].offset, High(ops[0].word)), ByteOp(ops[0].offset + 1, Low(ops[0].word))] + Lanes(ops[1..])
  }

  function RunWords(d: Device, card: Cells, ops: seq<WordOp>): (Device, Cells)
    requires d.program.Some? ==> InRegion(d.program.value)
    decreases |ops|
  {
    if ops == [] then (d, card)
    else
      var (e, c) := WordWrite(d, card, ops[0].offset, ops[0].word);
      RunWords(e, c, ops[1..])
  }

  function RunBytes(f: Flash, card: Cells, ops: seq<ByteOp>): (Flash, Cells)
    requires Sound(f)
    decreases |ops|
  {
    if ops == [] then (f, card)
    else
      var (g, c) := ByteWrite(f, card, ops[0].offset, ops[0].value);
      RunBytes(g, c, ops[1..])
  }

  // High and low lanes written in pairs at even offsets are exactly a fold of
  // word writes, with no lane left pending.
  lemma {:induction false} PairedLanesAreWords(d: Device, card: Cells, ops: seq<WordOp>)
    requires d.program.Some? ==> InRegion(d.program.value)
    requires forall i | 0 <= i < |ops| :: ops[i].offset % 2 == 0
    ensures var (e, c) := RunWords(d, card, ops);
      RunBytes(Flash(None, d), card, Lanes(ops)) == (Flash(None, e), c)
    decreases |ops|
  {
    hide WordWrite;
    if ops != [] {
      var op := ops[0];
      var lanes := Lanes(ops);
      SplitJoins(op.word);
      assert lanes[0] == ByteOp(op.offset, High(op.word)) && lanes[1] == ByteOp(op.offset + 1, Low(op.word));
      assert lanes[1..][1..] == Lanes(ops[1..]);
      var (e, c) := WordWrite(d, card, op.offset, op.word);
      var half := Flash(Some((op.offset, High(op.word))), d);
      assert ByteWrite(Flash(None, d), card, op.offset, High(op.word)) == (half, card);
      assert ByteWrite(half, card, op.offset + 1, Low(op.word)) == (Flash(None, e), c);
      WordKeepsArming(d, card, op.offset, op.word);
      assert RunBytes(Flash(None, d), card, lanes) == RunBytes(half, card, lanes[1..]);
      assert RunBytes(half, card, lanes[1..]) == RunBytes(Flash(None, e), c, lanes[1..][1..]);
      PairedLanesAreWords(e, c, ops[1..]);
    }
  }

  lemma WordKeepsArming(d: Device, card: Cells, offset: nat, word: bv16)
    requires d.program.Some? ==> InRegion(d.program.value)
    ensures var e := WordWrite(d, card, offset, word).0; e.program.Some? ==> InRegion(e.program.value)
  {}

  // ---------- what any byte stream can do ----------

  // The 714 bytes from 0xfe0000.
  predicate Touches(offset: nat) { 0xfe0000 <= offset < 0xfe02ca }

  // Programming only clears bits.
  predicate OnlyClears(before: Cells, after: Cells) {
    |after| == |before| && forall i | 0 <= i < |before| :: after[i] & before[i] == after[i]
  }

  lemma MaskedWord(before: Byte, data: Byte)
    requires Clear(before, data) == data
    ensures data & before == data
  {}

  // What one word write can do to the card: erase the region, program exactly
  // the word sent at the armed address, or nothing at all.
  lemma WordWriteEffect(d: Device, card: Cells, offset: nat, word: bv16)
    requires d.program.Some? ==> InRegion(d.program.value)
    ensures var (e, c) := WordWrite(d, card, offset, word);
      || (e.erases == d.erases + 1 && e.programmed == d.programmed && OFFSET + SIZE <= |card| && c == Erased(card)
          && d.erase && d.program.None? && offset == OFFSET && word == 0xd0d0)
      || (e.erases == d.erases && e.programmed == d.programmed + 2 && OFFSET + SIZE <= |card|
          && d.program == Some(offset) && Programs(card, offset, word)
          && c == StoreWord(card, WordOp(offset, word)))
      || (e.erases == d.erases && e.programmed == d.programmed && c == card
          && !(d.program == Some(offset) && OFFSET + SIZE <= |card| && Programs(card, offset, word)))
  {}

  lemma WordWriteBounds(d: Device, card: Cells, offset: nat, word: bv16)
    requires d.program.Some? ==> InRegion(d.program.value)
    ensures var (e, c) := WordWrite(d, card, offset, word);
      && |c| == |card|
      && (forall i | 0 <= i < |card| && !Touches(i) :: c[i] == card[i])
      && e.erases >= d.erases
      && (e.erases == d.erases ==> OnlyClears(card, c))
  {
    WordWriteEffect(d, card, offset, word);
    hide WordWrite, High, Low, Clear, OnlyClears;
    SameOnlyClears(card);
    if d.program == Some(offset) && OFFSET + SIZE <= |card| && Programs(card, offset, word) {
      StoreOnlyClears(card, offset, word);
    }
  }

  lemma SameOnlyClears(card: Cells)
    ensures OnlyClears(card, card)
  {
    forall i | 0 <= i < |card| ensures card[i] & card[i] == card[i] { SelfMask(card[i]); }
  }

  lemma StoreOnlyClears(card: Cells, offset: nat, word: bv16)
    requires offset + 1 < |card| && Programs(card, offset, word)
    ensures OnlyClears(card, StoreWord(card, WordOp(offset, word)))
  {
    hide High, Low, Clear;
    MaskedWord(card[offset], High(word));
    MaskedWord(card[offset + 1], Low(word));
    forall i | 0 <= i < |card| ensures card[i] & card[i] == card[i] { SelfMask(card[i]); }
  }

  lemma SelfMask(b: Byte)
    ensures b & b == b
  {}

  lemma ByteWriteBounds(f: Flash, card: Cells, offset: nat, value: Byte)
    requires Sound(f)
    ensures var (g, c) := ByteWrite(f, card, offset, value);
      && Sound(g) && |c| == |card|
      && (forall i | 0 <= i < |card| && !Touches(i) :: c[i] == card[i])
      && g.device.erases >= f.device.erases
      && (g.device.erases == f.device.erases ==> OnlyClears(card, c))
  {
    if f.pending.Some? {
      WordWriteBounds(f.device, card, f.pending.value.0, Join(f.pending.value.1, value));
      WordKeepsArming(f.device, card, f.pending.value.0, Join(f.pending.value.1, value));
    }
    hide WordWrite, OnlyClears;
    SameOnlyClears(card);
  }

  lemma MaskTransitive(a: Byte, b: Byte, c: Byte)
    requires b & a == b && c & b == c
    ensures c & a == c
  {
    assert c & a == (c & b) & a;
  }

  // For every byte stream, paired or not, and every card length: no byte
  // outside the region changes, and while no erase is accepted the region's
  // bits only go from 1 to 0.
  lemma {:induction false} StreamStaysInRegion(f: Flash, card: Cells, ops: seq<ByteOp>)
    requires Sound(f)
    ensures var (g, c) := RunBytes(f, card, ops);
      && |c| == |card|
      && (forall i | 0 <= i < |card| && !Touches(i) :: c[i] == card[i])
      && g.device.erases >= f.device.erases
      && (g.device.erases == f.device.erases ==> OnlyClears(card, c))
    decreases |ops|
  {
    hide ByteWrite;
    if ops == [] {
      forall i | 0 <= i < |card| ensures card[i] & card[i] == card[i] { SelfMask(card[i]); }
    } else {
      ByteWriteBounds(f, card, ops[0].offset, ops[0].value);
      var (g, c) := ByteWrite(f, card, ops[0].offset, ops[0].value);
      StreamStaysInRegion(g, c, ops[1..]);
      var (h, last) := RunBytes(g, c, ops[1..]);
      if h.device.erases == f.device.erases {
        forall i | 0 <= i < |card|
          ensures last[i] & card[i] == last[i]
        {
          MaskTransitive(card[i], c[i], last[i]);
        }
      }
    }
  }

  // The words a stream has programmed, oldest first.
  function Accepted(f: Flash, card: Cells, ops: seq<ByteOp>): seq<WordOp>
    requires Sound(f)
    decreases |ops|
  {
    if ops == [] then []
    else
      var (g, c) := ByteWrite(f, card, ops[0].offset, ops[0].value);
      ByteWriteBounds(f, card, ops[0].offset, ops[0].value);
      (if f.pending.Some? && f.device.program == Some(f.pending.value.0) && f.pending.value.0 % 2 == 0
          && ops[0].offset == f.pending.value.0 + 1 && OFFSET + SIZE <= |card|
          && Programs(card, f.pending.value.0, Join(f.pending.value.1, ops[0].value))
       then [WordOp(f.pending.value.0, Join(f.pending.value.1, ops[0].value))] else [])
      + Accepted(g, c, ops[1..])
  }

  // `programmed_bytes` is twice the number of accepted words.
  lemma {:induction false} ProgrammedCountsAccepted(f: Flash, card: Cells, ops: seq<ByteOp>)
    requires Sound(f)
    ensures RunBytes(f, card, ops).0.device.programmed == f.device.programmed + 2 * |Accepted(f, card, ops)|
    decreases |ops|
  {
    if ops != [] {
      var (g, c) := ByteWrite(f, card, ops[0].offset, ops[0].value);
      ByteWriteBounds(f, card, ops[0].offset, ops[0].value);
      if f.pending.Some? {
        WordWriteEffect(f.device, card, f.pending.value.0, Join(f.pending.value.1, ops[0].value));
      }
      hide WordWrite;
      ProgrammedCountsAccepted(g, c, ops[1..]);
    }
  }

  // ---------- a save reads back ----------

  // A program command, one of two, and then the word.
  function ProgramOne(op: WordOp, alternate: bool): seq<WordOp> {
    [WordOp(op.offset, if alternate then 0x1010 else 0x4040), op]
  }

  // Program commands and data for a list of words; each word picks its command.
  function ProgramOps(words: seq<WordOp>, alternates: seq<bool>): seq<WordOp>
    requires |alternates| == |words|
  {
    if words == [] then [] else ProgramOne(words[0], alternates[0]) + ProgramOps(words[1..], alternates[1..])
  }

  function SaveOps(words: seq<WordOp>, alternates: seq<bool>): seq<WordOp>
    requires |alternates| == |words|
  {
    [WordOp(0xfe0000, 0x2020), WordOp(0xfe0000, 0xd0d0)] + ProgramOps(words, alternates)
  }

  predicate DistinctWords(words: seq<WordOp>) {
    && (forall i | 0 <= i < |words| :: 0xfe0000 <= words[i].offset <= 0xfe02c8 && words[i].offset % 2 == 0)
    && forall i, j | 0 <= i < j < |words| :: words[i].offset != words[j].offset
  }

  function StoreWord(card: Cells, op: WordOp): Cells
    requires op.offset + 1 < |card|
  {
    card[op.offset := High(op.word)][op.offset + 1 := Low(op.word)]
  }

  // The card after the listed words are stored.
  function Stored(card: Cells, words: seq<WordOp>): Cells
    requires OFFSET + SIZE <= |card|
    requires forall i | 0 <= i < |words| :: InRegion(words[i].offset)
    decreases |words|
  {
    if words == [] then card
    else
      assert InRegion(words[0].offset);
      Stored(StoreWord(card, words[0]), words[1..])
  }

  predicate Blank(card: Cells, offset: nat)
    requires offset + 1 < |card|
  {
    card[offset] == 0xff && card[offset + 1] == 0xff
  }

  lemma OnesAcceptAnything(data: Byte)
    ensures Clear(0xff, data) == data
  {}

  lemma ProgramOneWord(d: Device, card: Cells, op: WordOp, alternate: bool)
    requires d.program.None? && InRegion(op.offset) && OFFSET + SIZE <= |card| && Blank(card, op.offset)
    ensures RunWords(d, card, ProgramOne(op, alternate))
      == (d.(programmed := d.programmed + 2, status := Some(0x80)),
          StoreWord(card, op))
  {
    var command := WordOp(op.offset, if alternate then 0x1010 else 0x4040);
    OnesAcceptAnything(High(op.word));
    OnesAcceptAnything(Low(op.word));
    var armed := d.(program := Some(op.offset));
    assert WordWrite(d, card, op.offset, command.word) == (armed, card);
    hide High, Low, Clear;
    var next := StoreWord(card, op);
    var done := d.(programmed := d.programmed + 2, status := Some(0x80));
    assert WordWrite(armed, card, op.offset, op.word) == (done, next);
    hide WordWrite;
    assert [command, op][1..] == [op] && [op][1..] == [];
    assert RunWords(d, card, [command, op]) == RunWords(armed, card, [op]);
    assert RunWords(armed, card, [op]) == RunWords(done, next, []);
  }

  lemma {:induction false} RunWordsAppend(d: Device, card: Cells, a: seq<WordOp>, b: seq<WordOp>)
    requires d.program.Some? ==> InRegion(d.program.value)
    ensures var (e, c) := RunWords(d, card, a);
      (e.program.Some? ==> InRegion(e.program.value)) && RunWords(d, card, a + b) == RunWords(e, c, b)
    decreases |a|
  {
    hide WordWrite;
    if a == [] {
      assert a + b == b;
    } else {
      WordKeepsArming(d, card, a[0].offset, a[0].word);
      var (e, c) := WordWrite(d, card, a[0].offset, a[0].word);
      RunWordsAppend(e, c, a[1..], b);
      assert (a + b)[1..] == a[1..] + b;
    }
  }

  lemma {:induction false} ProgramWords(d: Device, card: Cells, words: seq<WordOp>, alternates: seq<bool>)
    requires |alternates| == |words| && d.program.None? && DistinctWords(words) && OFFSET + SIZE <= |card|
    requires forall i | 0 <= i < |words| :: Blank(card, words[i].offset)
    ensures RunWords(d, card, ProgramOps(words, alternates))
         == (d.(programmed := d.programmed + 2 * |words|, status := if words == [] then d.status else Some(0x80)),
             Stored(card, words))
    decreases |words|
  {
    hide WordWrite;
    if words != [] {
      var op, rest := words[0], words[1..];
      ProgramOneWord(d, card, op, alternates[0]);
      RunWordsAppend(d, card, ProgramOne(op, alternates[0]), ProgramOps(rest, alternates[1..]));
      var next := StoreWord(card, op);
      forall i | 0 <= i < |rest|
        ensures InRegion(rest[i].offset) && rest[i].offset % 2 == 0 && Blank(next, rest[i].offset)
      {
        assert rest[i] == words[i + 1] && words[0].offset != words[i + 1].offset;
      }
      ProgramWords(d.(programmed := d.programmed + 2, status := Some(0x80)), next, rest, alternates[1..]);
    }
  }

  // No listed word covers cell k.
  predicate Avoids(words: seq<WordOp>, k: nat) {
    forall i | 0 <= i < |words| :: k != words[i].offset && k != words[i].offset + 1
  }

  lemma {:induction false} StoredElsewhere(card: Cells, words: seq<WordOp>, k: nat)
    requires OFFSET + SIZE <= |card| && DistinctWords(words) && k < |card| && Avoids(words, k)
    ensures |Stored(card, words)| == |card| && Stored(card, words)[k] == card[k]
    decreases |words|
  {
    if words != [] {
      RestDistinct(words);
      assert k != words[0].offset && k != words[0].offset + 1;
      StoredElsewhere(StoreWord(card, words[0]), words[1..], k);
    }
  }

  lemma RestDistinct(words: seq<WordOp>)
    requires words != [] && DistinctWords(words)
    ensures DistinctWords(words[1..]) && InRegion(words[0].offset)
    ensures Avoids(words[1..], words[0].offset) && Avoids(words[1..], words[0].offset + 1)
    ensures forall k: nat :: Avoids(words, k) ==> Avoids(words[1..], k)
  {
    forall i | 0 <= i < |words[1..]|
      ensures words[1..][i] == words[i + 1] && words[i + 1].offset != words[0].offset
      ensures InRegion(words[i + 1].offset) && words[i + 1].offset % 2 == 0
    {
    }
    assert words[0].offset % 2 == 0;
  }

  lemma {:induction false} StoredWord(card: Cells, words: seq<WordOp>, i: nat)
    requires OFFSET + SIZE <= |card| && DistinctWords(words) && i < |words|
    ensures |Stored(card, words)| == |card| && InRegion(words[i].offset)
    ensures Stored(card, words)[words[i].offset] == High(words[i].word)
    ensures Stored(card, words)[words[i].offset + 1] == Low(words[i].word)
    decreases |words|
  {
    RestDistinct(words);
    hide High, Low, Avoids;
    var next := StoreWord(card, words[0]);
    if i == 0 {
      StoredElsewhere(next, words[1..], words[0].offset);
      StoredElsewhere(next, words[1..], words[0].offset + 1);
    } else {
      StoredWord(next, words[1..], i - 1);
    }
  }

  lemma EraseFirst(d: Device, card: Cells)
    requires d.program.None? && OFFSET + SIZE <= |card|
    ensures RunWords(d, card, [WordOp(OFFSET, 0x2020), WordOp(OFFSET, 0xd0d0)])
         == (d.(erase := false, erases := d.erases + 1, status := Some(0x80)), Erased(card))
  {
    var ops := [WordOp(OFFSET, 0x2020), WordOp(OFFSET, 0xd0d0)];
    assert ops[1..] == [WordOp(OFFSET, 0xd0d0)] && ops[1..][1..] == [];
    var armed := d.(erase := true);
    var done := d.(erase := false, erases := d.erases + 1, status := Some(0x80));
    assert WordWrite(d, card, OFFSET, 0x2020) == (armed, card);
    assert WordWrite(armed, card, OFFSET, 0xd0d0) == (done, Erased(card));
    hide WordWrite;
    assert RunWords(d, card, ops) == RunWords(armed, card, ops[1..]);
    assert RunWords(armed, card, ops[1..]) == RunWords(done, Erased(card), []);
  }

  // Erase and then program any distinct words of the region, whatever their
  // values, through byte lanes: the region holds exactly those words, 0xff
  // elsewhere, the rest of the card is untouched and the counters say so.
  lemma SaveReadsBack(d: Device, card: Cells, words: seq<WordOp>, alternates: seq<bool>)
    requires |alternates| == |words| && d.program.None? && DistinctWords(words) && 0xfe02ca <= |card|
    ensures var (f, c) := RunBytes(Flash(None, d), card, Lanes(SaveOps(words, alternates)));
      && f == Flash(None, d.(erase := false, erases := d.erases + 1,
                             programmed := d.programmed + 2 * |words|, status := Some(0x80)))
      && |c| == |card|
      && (forall i | 0 <= i < |words| :: Joined(c[words[i].offset], c[words[i].offset + 1], words[i].word))
      && (forall k | 0 <= k < |card| && Avoids(words, k) :: c[k] == if Touches(k) then 0xff else card[k])
  {
    hide WordWrite, RunBytes, Lanes, RunWords, High, Low, Join, Joined, Stored, ProgramOps;
    var erase := [WordOp(OFFSET, 0x2020), WordOp(OFFSET, 0xd0d0)];
    EraseFirst(d, card);
    RunWordsAppend(d, card, erase, ProgramOps(words, alternates));
    var e := d.(erase := false, erases := d.erases + 1, status := Some(0x80));
    forall i | 0 <= i < |words| ensures Blank(Erased(card), words[i].offset) {
      assert InRegion(words[i].offset);
    }
    ProgramWords(e, Erased(card), words, alternates);
    StoredLength(Erased(card), words);
    ProgramOpsEven(words, alternates);
    PairedLanesAreWords(d, card, SaveOps(words, alternates));
    forall i | 0 <= i < |words|
      ensures Joined(Stored(Erased(card), words)[words[i].offset], Stored(Erased(card), words)[words[i].offset + 1],
        words[i].word)
    {
      StoredWord(Erased(card), words, i);
      SplitJoins(words[i].word);
    }
    forall k | 0 <= k < |card| && Avoids(words, k)
      ensures Stored(Erased(card), words)[k] == if Touches(k) then 0xff else card[k]
    {
      StoredElsewhere(Erased(card), words, k);
    }
  }

  lemma {:induction false} StoredLength(card: Cells, words: seq<WordOp>)
    requires OFFSET + SIZE <= |card| && DistinctWords(words)
    ensures |Stored(card, words)| == |card|
    decreases |words|
  {
    if words != [] {
      RestDistinct(words);
      StoredLength(StoreWord(card, words[0]), words[1..]);
    }
  }

  lemma {:induction false} ProgramOpsEven(words: seq<WordOp>, alternates: seq<bool>)
    requires |alternates| == |words|
    requires forall i | 0 <= i < |words| :: words[i].offset % 2 == 0
    ensures forall i | 0 <= i < |ProgramOps(words, alternates)| :: ProgramOps(words, alternates)[i].offset % 2 == 0
    decreases |words|
  {
    if words != [] { ProgramOpsEven(words[1..], alternates[1..]); }
  }
}
