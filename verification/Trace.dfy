// The rolling observation trace. Files are sequences of complete records, written
// through a buffered writer; every I/O operation may fail, as the oracle `io`
// decides. The ghost history holds every record the writer ever took, so the
// theorems say which of them are on disk.
module Trace {
  import opened Bits
  import opened Text

  const BACKUPS: nat := 3
  const MAX_RECORD_BYTES: nat := 65536

  datatype Record = Record(sequence: nat, text: string)

  type File = seq<Record>

  // File 0 is the current segment, file i its i-th rotated predecessor.
  type Disk = map<nat, File>

  function FileAt(disk: Disk, i: nat): File { if i in disk then disk[i] else [] }

  function Bytes(file: File): nat {
    if file == [] then 0 else Bytes(file[..|file| - 1]) + |file[|file| - 1].text|
  }

  // What an I/O operation does. A broken flush has still got `kept` of the
  // buffered records into the file, what a dropped writer rescues included.
  datatype Io = Done | Broken(kept: nat)

  // What a reader finds going from the oldest segment to the current one.
  function Retained(disk: Disk): seq<Record> {
    FileAt(disk, 3) + FileAt(disk, 2) + FileAt(disk, 1) + FileAt(disk, 0)
  }

  // Rename segment i, if there is one, to make it one place older.
  function Older(disk: Disk, i: nat): Disk {
    if i in disk then (disk - {i})[i + 1 := disk[i]] else disk
  }

  // The disk once the segments above `index` have been made older.
  function Shifted(disk: Disk, index: nat): Disk
    decreases 2 - index
  {
    if index >= 2 then disk - {3} else Older(Shifted(disk, index + 1), index + 1)
  }

  // Every segment one place older, and a new empty current one.
  function Rotated(disk: Disk): Disk { Older(Shifted(disk, 0), 0)[0 := []] }

  lemma RotatedFiles(disk: Disk, i: nat)
    requires i <= 3 && forall k | k in disk :: k <= 3
    ensures i in Rotated(disk) <==> i == 0 || i - 1 in disk
    ensures FileAt(Rotated(disk), i) == if i == 0 then [] else FileAt(disk, i - 1)
    ensures forall k | k in Rotated(disk) :: k <= 3
  {
    assert Shifted(disk, 1) == Older(disk - {3}, 2);
    assert Shifted(disk, 0) == Older(Shifted(disk, 1), 1);
  }

  // The current segment with more records behind it.
  function Opened(disk: Disk, more: File): Disk { disk[0 := FileAt(disk, 0) + more] }

  function Appended(disk: Disk, record: Record, limit: nat): (next: Disk)
    ensures 0 in next
  {
    var open := if Bytes(FileAt(disk, 0)) + |record.text| > limit then Rotated(disk) else disk;
    Opened(open, [record])
  }

  // The disk after the records are written one by one to a fresh directory.
  function Stored(records: seq<Record>, limit: nat): (disk: Disk)
    ensures 0 in disk
  {
    if records == [] then map[0 := []]
    else Appended(Stored(records[..|records| - 1], limit), records[|records| - 1], limit)
  }

  predicate IsSuffix<T(==)>(a: seq<T>, b: seq<T>) { |a| <= |b| && a == b[|b| - |a|..] }

  // Records carry consecutive sequence numbers from 1.
  predicate Numbered(written: seq<Record>) {
    forall i | 0 <= i < |written| :: written[i].sequence == i + 1
  }

  predicate Bounded(disk: Disk, limit: nat) {
    forall i | i in disk :: i <= BACKUPS && Bytes(disk[i]) <= limit
  }

  // ---------- records ----------

  // `kind` and `detail` are already encoded as JSON strings.
  function Encoded(sequence: nat, insns: nat, pc: nat, navigation: nat, kind: string, detail: string): string {
    "{\"seq\":" + (Decimal(sequence) + (",\"insns\":" + (Decimal(insns) + (",\"pc\":\"0x" + (Hex(pc, 8)
    + ("\",\"navigation\":" + (Decimal(navigation) + (",\"kind\":" + Contents(kind, detail)))))))))
  }

  function Contents(kind: string, detail: string): string { kind + ",\"detail\":" + detail + "}\n" }

  function OmissionDetail(limit: nat, length: nat): string {
    "\"record exceeded " + Decimal(limit) + " bytes; original encoded length=" + Decimal(length) + "\""
  }

  function Omission(sequence: nat, insns: nat, pc: nat, navigation: nat, limit: nat, length: nat): string {
    Encoded(sequence, insns, pc, navigation, "\"trace_record_omitted\"", OmissionDetail(limit, length))
  }

  // The record an event leaves: itself, or the mark of a gap if it is too long.
  function Fitted(sequence: nat, insns: nat, pc: nat, navigation: nat, kind: string, detail: string,
      limit: nat): string {
    var record := Encoded(sequence, insns, pc, navigation, kind, detail);
    if |record| > limit then Omission(sequence, insns, pc, navigation, limit, |record|) else record
  }

  // What a reader of the file finds in a record.
  datatype Header = Header(sequence: nat, insns: nat, pc: string, navigation: nat, contents: string)

  // The rest of a text behind a mark.
  function Behind(text: string, mark: string): Option<string> {
    if mark <= text then Some(text[|mark|..]) else None
  }

  // A number behind a mark, and the rest.
  function NumberBehind(text: string, mark: string): Option<(nat, string)> {
    var rest := Behind(text, mark);
    if rest.Some? && !NoDigit(rest.value) then Some(ReadDecimal(rest.value, 0)) else None
  }

  function ReadHeader(text: string): Option<Header> {
    var sequence := NumberBehind(text, "{\"seq\":");
    if sequence.None? then None else
    var insns := NumberBehind(sequence.value.1, ",\"insns\":");
    if insns.None? then None else
    var pc := Behind(insns.value.1, ",\"pc\":\"0x");
    if pc.None? || |pc.value| < 8 then None else
    var navigation := NumberBehind(pc.value[8..], "\",\"navigation\":");
    if navigation.None? then None else
    var contents := Behind(navigation.value.1, ",\"kind\":");
    if contents.None? then None
    else Some(Header(sequence.value.0, insns.value.0, pc.value[..8], navigation.value.0, contents.value))
  }

  lemma MarkReads(mark: string, rest: string)
    ensures Behind(mark + rest, mark) == Some(rest)
  {
    assert mark <= mark + rest && (mark + rest)[|mark|..] == rest;
  }

  lemma NumberReads(mark: string, n: nat, rest: string)
    requires NoDigit(rest)
    ensures NumberBehind(mark + (Decimal(n) + rest), mark) == Some((n, rest))
  {
    MarkReads(mark, Decimal(n) + rest);
    DecimalReads(n, rest);
    DecimalStarts(n);
    assert (Decimal(n) + rest)[0] == Decimal(n)[0];
    hide Decimal, Behind, ReadDecimal;
  }

  lemma {:induction false} DecimalStarts(n: nat)
    ensures IsDigit(Decimal(n)[0])
  {
    if n >= 10 { DecimalStarts(n / 10); } else { DigitReads(n); }
  }

  // A record reads back: its numbers, eight digits of the program counter, and
  // kind and detail.
  lemma EncodedReads(sequence: nat, insns: nat, pc: nat, navigation: nat, kind: string, detail: string)
    ensures ReadHeader(Encoded(sequence, insns, pc, navigation, kind, detail))
         == Some(Header(sequence, insns, Hex(pc, 8), navigation, kind + ",\"detail\":" + detail + "}\n"))
  {
    hide Decimal, Hex, NumberBehind, Behind;
    var contents := Contents(kind, detail);
    var r4 := ",\"kind\":" + contents;
    var r3 := "\",\"navigation\":" + (Decimal(navigation) + r4);
    var r2 := ",\"pc\":\"0x" + (Hex(pc, 8) + r3);
    var r1 := ",\"insns\":" + (Decimal(insns) + r2);
    assert NoDigit(r1) && NoDigit(r2) && NoDigit(r4);
    NumberReads("{\"seq\":", sequence, r1);
    NumberReads(",\"insns\":", insns, r2);
    MarkReads(",\"pc\":\"0x", Hex(pc, 8) + r3);
    EightThen(Hex(pc, 8), r3);
    NumberReads("\",\"navigation\":", navigation, r4);
    MarkReads(",\"kind\":", contents);
  }

  lemma EightThen(a: string, b: string)
    requires |a| == 8
    ensures |a + b| >= 8 && (a + b)[..8] == a && (a + b)[8..] == b
  {}

  // The sequence number a record shows, and the same for an omission.
  function ShownSequence(text: string): Option<nat> {
    var header := ReadHeader(text);
    if header.Some? then Some(header.value.sequence) else None
  }

  // Every record shows its own numbers; one that is too long is replaced by a mark
  // that says so.
  lemma FittedReads(sequence: nat, insns: nat, pc: nat, navigation: nat, kind: string, detail: string, limit: nat)
    ensures var header := ReadHeader(Fitted(sequence, insns, pc, navigation, kind, detail, limit));
      var length := |Encoded(sequence, insns, pc, navigation, kind, detail)|;
      && header.Some? && header.value.sequence == sequence && header.value.insns == insns
      && header.value.pc == Hex(pc, 8) && header.value.navigation == navigation
      && header.value.contents ==
           if length <= limit then kind + ",\"detail\":" + detail + "}\n"
           else "\"trace_record_omitted\"" + ",\"detail\":" + OmissionDetail(limit, length) + "}\n"
  {
    EncodedReads(sequence, insns, pc, navigation, kind, detail);
    var length := |Encoded(sequence, insns, pc, navigation, kind, detail)|;
    EncodedReads(sequence, insns, pc, navigation, "\"trace_record_omitted\"", OmissionDetail(limit, length));
    hide Encoded, ReadHeader, OmissionDetail;
  }

  // A record reads back as an event's.
  predicate ShowsEvent(text: string, sequence: nat, insns: nat, pc: nat, navigation: nat) {
    var header := ReadHeader(text);
    header.Some? && header.value.sequence == sequence && header.value.insns == insns
    && header.value.pc == Hex(pc, 8) && header.value.navigation == navigation
  }

  lemma FittedShows(sequence: nat, insns: nat, pc: nat, navigation: nat, kind: string, detail: string, limit: nat)
    ensures var text := Fitted(sequence, insns, pc, navigation, kind, detail, limit);
      ShowsEvent(text, sequence, insns, pc, navigation) && ShownSequence(text) == Some(sequence)
  {
    FittedReads(sequence, insns, pc, navigation, kind, detail, limit);
    hide Fitted, ReadHeader, Hex;
  }

  // The mark says the limit and the length that exceeded it.
  lemma OmissionReads(limit: nat, length: nat)
    ensures var shown := NumberBehind(OmissionDetail(limit, length), "\"record exceeded ");
      && shown.Some? && shown.value.0 == limit
      && NumberBehind(shown.value.1, " bytes; original encoded length=") == Some((length, "\""))
  {
    hide Decimal, NumberBehind;
    var tail := " bytes; original encoded length=" + (Decimal(length) + "\"");
    assert OmissionDetail(limit, length) == "\"record exceeded " + (Decimal(limit) + tail);
    assert NoDigit(tail) && NoDigit("\"");
    NumberReads("\"record exceeded ", limit, tail);
    NumberReads(" bytes; original encoded length=", length, "\"");
  }

  // The omission record is at most 256 bytes, whatever it stands for.
  lemma OmissionIsShort(sequence: nat, insns: nat, pc: nat, navigation: nat, limit: nat, length: nat)
    requires sequence <= U64_MAX && insns <= U64_MAX && navigation <= U64_MAX
    requires limit <= U64_MAX && length <= U64_MAX
    ensures |Omission(sequence, insns, pc, navigation, limit, length)| <= 256
  {
    WordDigits(sequence);
    WordDigits(insns);
    WordDigits(navigation);
    WordDigits(limit);
    WordDigits(length);
    hide Decimal, Hex;
    assert |OmissionDetail(limit, length)| <= 90;
  }

  lemma FittedFits(sequence: nat, insns: nat, pc: nat, navigation: nat, kind: string, detail: string, limit: nat)
    requires sequence <= U64_MAX && insns <= U64_MAX && navigation <= U64_MAX
    requires 512 <= limit <= U64_MAX
    requires |Encoded(sequence, insns, pc, navigation, kind, detail)| <= U64_MAX
    ensures |Fitted(sequence, insns, pc, navigation, kind, detail, limit)| <= limit
  {
    OmissionIsShort(sequence, insns, pc, navigation, limit, |Encoded(sequence, insns, pc, navigation, kind, detail)|);
    hide Encoded, Omission;
  }

  predicate AllFit(records: seq<Record>, limit: nat) {
    forall i | 0 <= i < |records| :: |records[i].text| <= limit
  }

  // Every record shows its own sequence number.
  predicate Labelled(records: seq<Record>) {
    forall i | 0 <= i < |records| :: ShownSequence(records[i].text) == Some(records[i].sequence)
  }

  lemma LabelledGrows(written: seq<Record>, record: Record)
    requires Labelled(written) && ShownSequence(record.text) == Some(record.sequence)
    ensures Labelled(written + [record])
  {
    hide ShownSequence;
  }

  lemma StoredGrows(written: seq<Record>, record: Record, limit: nat)
    ensures AllFit(written, limit) && |record.text| <= limit ==> AllFit(written + [record], limit)
    ensures Stored(written + [record], limit) == Appended(Stored(written, limit), record, limit)
  {
    hide Appended;
    assert (written + [record])[..|written|] == written;
  }

  // ---------- disk operations keep a contiguous suffix ----------

  lemma SuffixOfSuffix<T>(a: seq<T>, b: seq<T>, c: seq<T>)
    requires IsSuffix(a + b, c)
    ensures IsSuffix(b, c)
  {
    assert b == (a + b)[|a|..];
  }

  lemma RemoveOldest(disk: Disk, written: seq<Record>, limit: nat)
    requires Bounded(disk, limit) && IsSuffix(Retained(disk), written)
    ensures Bounded(disk - {3}, limit) && IsSuffix(Retained(disk - {3}), written)
  {
    var next := disk - {3};
    SameFile(disk, next, 0);
    SameFile(disk, next, 1);
    SameFile(disk, next, 2);
    assert FileAt(next, 3) == [];
    hide FileAt, IsSuffix;
    var rest := FileAt(disk, 2) + FileAt(disk, 1) + FileAt(disk, 0);
    FourFiles(FileAt(disk, 3), FileAt(disk, 2), FileAt(disk, 1), FileAt(disk, 0));
    FourFiles([], FileAt(disk, 2), FileAt(disk, 1), FileAt(disk, 0));
    assert [] + rest == rest;
    SuffixOfSuffix(FileAt(disk, 3), rest, written);
  }

  lemma FourFiles(a: File, b: File, c: File, d: File)
    ensures a + b + c + d == a + (b + c + d)
  {}

  lemma SameFile(disk: Disk, next: Disk, i: nat)
    requires i in disk <==> i in next
    requires i in disk ==> next[i] == disk[i]
    ensures FileAt(next, i) == FileAt(disk, i)
  {}

  lemma RenameKeeps(disk: Disk, i: nat, limit: nat)
    requires i < BACKUPS && i in disk && i + 1 !in disk && Bounded(disk, limit)
    ensures Bounded(Older(disk, i), limit) && Retained(Older(disk, i)) == Retained(disk)
  {
    var next := Older(disk, i);
    assert FileAt(next, i + 1) == FileAt(disk, i) && FileAt(next, i) == [] == FileAt(disk, i + 1);
    RenameLeaves(disk, i, 0);
    RenameLeaves(disk, i, 1);
    RenameLeaves(disk, i, 2);
    RenameLeaves(disk, i, 3);
    RenameBounded(disk, i, limit);
    hide FileAt, Bounded, Older;
    match i {
      case 0 => NothingAfter(FileAt(disk, 3) + FileAt(disk, 2), FileAt(disk, 0));
      case 1 => NothingAfter(FileAt(disk, 3), FileAt(disk, 1));
      case 2 => NothingAfter([], FileAt(disk, 2));
    }
  }

  lemma NothingAfter(a: File, b: File)
    ensures a + b + [] == a + [] + b && [] + b == b + [] == b
  {}

  lemma RenameLeaves(disk: Disk, i: nat, j: nat)
    ensures j != i && j != i + 1 ==> FileAt(Older(disk, i), j) == FileAt(disk, j)
  {}

  lemma RenameBounded(disk: Disk, i: nat, limit: nat)
    requires i < BACKUPS && Bounded(disk, limit)
    ensures Bounded(Older(disk, i), limit)
  {
    hide Bytes;
  }

  lemma CreateKeeps(disk: Disk, limit: nat)
    requires 0 !in disk && Bounded(disk, limit)
    ensures Bounded(disk[0 := []], limit) && Retained(disk[0 := []]) == Retained(disk)
  {}

  lemma RetainedOpened(disk: Disk, more: File)
    ensures Retained(Opened(disk, more)) == Retained(disk) + more
  {
    var next := Opened(disk, more);
    assert FileAt(next, 1) == FileAt(disk, 1) && FileAt(next, 2) == FileAt(disk, 2)
        && FileAt(next, 3) == FileAt(disk, 3);
    assert FileAt(next, 0) == FileAt(disk, 0) + more;
    hide FileAt;
    LastGrows(FileAt(disk, 3) + FileAt(disk, 2) + FileAt(disk, 1), FileAt(disk, 0), more);
  }

  lemma BoundedOpened(disk: Disk, more: File, limit: nat)
    requires Bounded(disk, limit) && Bytes(FileAt(disk, 0) + more) <= limit
    ensures Bounded(Opened(disk, more), limit)
  {
    hide Bytes;
  }

  lemma OpenedTwice(disk: Disk, a: File, b: File)
    ensures Opened(Opened(disk, a), b) == Opened(disk, a + b)
    ensures FileAt(Opened(disk, a), 0) + b == FileAt(disk, 0) + (a + b)
  {
    LastGrows(FileAt(disk, 0), a, b);
    assert Opened(Opened(disk, a), b) == disk[0 := FileAt(disk, 0) + a + b];
  }

  lemma LastGrows(a: File, b: File, c: File)
    ensures a + (b + c) == a + b + c
  {}

  lemma {:induction false} BytesSplit(a: File, b: File)
    ensures Bytes(a + b) == Bytes(a) + Bytes(b)
  {
    if b == [] {
      assert a + b == a;
    } else {
      var init, last := b[..|b| - 1], b[|b| - 1];
      assert a + b == (a + init) + [last] && b == init + [last];
      BytesAppend(a + init, last);
      BytesAppend(init, last);
      BytesSplit(a, init);
    }
  }

  // ---------- the buffered writer keeps a contiguous suffix ----------

  // Segments, then the buffer, then what a failed flush has lost: together they
  // end the history, and the last two fit the writer's buffer.
  ghost predicate Held(disk: Disk, buffer: File, lost: File, written: File, limit: nat, capacity: nat) {
    && Bounded(disk, limit) && Numbered(written)
    && IsSuffix(Retained(disk) + buffer + lost, written)
    && Bytes(buffer) + Bytes(lost) <= capacity
  }

  // A flush moves records from the front of the buffer to the current segment.
  lemma DrainKeeps(disk: Disk, buffer: File, kept: nat, written: File, limit: nat, capacity: nat)
    requires kept <= |buffer| && Held(disk, buffer, [], written, limit, capacity)
    requires Bytes(FileAt(disk, 0) + buffer) <= limit
    ensures var next, rest := Opened(disk, buffer[..kept]), buffer[kept..];
      && Held(next, rest, [], written, limit, capacity)
      && Opened(next, rest) == Opened(disk, buffer) && FileAt(next, 0) + rest == FileAt(disk, 0) + buffer
  {
    hide Opened, Retained, FileAt, Bytes, Bounded, Numbered, IsSuffix;
    var front, rest, base := buffer[..kept], buffer[kept..], FileAt(disk, 0);
    assert front + rest == buffer;
    LastGrows(base, front, rest);
    BytesSplit(front, rest);
    BytesSplit(base + front, rest);
    OpenedTwice(disk, front, rest);
    BoundedOpened(disk, front, limit);
    RetainedOpened(disk, front);
    LastGrows(Retained(disk), front, rest);
    EmptyHasNoBytes();
  }

  // What a failed flush leaves in a dropped writer is lost.
  lemma LossKeeps(disk: Disk, buffer: File, written: File, limit: nat, capacity: nat)
    requires Held(disk, buffer, [], written, limit, capacity)
    ensures Held(disk, [], buffer, written, limit, capacity)
  {
    hide Retained, Bounded, Numbered, IsSuffix;
    NothingMore(Retained(disk) + buffer);
    NothingMore(Retained(disk));
  }

  // The buffer takes a record that fits it.
  lemma BufferKeeps(disk: Disk, buffer: File, record: Record, written: File, limit: nat, capacity: nat)
    requires Held(disk, buffer, [], written, limit, capacity)
    requires Bytes(buffer) + |record.text| <= capacity && record.sequence == |written| + 1
    ensures Held(disk, buffer + [record], [], written + [record], limit, capacity)
  {
    hide Retained, Bounded, Bytes, IsSuffix, Numbered;
    BytesAppend(buffer, record);
    NumberedGrows(written, record);
    NothingMore(Retained(disk) + buffer);
    NothingMore(Retained(disk) + (buffer + [record]));
    LastGrows(Retained(disk), buffer, [record]);
    SuffixAppend(Retained(disk) + buffer, written, record);
  }

  // A longer record goes straight to the file, behind a buffer without bytes.
  lemma DirectKeeps(disk: Disk, buffer: File, record: Record, written: File, limit: nat, capacity: nat)
    requires Held(disk, buffer, [], written, limit, capacity) && record.sequence == |written| + 1
    requires Bytes(FileAt(disk, 0) + (buffer + [record])) <= limit
    ensures Held(Opened(disk, buffer + [record]), [], [], written + [record], limit, capacity)
    ensures FileAt(Opened(disk, buffer + [record]), 0) + [] == FileAt(disk, 0) + (buffer + [record])
    ensures Opened(Opened(disk, buffer + [record]), []) == Opened(disk, buffer + [record])
  {
    hide Retained, Bounded, IsSuffix, Opened, FileAt, Bytes, Numbered;
    BoundedOpened(disk, buffer + [record], limit);
    RetainedOpened(disk, buffer + [record]);
    OpenedTwice(disk, buffer + [record], []);
    EmptyHasNoBytes();
    NumberedGrows(written, record);
    LastGrows(Retained(disk), buffer, [record]);
    NothingMore(Retained(disk) + buffer);
    NothingMore(Retained(disk) + (buffer + [record]));
    NothingMore(buffer + [record]);
    SuffixAppend(Retained(disk) + buffer, written, record);
  }

  lemma NothingMore(a: File)
    ensures a + [] == a
  {}

  lemma NumberedGrows(written: File, record: Record)
    requires Numbered(written) && record.sequence == |written| + 1
    ensures Numbered(written + [record])
  {}

  // What a flush leaves of the buffer.
  function Left(result: Io, buffer: File): File {
    match result
    case Done => []
    case Broken(kept) => buffer[Min(kept, |buffer|)..]
  }

  // One flush: the operation it was, whether a rotation made it, and how many
  // records were buffered.
  datatype FlushCall = FlushCall(operation: nat, rotating: bool, held: nat)

  // A rotation whose flush breaks before the buffer is empty drops the rest.
  predicate Drops(io: nat -> Io, call: FlushCall) {
    call.rotating && io(call.operation).Broken? && io(call.operation).kept < call.held
  }

  // Records are lost exactly when some flush dropped them, and it dropped all
  // that are lost.
  ghost predicate LossExplained(io: nat -> Io, flushes: seq<FlushCall>, lost: File) {
    && (lost != [] <==> exists i :: 0 <= i < |flushes| && Drops(io, flushes[i]))
    && (forall i | 0 <= i < |flushes| && Drops(io, flushes[i]) ::
          |lost| == flushes[i].held - io(flushes[i].operation).kept)
  }

  lemma LossGrows(io: nat -> Io, flushes: seq<FlushCall>, call: FlushCall, buffer: File)
    requires LossExplained(io, flushes, []) && call.held == |buffer|
    ensures LossExplained(io, flushes + [call], if call.rotating then Left(io(call.operation), buffer) else [])
  {
    var grown := flushes + [call];
    var lost := if call.rotating then Left(io(call.operation), buffer) else [];
    assert grown[|flushes|] == call;
    assert forall i | 0 <= i < |flushes| :: grown[i] == flushes[i] && !Drops(io, flushes[i]);
    assert lost != [] <==> Drops(io, call);
  }

  // A disk operation that keeps what is retained, with nothing buffered.
  lemma DiskKeeps(disk: Disk, next: Disk, written: File, limit: nat, capacity: nat)
    requires Held(disk, [], [], written, limit, capacity)
    requires Bounded(next, limit) && IsSuffix(Retained(next), written)
    ensures Held(next, [], [], written, limit, capacity)
  {
    hide Retained, Bounded, IsSuffix;
    NothingMore(Retained(next));
  }

  lemma HeldSuffix(disk: Disk, written: File, limit: nat, capacity: nat)
    requires Held(disk, [], [], written, limit, capacity)
    ensures IsSuffix(Retained(disk), written) && Bounded(disk, limit)
  {
    hide Retained, Bounded, IsSuffix;
    NothingMore(Retained(disk));
  }

  lemma BytesAppend(file: File, record: Record)
    ensures Bytes(file + [record]) == Bytes(file) + |record.text|
    ensures Bytes([]) == 0
  {
    assert (file + [record])[..|file|] == file;
  }

  lemma SuffixAppend<T>(a: seq<T>, b: seq<T>, x: T)
    requires IsSuffix(a, b)
    ensures IsSuffix(a + [x], b + [x])
  {}

  lemma FreshTrace(io: nat -> Io, limit: nat, capacity: nat)
    ensures Held(map[0 := []], [], [], [], limit, capacity) && LossExplained(io, [], []) && AllFit([], limit)
    ensures Opened(map[0 := []], []) == Stored([], limit) == map[0 := []]
    ensures FileAt(map[0 := []], 0) + [] == [] && Bytes([]) == 0
  {}

  // ---------- the trace ----------

  class Trace {
    const io: nat -> Io          // what the n-th I/O operation does
    const segmentLimit: nat
    const capacity: nat          // bytes the buffered writer holds back
    var operations: nat
    var disk: Disk
    var buffer: File             // records the writer has taken and not yet put in the file
    var writer: bool
    var failed: bool             // the sticky error
    var segmentBytes: nat
    var sequence: nat
    var navigation: nat
    var concise: bool

    ghost var written: File      // every record the writer has taken
    ghost var lost: File         // records dropped with a writer whose flush failed
    ghost var flushes: seq<FlushCall>

    ghost predicate OnDisk()
      reads this`disk, this`buffer, this`lost, this`written
    {
      Held(disk, buffer, lost, written, segmentLimit, capacity)
    }

    ghost predicate Accounted()
      reads this`lost, this`flushes, this`buffer
    {
      LossExplained(io, flushes, lost) && (lost != [] ==> buffer == [])
    }

    // The writer is open on the current segment, which has room.
    ghost predicate Open()
      reads this`disk, this`buffer, this`lost
    {
      0 in disk && lost == [] && Bytes(FileAt(disk, 0) + buffer) <= segmentLimit
    }

    ghost predicate Valid()
      reads this
    {
      && 512 <= segmentLimit <= U64_MAX
      && OnDisk() && Accounted() && AllFit(written, segmentLimit) && Labelled(written)
      && (!failed ==>
            && writer && Open() && segmentBytes == Bytes(FileAt(disk, 0) + buffer) && |written| == sequence
            && Opened(disk, buffer) == Stored(written, segmentLimit))
    }

    // Opens a trace in a fresh directory; opening itself has succeeded.
    constructor (io: nat -> Io, segmentLimit: nat, capacity: nat)
      requires 512 <= segmentLimit <= U64_MAX
      ensures Valid() && !failed && written == [] && sequence == 0
      ensures operations == 0 && buffer == [] && segmentBytes == 0 && disk == map[0 := []] && lost == []
      ensures !concise && navigation == 0
      ensures this.io == io && this.segmentLimit == segmentLimit && this.capacity == capacity
    {
      FreshTrace(io, segmentLimit, capacity);
      hide Held, LossExplained, AllFit, Stored, Opened, Bytes, FileAt, ShownSequence;
      this.io, this.segmentLimit, this.capacity := io, segmentLimit, capacity;
      operations := 0;
      disk, buffer := map[0 := []], [];
      writer, failed, segmentBytes := true, false, 0;
      sequence, navigation, concise := 0, 0, false;
      written, lost, flushes := [], [], [];
    }

    method Attempt() returns (result: Io)
      modifies this`operations
      ensures operations == old(operations) + 1 && result == io(old(operations))
    {
      result := io(operations);
      operations := operations + 1;
    }

    // Put the buffered records in the file; false leaves those it did not get to.
    method Flush(ghost rotating: bool) returns (ok: bool)
      requires OnDisk() && Open()
      modifies this`disk, this`buffer, this`operations, this`flushes
      ensures OnDisk() && Open()
      ensures Opened(disk, buffer) == old(Opened(disk, buffer))
      ensures FileAt(disk, 0) + buffer == old(FileAt(disk, 0) + buffer)
      ensures ok ==> disk == old(Opened(disk, buffer))
      ensures buffer == Left(io(old(operations)), old(buffer))
      ensures operations == old(operations) + 1 && (ok <==> io(old(operations)).Done?)
      ensures flushes == old(flushes) + [FlushCall(old(operations), rotating, |old(buffer)|)]
    {
      hide Held, Bytes;
      flushes := flushes + [FlushCall(operations, rotating, |buffer|)];
      var result := Attempt();
      var kept := if result.Done? then |buffer| else Min(result.kept, |buffer|);
      DrainKeeps(disk, buffer, kept, written, segmentLimit, capacity);
      assert result.Done? ==> buffer[..kept] == buffer && buffer[kept..] == [];
      disk := Opened(disk, buffer[..kept]);
      buffer := buffer[kept..];
      ok := result.Done?;
    }

    // The text does not fit the segment, so the segments rotate.
    predicate Rotates(segmentBytes: nat, text: string) { segmentBytes + |text| > segmentLimit }

    // The text fits segment and buffer, so it is only buffered.
    predicate Fits(segmentBytes: nat, buffer: File, text: string) {
      !Rotates(segmentBytes, text) && |text| < capacity && Bytes(buffer) + |text| <= capacity
    }

    // `lowLevel` marks register and guest-internal detail.
    method Event(insns: nat, pc: nat, kind: string, detail: string, lowLevel: bool)
      requires Valid() && insns <= U64_MAX && navigation <= U64_MAX && sequence < U64_MAX
      requires |Encoded(sequence + 1, insns, pc, navigation, kind, detail)| <= U64_MAX
      modifies this
      ensures Valid()
      ensures old(failed) || (concise && lowLevel) ==> unchanged(this)
      ensures !old(failed) && !(concise && lowLevel) ==> sequence == old(sequence) + 1
      ensures !failed && !(concise && lowLevel) ==>
        written == old(written)
          + [Record(old(sequence) + 1, Fitted(old(sequence) + 1, insns, pc, navigation, kind, detail,
                                              Min(65_536, segmentLimit)))]
      ensures failed ==> written == old(written)
      ensures !failed && !(concise && lowLevel) ==>
        |written| > 0 && ShowsEvent(written[|written| - 1].text, old(sequence) + 1, insns, pc, navigation)
      ensures (forall n | old(operations) <= n < operations :: io(n).Done?) && !old(failed) ==> !failed
      ensures concise == old(concise) && navigation == old(navigation)
      ensures lost ==
        if !old(failed) && !(concise && lowLevel)
           && Rotates(old(segmentBytes), Fitted(old(sequence) + 1, insns, pc, navigation, kind, detail,
                                                Min(65_536, segmentLimit)))
        then Left(io(old(operations)), old(buffer)) else old(lost)
      ensures !old(failed) && !(concise && lowLevel) ==>
        var text := Fitted(old(sequence) + 1, insns, pc, navigation, kind, detail, Min(65_536, segmentLimit));
        Fits(old(segmentBytes), old(buffer), text) ==>
          !failed && operations == old(operations) && disk == old(disk)
          && buffer == old(buffer) + [Record(old(sequence) + 1, text)]
    {
      hide Held, Bytes, Stored, Encoded, Fitted, AllFit, Opened, FileAt, Left, LossExplained, Labelled;
      hide ShowsEvent, ShownSequence;
      if failed || (concise && lowLevel) {
        return;
      }
      sequence := sequence + 1;
      var record := Compose(sequence, insns, pc, kind, detail);
      FittedShows(sequence, insns, pc, navigation, kind, detail, Min(MAX_RECORD_BYTES, segmentLimit));
      Commit(Record(sequence, record));
    }

    // Write a record; an error is final.
    method Commit(record: Record)
      requires 512 <= segmentLimit <= U64_MAX && OnDisk() && Accounted() && AllFit(written, segmentLimit) && !failed
      requires Labelled(written) && ShownSequence(record.text) == Some(record.sequence)
      requires writer && Open() && segmentBytes == Bytes(FileAt(disk, 0) + buffer)
      requires Opened(disk, buffer) == Stored(written, segmentLimit)
      requires |written| + 1 == sequence == record.sequence && |record.text| <= segmentLimit
      modifies this`disk, this`buffer, this`writer, this`segmentBytes, this`operations
      modifies this`written, this`lost, this`flushes, this`failed
      ensures Valid()
      ensures written == if failed then old(written) else old(written) + [record]
      ensures operations >= old(operations)
      ensures (forall n | old(operations) <= n < operations :: io(n).Done?) ==> !failed
      ensures lost == if Rotates(old(segmentBytes), record.text) then Left(io(old(operations)), old(buffer))
          else old(lost)
      ensures Fits(old(segmentBytes), old(buffer), record.text) ==>
        !failed && operations == old(operations) && disk == old(disk) && buffer == old(buffer) + [record]
    {
      hide Held, Bytes, Stored, Appended, AllFit, Opened, FileAt, Left, LossExplained, Labelled, ShownSequence;
      LabelledGrows(written, record);
      StoredGrows(written, record, segmentLimit);
      var ok := WriteRecord(record);
      if !ok {
        failed := true;
      }
    }

    // The encoded event, or the mark of its omission.
    method Compose(sequence: nat, insns: nat, pc: nat, kind: string, detail: string) returns (record: string)
      requires 512 <= segmentLimit <= U64_MAX && sequence <= U64_MAX && insns <= U64_MAX && navigation <= U64_MAX
      requires |Encoded(sequence, insns, pc, navigation, kind, detail)| <= U64_MAX
      ensures record == Fitted(sequence, insns, pc, navigation, kind, detail, Min(65_536, segmentLimit))
      ensures |record| <= segmentLimit
    {
      var limit := Min(MAX_RECORD_BYTES, segmentLimit);
      FittedFits(sequence, insns, pc, navigation, kind, detail, limit);
      record := Encoded(sequence, insns, pc, navigation, kind, detail);
      if |record| > limit {
        record := Omission(sequence, insns, pc, navigation, limit, |record|);
      }
    }

    method WriteRecord(record: Record) returns (ok: bool)
      requires OnDisk() && Open() && Accounted() && segmentBytes == Bytes(FileAt(disk, 0) + buffer)
      requires |written| + 1 == record.sequence && |record.text| <= segmentLimit && writer
      modifies this`disk, this`buffer, this`writer, this`segmentBytes, this`operations
      modifies this`written, this`lost, this`flushes
      ensures OnDisk() && Accounted()
      ensures ok ==> writer && Open() && segmentBytes == Bytes(FileAt(disk, 0) + buffer)
      ensures ok ==> Opened(disk, buffer) == Appended(old(Opened(disk, buffer)), record, segmentLimit)
      ensures written == if ok then old(written) + [record] else old(written)
      ensures operations >= old(operations)
      ensures (forall n | old(operations) <= n < operations :: io(n).Done?) ==> ok
      ensures lost == if Rotates(old(segmentBytes), record.text) then Left(io(old(operations)), old(buffer))
          else old(lost)
      ensures Fits(old(segmentBytes), old(buffer), record.text) ==>
        ok && operations == old(operations) && disk == old(disk) && buffer == old(buffer) + [record]
    {
      hide Held, Bytes, Rotated, LossExplained, Left;
      ghost var before := Opened(disk, buffer);
      BytesAppend([], record);
      if segmentBytes + |record.text| > segmentLimit {
        ok := Rotate();
        if !ok {
          return;
        }
        RotatedEmpty(before);
      }
      ghost var open, current := Opened(disk, buffer), FileAt(disk, 0) + buffer;
      BytesAppend(current, record);
      ok := Put(record);
      if ok {
        segmentBytes := segmentBytes + |record.text|;
      }
    }

    // The buffered write of a whole record.
    method Put(record: Record) returns (ok: bool)
      requires OnDisk() && Open() && Accounted() && |written| + 1 == record.sequence
      requires Bytes(FileAt(disk, 0) + buffer + [record]) <= segmentLimit
      modifies this`disk, this`buffer, this`operations, this`written, this`flushes
      ensures OnDisk() && Accounted()
      ensures ok ==> Open() && FileAt(disk, 0) + buffer == old(FileAt(disk, 0) + buffer) + [record]
      ensures ok ==> Opened(disk, buffer) == Opened(old(Opened(disk, buffer)), [record])
      ensures written == if ok then old(written) + [record] else old(written)
      ensures operations >= old(operations)
      ensures (forall n | old(operations) <= n < operations :: io(n).Done?) ==> ok
      ensures |record.text| < capacity && Bytes(old(buffer)) + |record.text| <= capacity ==>
        ok && operations == old(operations) && disk == old(disk) && buffer == old(buffer) + [record]
    {
      hide Held, Bytes, LossExplained, Left;
      if Bytes(buffer) + |record.text| > capacity {
        LossGrows(io, flushes, FlushCall(operations, false, |buffer|), buffer);
        ok := Flush(false);
        if !ok {
          return;
        }
      }
      OpenedTwice(disk, buffer, [record]);
      ghost var current := FileAt(disk, 0) + buffer + [record];
      assert current == FileAt(disk, 0) + (buffer + [record]);
      if |record.text| >= capacity {
        var result := Attempt();
        if result.Broken? {
          return false;
        }
        DirectKeeps(disk, buffer, record, written, segmentLimit, capacity);
        disk, buffer := Opened(disk, buffer + [record]), [];
      } else {
        EmptyHasNoBytes();
        BufferKeeps(disk, buffer, record, written, segmentLimit, capacity);
        buffer := buffer + [record];
      }
      written := written + [record];
      ok := true;
    }

    // Shift the segments and start an empty one. A failure half way leaves the
    // writer closed and the files that are left in order; what a failed flush
    // leaves behind is dropped with the writer.
    method Rotate() returns (ok: bool)
      requires OnDisk() && Open() && Accounted()
      modifies this`disk, this`buffer, this`writer, this`segmentBytes, this`operations, this`lost, this`flushes
      ensures OnDisk() && Accounted() && buffer == []
      ensures lost == Left(io(old(operations)), old(buffer))
      ensures lost != [] <==> io(old(operations)).Broken? && io(old(operations)).kept < |old(buffer)|
      ensures io(old(operations)).Broken? ==> !ok
      ensures ok ==> Open() && writer && segmentBytes == 0 && disk == Rotated(old(Opened(disk, buffer)))
      ensures operations >= old(operations)
      ensures (forall n | old(operations) <= n < operations :: io(n).Done?) ==> ok
    {
      hide Held, Rotated, Opened, Bytes, FileAt, LossExplained;
      LossGrows(io, flushes, FlushCall(operations, true, |buffer|), buffer);
      writer := false;
      ok := Flush(true);
      if !ok {
        LossKeeps(disk, buffer, written, segmentLimit, capacity);
        lost, buffer := buffer, [];
        return;
      }
      ok := ShiftSegments();
      if !ok {
        return;
      }
      writer := true;
      segmentBytes := 0;
    }

    // Make every segment one place older and create the current one; the writer
    // is closed and its buffer empty.
    method ShiftSegments() returns (ok: bool)
      requires OnDisk() && buffer == [] && lost == [] && 0 in disk
      modifies this`disk, this`operations
      ensures OnDisk()
      ensures ok ==> Open() && disk == Rotated(old(disk))
      ensures operations >= old(operations)
      ensures (forall n | old(operations) <= n < operations :: io(n).Done?) ==> ok
    {
      hide Retained, Bounded, IsSuffix, Held, Bytes;
      ghost var before := disk;
      var result := Attempt(); // remove the oldest segment, if there is one
      if result.Broken? {
        return false;
      }
      HeldSuffix(disk, written, segmentLimit, capacity);
      RemoveOldest(disk, written, segmentLimit);
      DiskKeeps(disk, disk - {BACKUPS}, written, segmentLimit, capacity);
      disk := disk - {BACKUPS};
      var index := BACKUPS - 1;
      while index >= 1
        invariant 0 <= index < BACKUPS && OnDisk()
        invariant 0 in disk && index + 1 !in disk && disk == Shifted(before, index)
        invariant operations >= old(operations)
      {
        result := Attempt(); // rename segment `index`, if there is one
        if result.Broken? {
          return false;
        }
        if index in disk {
          OlderKeeps(disk, index, written, segmentLimit, capacity);
          disk := Older(disk, index);
        }
        index := index - 1;
      }
      result := Attempt(); // rename the current segment
      if result.Broken? {
        return false;
      }
      OlderKeeps(disk, 0, written, segmentLimit, capacity);
      disk := Older(disk, 0);
      result := Attempt(); // create
      if result.Broken? {
        return false;
      }
      HeldSuffix(disk, written, segmentLimit, capacity);
      CreateKeeps(disk, segmentLimit);
      DiskKeeps(disk, disk[0 := []], written, segmentLimit, capacity);
      disk := disk[0 := []];
      EmptyHasNoBytes();
      assert FileAt(disk, 0) + buffer == [];
      ok := true;
    }

    // Flush; false once anything has failed. After a check that succeeds every
    // record is on disk.
    method Check() returns (ok: bool)
      requires Valid()
      modifies this`failed, this`disk, this`buffer, this`operations, this`flushes
      ensures Valid() && ok == !failed
      ensures old(failed) ==> failed
      ensures ok ==> buffer == [] && disk == Stored(written, segmentLimit)
    {
      hide Held, Bytes, Stored, AllFit, LossExplained;
      if !failed {
        LossGrows(io, flushes, FlushCall(operations, false, |buffer|), buffer);
        ok := Flush(false);
        if !ok {
          failed := true;
        }
      }
      ok := !failed;
    }
  }

  lemma EmptyHasNoBytes()
    ensures Bytes([]) == 0
  {}

  lemma OlderKeeps(disk: Disk, i: nat, written: File, limit: nat, capacity: nat)
    requires i < BACKUPS && i in disk && i + 1 !in disk && Held(disk, [], [], written, limit, capacity)
    ensures Held(Older(disk, i), [], [], written, limit, capacity)
  {
    HeldSuffix(disk, written, limit, capacity);
    hide Retained, Bounded, IsSuffix, Held, Older;
    RenameKeeps(disk, i, limit);
    DiskKeeps(disk, Older(disk, i), written, limit, capacity);
  }

  // ---------- what a reader finds ----------

  // Backup i is not empty, and it was closed only because the first record of
  // the next segment no longer fitted.
  predicate Full(disk: Disk, i: nat, limit: nat) {
    i > 0 && i in disk ==>
      i - 1 in disk && disk[i] != [] && disk[i - 1] != [] && Bytes(disk[i]) + |disk[i - 1][0].text| > limit
  }

  predicate Packed(disk: Disk, limit: nat) {
    (forall i | i in disk :: i <= BACKUPS) && Full(disk, 1, limit) && Full(disk, 2, limit) && Full(disk, 3, limit)
  }

  // Segment i is what segment i - 1 was, so it is as full as that was.
  lemma RotatedFull(disk: Disk, i: nat, limit: nat)
    requires 2 <= i <= 3 && Packed(disk, limit)
    ensures Full(Rotated(disk), i, limit)
  {
    RotatedFiles(disk, i - 1);
    RotatedFiles(disk, i);
    hide Rotated, Bytes;
  }

  lemma OpenedFull(disk: Disk, record: Record, i: nat, limit: nat)
    requires 2 <= i <= 3 && Full(disk, i, limit)
    ensures Full(Opened(disk, [record]), i, limit)
  {
    hide Bytes;
  }

  lemma RotatePacks(disk: Disk, record: Record, limit: nat)
    requires 0 in disk && disk[0] != [] && Packed(disk, limit) && Bytes(disk[0]) + |record.text| > limit
    ensures var next := Opened(Rotated(disk), [record]);
      && Packed(next, limit) && (3 in disk ==> 3 in next)
      && (3 !in next ==> Retained(next) == Retained(disk) + [record])
  {
    hide Rotated, Bytes, Retained;
    RotatedFull(disk, 2, limit);
    RotatedFull(disk, 3, limit);
    OpenedFull(Rotated(disk), record, 2, limit);
    OpenedFull(Rotated(disk), record, 3, limit);
    RotateRetains(disk, record);
    RotatedFiles(disk, 0);
    RotatedFiles(disk, 1);
    RotatedFiles(disk, 3);
    FirstFull(disk, record, limit);
    hide Full;
  }

  lemma FirstFull(disk: Disk, record: Record, limit: nat)
    requires 0 in disk && disk[0] != [] && Bytes(disk[0]) + |record.text| > limit
    requires forall k | k in disk :: k <= 3
    ensures Full(Opened(Rotated(disk), [record]), 1, limit)
  {
    RotatedFiles(disk, 0);
    RotatedFiles(disk, 1);
    hide Rotated, Bytes;
  }

  lemma RotateRetains(disk: Disk, record: Record)
    requires (forall i | i in disk :: i <= BACKUPS) && (3 in disk ==> 2 in disk)
    ensures 3 !in Opened(Rotated(disk), [record]) ==>
      Retained(Opened(Rotated(disk), [record])) == Retained(disk) + [record]
  {
    var next := Rotated(disk);
    RotatedFiles(disk, 0);
    RotatedFiles(disk, 1);
    RotatedFiles(disk, 2);
    RotatedFiles(disk, 3);
    RetainedOpened(next, [record]);
    if 3 !in next {
      assert FileAt(next, 3) == FileAt(disk, 3) == [] && FileAt(disk, 2) == [];
      hide Rotated, FileAt, Opened;
      var a, b := FileAt(disk, 1), FileAt(disk, 0);
      assert [] + a + b + [] == [] + [] + a + b;
    }
  }

  lemma ExtendPacks(disk: Disk, record: Record, limit: nat)
    requires 0 in disk && Packed(disk, limit)
    ensures var next := Opened(disk, [record]);
      && Packed(next, limit) && Retained(next) == Retained(disk) + [record]
  {
    hide Bytes;
    var next := Opened(disk, [record]);
    assert FileAt(next, 3) == FileAt(disk, 3) && FileAt(next, 2) == FileAt(disk, 2)
        && FileAt(next, 1) == FileAt(disk, 1);
    LastGrows(FileAt(disk, 3) + FileAt(disk, 2) + FileAt(disk, 1), FileAt(disk, 0), [record]);
  }

  lemma AppendPacks(disk: Disk, record: Record, limit: nat)
    requires 0 in disk && Packed(disk, limit) && |record.text| <= limit
    ensures var next := Appended(disk, record, limit);
      && Packed(next, limit) && (3 in disk ==> 3 in next)
      && (3 !in next ==> Retained(next) == Retained(disk) + [record])
  {
    BytesAppend([], record);
    RotatedEmpty(disk);
    assert [] + [record] == [record];
    hide Packed, Retained, Bytes, Rotated;
    if Bytes(disk[0]) + |record.text| > limit {
      RotatePacks(disk, record, limit);
    } else {
      ExtendPacks(disk, record, limit);
    }
  }

  lemma RotatedEmpty(disk: Disk)
    ensures 0 in Rotated(disk) && Rotated(disk)[0] == []
  {}

  // In a run without failures records are lost only once all backups exist, and
  // only because the segments are full.
  lemma {:induction false} StoredIsPacked(records: seq<Record>, limit: nat)
    requires AllFit(records, limit)
    ensures Packed(Stored(records, limit), limit)
    ensures 3 !in Stored(records, limit) ==> Retained(Stored(records, limit)) == records
  {
    hide Appended, Bytes;
    if records != [] {
      var n := |records| - 1;
      assert records == records[..n] + [records[n]];
      StoredIsPacked(records[..n], limit);
      hide Packed, Retained;
      AppendPacks(Stored(records[..n], limit), records[n], limit);
    }
  }

  // Whatever failed and when, the segments read oldest first carry consecutive
  // sequence numbers, none exceeds its limit, and the records taken after the
  // last one on disk fit the writer's buffer. While nothing has failed they are
  // in that buffer, segments and buffer end at the latest event, the segments
  // are packed, and nothing at all is missing before the last backup exists.
  lemma RetainedIsContiguous(t: Trace)
    requires t.Valid()
    ensures var r := Retained(t.disk); var missing := t.buffer + t.lost;
      && (forall i | 0 <= i < |r| :: ShownSequence(r[i].text) == Some(|t.written| - |missing| - |r| + i + 1))
      && missing == t.written[|t.written| - |missing|..] && Bytes(missing) <= t.capacity
      && (forall i | i in t.disk :: i <= 3 && Bytes(t.disk[i]) <= t.segmentLimit)
      && (!t.failed ==>
            && t.lost == [] && |t.written| == t.sequence
            && Packed(Opened(t.disk, t.buffer), t.segmentLimit) && (3 !in t.disk ==> r + t.buffer == t.written))
  {
    hide Packed, Stored, Retained, Bytes, AllFit;
    var r, missing := Retained(t.disk), t.buffer + t.lost;
    StoredIsPacked(t.written, t.segmentLimit);
    BytesSplit(t.buffer, t.lost);
    LastGrows(r, t.buffer, t.lost);
    SuffixIsNumbered(r, missing, t.written);
    RetainedOpened(t.disk, t.buffer);
    hide IsSuffix, Numbered, ShownSequence;
  }

  lemma SuffixIsNumbered(r: seq<Record>, missing: seq<Record>, written: seq<Record>)
    requires IsSuffix(r + missing, written) && Numbered(written)
    ensures |r| + |missing| <= |written| && missing == written[|written| - |missing|..]
    ensures forall i | 0 <= i < |r| ::
      r[i] == written[|written| - |missing| - |r| + i] && r[i].sequence == |written| - |missing| - |r| + i + 1
  {
    assert missing == (r + missing)[|r|..];
    forall i | 0 <= i < |r|
      ensures r[i] == written[|written| - |missing| - |r| + i]
    {
      assert (r + missing)[i] == r[i];
    }
  }

  // Over whole runs, whatever the operations do: records are lost exactly when a
  // rotation's flush broke before the buffer was empty. They are then the last
  // records taken, as many as that flush did not get to, and the trace has failed.
  lemma LostIffRotationBroke(t: Trace)
    requires t.Valid()
    ensures t.lost != [] <==> exists i :: 0 <= i < |t.flushes| && Drops(t.io, t.flushes[i])
    ensures forall i | 0 <= i < |t.flushes| && Drops(t.io, t.flushes[i]) ::
      |t.lost| == t.flushes[i].held - t.io(t.flushes[i].operation).kept
    ensures |t.lost| <= |t.written| && t.lost == t.written[|t.written| - |t.lost|..]
    ensures t.lost != [] ==> t.failed
  {
    hide Drops, Retained, Bounded, Bytes, Numbered, AllFit, Stored, Opened;
    var kept := Retained(t.disk) + t.buffer;
    assert t.lost == (kept + t.lost)[|kept|..];
  }

  // ---------- one lost record ----------

  function Filler(n: nat): string { seq(n, _ => 'x') }

  // Every field zero or empty but the sequence number and 300 characters of detail.
  function Sample(sequence: nat): string { Encoded(sequence, 0, 0, 0, "\"\"", Filler(300)) }

  lemma SampleLength(sequence: nat)
    requires sequence <= U64_MAX
    ensures 300 <= |Sample(sequence)| <= 420 && Sample(sequence) == Encoded(sequence, 0, 0, 0, "\"\"", Filler(300))
    ensures Fitted(sequence, 0, 0, 0, "\"\"", Filler(300), 512) == Sample(sequence)
  {
    WordDigits(sequence);
    WordDigits(0);
    hide Decimal, Hex;
  }

  // A fresh trace only buffers a sample.
  method BufferSample(t: Trace)
    requires t.Valid() && !t.failed && !t.concise && t.navigation == 0 && t.sequence == 0 && t.written == []
    requires t.operations == 0 && t.segmentBytes == 0 && t.buffer == [] && t.disk == map[0 := []] && t.lost == []
    requires t.segmentLimit == 512 && t.capacity == 8192
    modifies t
    ensures t.Valid() && !t.failed && !t.concise && t.navigation == 0 && t.sequence == 1 && t.operations == 0
    ensures t.buffer == t.written == [Record(1, Sample(1))] && t.segmentBytes >= 300
  {
    hide Encoded, Fitted, Bytes, Left, Sample, Held, Stored, AllFit, LossExplained, Filler;
    SampleLength(1);
    BytesAppend([], Record(1, Sample(1)));
    assert [] + [Record(1, Sample(1))] == [Record(1, Sample(1))];
    t.Event(0, 0, "\"\"", Filler(300), false);
    assert FileAt(t.disk, 0) + t.buffer == t.buffer;
  }

  // Two records of 300 characters in segments of 512 bytes: the second makes the
  // segments rotate, the flush breaks at once, and the first is in no file.
  method FirstRecordIsLost() returns (t: Trace)
    ensures fresh(t) && t.Valid() && t.failed
    ensures t.lost == t.written == [Record(1, Sample(1))] && Retained(t.disk) == []
  {
    hide Encoded, Fitted, Bytes, Sample, Held, Stored, AllFit, LossExplained, Filler, Retained;
    t := new Trace(_ => Broken(0), 512, 8192);
    BufferSample(t);
    SampleLength(2);
    t.Event(0, 0, "\"\"", Filler(300), false);
    NothingRetained(t);
  }

  lemma NothingRetained(t: Trace)
    requires t.Valid() && t.lost == t.written
    ensures Retained(t.disk) == []
  {
    hide Retained, Bounded, Bytes, Numbered, AllFit, Stored;
  }
}
