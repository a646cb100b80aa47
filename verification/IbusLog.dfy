// The VIN-guarded body DTC transcript, as a machine over its parsed lines.
module IbusLog {
  import opened Bits
  import opened DtcReport

  datatype Module = Bcm | Cim

  // BCM or CIM.
  function NameBytes(m: Module): seq<Byte> { if m == Bcm then [0x42, 0x43, 0x4d] else [0x43, 0x49, 0x4d] }
  function Name(m: Module): string { Text(NameBytes(m)) }

  function Tx(m: Module): nat { if m == Bcm then 0x242 else 0x241 }

  const VIN: string := "YS3FH46U681000002"
  const ISO_PROTOCOL: nat := 0x8007
  const CAN_PROTOCOL: nat := 0x8008

  // A request names a module, a CAN id and a payload.
  datatype Request = Request(target: string, can: nat, payload: string)

  // A receive line: its status, and its protocol and bytes if they parse.
  datatype Reception = BadStatus | Reception(status: nat, message: Option<(nat, seq<Byte>)>)

  // A line may hold a request, a reception, both or neither.
  datatype Line = Line(request: Option<Request>, reception: Option<Reception>)

  function Payload(stage: nat): string {
    if stage == 0 then "1A-90" else if stage == 1 then "1A-97" else if stage == 2 then "20"
    else if stage == 3 then "A9-81-12" else "INVALID"
  }

  function Wanted(m: Module, stage: nat): Request { Request(Name(m), Tx(m), Payload(stage)) }

  // Bits 16 to 18 of the status are addressing flags; any other bit makes the
  // reception a transmit indication or an incomplete message.
  predicate Delivered(status: nat) { status % 0x1_0000 == 0 && status < 0x8_0000 }

  function Id(bytes: seq<Byte>): nat
    requires |bytes| >= 4
  {
    bytes[0] as int * 0x100_0000 + bytes[1] as int * 0x1_0000 + bytes[2] as int * 0x100 + bytes[3] as int
  }

  function Text(bytes: seq<Byte>): string {
    seq(|bytes|, i requires 0 <= i < |bytes| => bytes[i] as char)
  }

  // The UTF-8 encodings of the white-space characters.
  predicate IsSpace(b: seq<Byte>) {
    || (|b| == 1 && (0x09 <= b[0] <= 0x0d || b[0] == 0x20))
    || (|b| == 2 && b[0] == 0xc2 && (b[1] == 0x85 || b[1] == 0xa0))
    || (|b| == 3 && b[0] == 0xe1 && b[1] == 0x9a && b[2] == 0x80)
    || (|b| == 3 && b[0] == 0xe2 && b[1] == 0x80
        && (0x80 <= b[2] <= 0x8a || b[2] == 0xa8 || b[2] == 0xa9 || b[2] == 0xaf))
    || (|b| == 3 && b[0] == 0xe2 && b[1] == 0x81 && b[2] == 0x9f)
    || (|b| == 3 && b[0] == 0xe3 && b[1] == 0x80 && b[2] == 0x80)
  }

  // The UTF-8 encoding of a code point of the basic plane.
  function Utf8(c: nat): seq<Byte>
    requires c < 0x1_0000
  {
    if c < 0x80 then [c]
    else if c < 0x800 then [0xc0 + c / 0x40, 0x80 + c % 0x40]
    else [0xe0 + c / 0x1000, 0x80 + c / 0x40 % 0x40, 0x80 + c % 0x40]
  }

  predicate WhiteSpace(c: nat) {
    || 0x09 <= c <= 0x0d || c == 0x20 || c == 0x85 || c == 0xa0 || c == 0x1680 || 0x2000 <= c <= 0x200a
    || c == 0x2028 || c == 0x2029 || c == 0x202f || c == 0x205f || c == 0x3000
  }

  // The code point of one, two or three bytes.
  function CodePoint(b: seq<Byte>): nat {
    if |b| == 1 then b[0]
    else if |b| == 2 then b[0] as int % 0x20 * 0x40 + b[1] as int % 0x40
    else if |b| == 3 then b[0] as int % 0x10 * 0x1000 + b[1] as int % 0x40 * 0x40 + b[2] as int % 0x40
    else 0
  }

  lemma ShortSpaces(b: seq<Byte>)
    requires |b| <= 2
    ensures IsSpace(b) <==> WhiteSpace(CodePoint(b)) && b == Utf8(CodePoint(b))
  {}

  lemma LongSpaceEncodes(b: seq<Byte>)
    requires |b| == 3 && IsSpace(b)
    ensures WhiteSpace(CodePoint(b)) && b == Utf8(CodePoint(b))
  {
    var c, low: int := CodePoint(b), b[2];
    assert 0x80 <= b[2] <= 0xaf;
    if b[0] == 0xe1 {
      assert c == 0x1680;
    } else if b[0] == 0xe3 {
      assert c == 0x3000;
    } else if b[1] == 0x81 {
      assert c == 0x205f;
    } else {
      assert c == 0x2000 + (low - 0x80);
    }
  }

  lemma EncodedIsSpace(c: nat)
    requires WhiteSpace(c) && c >= 0x800
    ensures IsSpace(Utf8(c))
  {
    if c == 0x1680 {
      assert Utf8(c) == [0xe1, 0x9a, 0x80];
    } else if c == 0x3000 {
      assert Utf8(c) == [0xe3, 0x80, 0x80];
    } else if c == 0x205f {
      assert Utf8(c) == [0xe2, 0x81, 0x9f];
    } else {
      assert c / 0x1000 == 2 && c / 0x40 == 0x80 && c % 0x40 == c - 0x2000;
      assert Utf8(c) == [0xe2, 0x80, 0x80 + (c - 0x2000)];
    }
  }

  lemma LongSpaces(b: seq<Byte>)
    requires |b| == 3
    ensures IsSpace(b) <==> WhiteSpace(CodePoint(b)) && b == Utf8(CodePoint(b))
  {
    if IsSpace(b) { LongSpaceEncodes(b); }
    var c := CodePoint(b);
    if WhiteSpace(c) && b == Utf8(c) {
      assert c >= 0x800;
      EncodedIsSpace(c);
    }
    hide IsSpace, WhiteSpace, CodePoint;
  }

  // White space, by code points.
  lemma SpacesAreWhiteSpace(b: seq<Byte>)
    ensures IsSpace(b) <==> WhiteSpace(CodePoint(b)) && b == Utf8(CodePoint(b))
  {
    if |b| <= 2 { ShortSpaces(b); } else if |b| == 3 { LongSpaces(b); }
  }

  // Bytes of the white-space character at the start or the end; 0 if there is none.
  function Leading(b: seq<Byte>): (n: nat)
    ensures n <= |b| && (n > 0 ==> IsSpace(b[..n]))
  {
    if |b| >= 1 && IsSpace(b[..1]) then 1
    else if |b| >= 2 && IsSpace(b[..2]) then 2
    else if |b| >= 3 && IsSpace(b[..3]) then 3
    else 0
  }

  function Trailing(b: seq<Byte>): (n: nat)
    ensures n <= |b| && (n > 0 ==> IsSpace(b[|b| - n..]))
  {
    if |b| >= 1 && IsSpace(b[|b| - 1..]) then 1
    else if |b| >= 2 && IsSpace(b[|b| - 2..]) then 2
    else if |b| >= 3 && IsSpace(b[|b| - 3..]) then 3
    else 0
  }

  // A text without the white space around it. What is not UTF-8 decodes to
  // replacement characters, which are not white space and in no name.
  function Trimmed(b: seq<Byte>): seq<Byte> {
    if Leading(b) > 0 then Trimmed(b[Leading(b)..])
    else if Trailing(b) > 0 then Trimmed(b[..|b| - Trailing(b)])
    else b
  }

  // What a reception is at a stage of the transcript.
  datatype Meaning = Error | Nothing | VinReply | NameReply | NormalReply | ReportFrame(frame: Frame)

  function MeaningOf(m: Module, stage: nat, r: Reception): Meaning {
    if r.BadStatus? then Error
    else if !Delivered(r.status) then Nothing
    else if r.message.None? || |r.message.value.1| < 5 then Error
    else
      var (protocol, bytes) := r.message.value;
      var id, data := Id(bytes), bytes[4..];
      if protocol == ISO_PROTOCOL && id == Tx(m) + 0x400 then
        if data[0] == 0x7f then if |data| == 3 && data[2] == 0x78 then Nothing else Error
        else if stage == 1 && |data| >= 2 && data[..2] == [0x5a, 0x90] then
          if Text(data[2..]) == VIN then VinReply else Error
        else if stage == 2 && |data| >= 2 && data[..2] == [0x5a, 0x97] then
          if Trimmed(data[2..]) == NameBytes(m) then NameReply else Error
        else if stage == 3 && data == [0x60] then NormalReply
        else Nothing
      else if stage == 4 && protocol == CAN_PROTOCOL then ReportFrame(Frame(id, data))
      else Nothing
  }

  // ---------- the machine ----------

  datatype State = State(stage: nat, vin: bool, name: bool, normal: bool, report: Contents)

  function FrameKind(m: Module, f: Frame): Kind { KindOf(f, Tx(m) + 0x400, Tx(m) + 0x300) }

  predicate RequestFits(m: Module, st: State, r: Request) {
    && r == Wanted(m, st.stage)
    && (st.stage == 1 ==> st.vin) && (st.stage == 2 ==> st.name) && (st.stage == 3 ==> st.normal)
  }

  function AfterMeaning(m: Module, st: State, meaning: Meaning): Option<State> {
    match meaning
    case Error => None
    case Nothing => Some(st)
    case VinReply => Some(st.(vin := true))
    case NameReply => Some(st.(name := true))
    case NormalReply => Some(st.(normal := true))
    case ReportFrame(frame) =>
      var report := Received(st.report, FrameKind(m, frame));
      if report.Some? then Some(st.(report := report.value)) else None
  }

  function AfterLine(m: Module, st: State, line: Line): Option<State> {
    if line.request.Some? && !RequestFits(m, st, line.request.value) then None
    else
      var t := if line.request.Some? then st.(stage := st.stage + 1) else st;
      if line.reception.None? then Some(t)
      else AfterMeaning(m, t, MeaningOf(m, t.stage, line.reception.value))
  }

  function Run(m: Module, lines: seq<Line>): Option<State> {
    if lines == [] then Some(State(0, false, false, false, Contents([], false)))
    else
      var before := Run(m, lines[..|lines| - 1]);
      if before.None? then None else AfterLine(m, before.value, lines[|lines| - 1])
  }

  predicate Finished(st: State) {
    st.stage == 4 && st.vin && st.name && st.normal && st.report.complete
  }

  // `framed`: the transcript is short enough and has the bridge's required
  // opening, closing and result lines.
  method ParseLog(m: Module, lines: seq<Line>, framed: bool) returns (result: Option<seq<Dtc>>)
    ensures result == if framed && Run(m, lines).Some? && Finished(Run(m, lines).value)
                      then Some(Run(m, lines).value.report.records) else None
    ensures result.Some? ==>
      exists i :: 0 <= i < |lines| && lines[i].reception.Some? && ShowsVin(m, lines[i].reception.value)
  {
    if !framed {
      return None;
    }
    var report := new Report();
    var stage, vin, name, normal := 0, false, false, false;
    assert lines[..0] == [];
    hide Run, MeaningOf, Wanted, AfterMeaning, AfterLine;
    assert Run(m, []) == Some(State(0, false, false, false, Contents([], false))) by { RunNothing(m); }
    for k := 0 to |lines|
      invariant report.Valid()
      invariant Run(m, lines[..k]) == Some(State(stage, vin, name, normal, report.View()))
    {
      RunStep(m, lines, k);
      var ok;
      ok, stage, vin, name, normal := TakeLine(m, report, stage, vin, name, normal, lines[k]);
      if !ok {
        RunFails(m, lines, k + 1);
        return None;
      }
    }
    assert lines[..|lines|] == lines;
    if stage != 4 || !vin || !name || !normal {
      return None;
    }
    result := report.Finish();
    if result.Some? { AcceptedShowsVin(m, lines); }
  }

  // An accepted transcript holds the guarded number.
  lemma AcceptedShowsVin(m: Module, lines: seq<Line>)
    requires Run(m, lines).Some? && Finished(Run(m, lines).value)
    ensures exists i :: 0 <= i < |lines| && lines[i].reception.Some? && ShowsVin(m, lines[i].reception.value)
  {
    AcceptedIffProven(m, lines);
    hide Run, Proven, ShowsVin, Finished;
    var a, vin, b, name, c, normal, d := ProvenTranscriptIsOrdered(m, lines);
  }

  // One line: its request must be due, and then its reception is taken.
  method TakeLine(m: Module, report: Report, stageIn: nat, vinIn: bool, nameIn: bool, normalIn: bool, line: Line)
    returns (ok: bool, stage: nat, vin: bool, name: bool, normal: bool)
    requires report.Valid()
    modifies report
    ensures report.Valid()
    ensures var after := AfterLine(m, State(stageIn, vinIn, nameIn, normalIn, old(report.View())), line);
      && (ok <==> after.Some?)
      && (ok ==> after.value == State(stage, vin, name, normal, report.View()))
  {
    hide MeaningOf, Wanted, AfterMeaning, AfterLine;
    LineStep(m, State(stageIn, vinIn, nameIn, normalIn, report.View()), line);
    ok, stage, vin, name, normal := true, stageIn, vinIn, nameIn, normalIn;
    if line.request.Some? {
      if line.request.value != Wanted(m, stage) || (stage == 1 && !vin) || (stage == 2 && !name)
          || (stage == 3 && !normal) {
        ok := false;
        return;
      }
      stage := stage + 1;
    }
    if line.reception.Some? {
      ok, vin, name, normal := TakeReception(m, report, stage, vin, name, normal, line.reception.value);
    }
  }

  // One reception: set a guard, feed the report, or stop the parse.
  method TakeReception(m: Module, report: Report, stage: nat, vinIn: bool, nameIn: bool, normalIn: bool, r: Reception)
    returns (ok: bool, vin: bool, name: bool, normal: bool)
    requires report.Valid()
    modifies report
    ensures report.Valid()
    ensures var before := State(stage, vinIn, nameIn, normalIn, old(report.View()));
      var after := AfterMeaning(m, before, MeaningOf(m, stage, r));
      && (ok <==> after.Some?)
      && (ok ==> after.value == State(stage, vin, name, normal, report.View()))
  {
    hide MeaningOf, KindOf, Received;
    ok, vin, name, normal := true, vinIn, nameIn, normalIn;
    match MeaningOf(m, stage, r)
    case Error => ok := false;
    case Nothing =>
    case VinReply => vin := true;
    case NameReply => name := true;
    case NormalReply => normal := true;
    case ReportFrame(frame) =>
      ok := report.ReceiveForIds(frame.id, frame.data, Tx(m) + 0x400, Tx(m) + 0x300);
  }

  lemma RunNothing(m: Module)
    ensures Run(m, []) == Some(State(0, false, false, false, Contents([], false)))
  {}

  lemma LineStep(m: Module, st: State, line: Line)
    ensures var bad := line.request.Some? && (line.request.value != Wanted(m, st.stage) || (st.stage == 1 && !st.vin)
                                              || (st.stage == 2 && !st.name) || (st.stage == 3 && !st.normal));
      var t := if line.request.Some? then st.(stage := st.stage + 1) else st;
      AfterLine(m, st, line)
      == if bad then None
         else if line.reception.None? then Some(t) else AfterMeaning(m, t, MeaningOf(m, t.stage, line.reception.value))
  {
    hide Wanted, AfterMeaning, MeaningOf;
  }

  lemma RunStep(m: Module, lines: seq<Line>, k: nat)
    requires k < |lines|
    ensures Run(m, lines[..k + 1])
         == if Run(m, lines[..k]).None? then None else AfterLine(m, Run(m, lines[..k]).value, lines[k])
  {
    assert lines[..k + 1][..k] == lines[..k];
    hide AfterLine;
  }

  lemma {:induction false} RunFails(m: Module, lines: seq<Line>, k: nat)
    requires k <= |lines| && Run(m, lines[..k]).None?
    ensures Run(m, lines).None?
    decreases |lines|
  {
    if k < |lines| {
      var init := lines[..|lines| - 1];
      assert init[..k] == lines[..k];
      RunFails(m, init, k);
    } else {
      assert lines[..k] == lines;
    }
  }

  // ---------- the module name ----------

  ghost predicate AllSpaces(pieces: seq<seq<Byte>>) { forall i | 0 <= i < |pieces| :: IsSpace(pieces[i]) }

  function Joined(pieces: seq<seq<Byte>>): seq<Byte> {
    if pieces == [] then [] else pieces[0] + Joined(pieces[1..])
  }

  // White space, the name, white space.
  ghost predicate Padded(b: seq<Byte>, name: seq<Byte>) {
    exists before, after :: PaddedBy(b, name, before, after)
  }

  ghost predicate PaddedBy(b: seq<Byte>, name: seq<Byte>, before: seq<seq<Byte>>, after: seq<seq<Byte>>) {
    AllSpaces(before) && AllSpaces(after) && b == Joined(before) + name + Joined(after)
  }

  // A name starts and ends with an ASCII character that is not white space.
  predicate IsName(name: seq<Byte>) {
    name != [] && 0x20 < name[0] < 0x80 && 0x20 < name[|name| - 1] < 0x80
  }

  lemma LeadingOf(piece: seq<Byte>, rest: seq<Byte>)
    requires IsSpace(piece)
    ensures Leading(piece + rest) == |piece| && (piece + rest)[|piece|..] == rest
  {
    var b := piece + rest;
    assert b[..|piece|] == piece;
    assert b[0] == piece[0];
    if |piece| > 1 { assert b[1] == piece[1]; }
  }

  lemma HighByte(b: seq<Byte>)
    requires |b| == 1 && b[0] >= 0x80
    ensures !IsSpace(b)
  {}

  lemma NotC2(b: seq<Byte>)
    requires |b| == 2 && b[0] != 0xc2
    ensures !IsSpace(b)
  {}

  lemma LaterBytes(piece: seq<Byte>)
    requires IsSpace(piece)
    ensures 1 <= |piece| <= 3
    ensures |piece| > 1 ==> piece[|piece| - 1] >= 0x80
    ensures |piece| > 2 ==> piece[1] != 0xc2
  {}

  // No shorter end of a white-space character is one.
  lemma SpaceEnds(piece: seq<Byte>)
    requires IsSpace(piece)
    ensures 1 <= |piece| <= 3
    ensures |piece| > 1 ==> !IsSpace(piece[|piece| - 1..])
    ensures |piece| > 2 ==> !IsSpace(piece[|piece| - 2..])
  {
    LaterBytes(piece);
    hide IsSpace;
    if |piece| > 1 { HighByte(piece[|piece| - 1..]); }
    if |piece| > 2 { NotC2(piece[|piece| - 2..]); }
  }

  lemma TrailingOf(rest: seq<Byte>, piece: seq<Byte>)
    requires IsSpace(piece)
    ensures Trailing(rest + piece) == |piece| && (rest + piece)[..|rest|] == rest
  {
    SpaceEnds(piece);
    assert piece != [];
    hide IsSpace;
    var b := rest + piece;
    assert b[|b| - |piece|..] == piece;
    assert b[|b| - 1..] == piece[|piece| - 1..];
    if |piece| > 1 { assert b[|b| - 2..] == piece[|piece| - 2..]; }
  }

  lemma NoLeading(name: seq<Byte>, rest: seq<Byte>)
    requires IsName(name)
    ensures Leading(name + rest) == 0
  {
    assert (name + rest)[0] == name[0];
  }

  lemma NoTrailing(name: seq<Byte>)
    requires IsName(name)
    ensures Trailing(name) == 0
  {
    assert name[|name| - 1..] == [name[|name| - 1]];
  }

  lemma {:induction false} JoinedAppend(pieces: seq<seq<Byte>>, piece: seq<Byte>)
    ensures Joined(pieces + [piece]) == Joined(pieces) + piece
  {
    if pieces == [] {
      assert pieces + [piece] == [piece];
    } else {
      assert (pieces + [piece])[1..] == pieces[1..] + [piece];
      JoinedAppend(pieces[1..], piece);
    }
  }

  lemma TrimFront(piece: seq<Byte>, rest: seq<Byte>)
    requires IsSpace(piece)
    ensures Trimmed(piece + rest) == Trimmed(rest)
  {
    LeadingOf(piece, rest);
    hide IsSpace, Leading, Trailing;
  }

  lemma TrimBack(rest: seq<Byte>, piece: seq<Byte>)
    requires IsSpace(piece) && Leading(rest + piece) == 0
    ensures Trimmed(rest + piece) == Trimmed(rest)
  {
    TrailingOf(rest, piece);
    hide IsSpace, Leading, Trailing;
  }

  lemma {:induction false} TrailingSpacesGo(name: seq<Byte>, after: seq<seq<Byte>>)
    requires IsName(name) && AllSpaces(after)
    ensures Trimmed(name + Joined(after)) == name
    decreases |after|
  {
    hide IsSpace, Leading, Trailing, Trimmed;
    NoLeading(name, Joined(after));
    if after == [] {
      NameStays(name);
      assert name + [] == name;
    } else {
      var last, pieces := after[|after| - 1], after[..|after| - 1];
      assert after == pieces + [last];
      JoinedAppend(pieces, last);
      assert name + (Joined(pieces) + last) == (name + Joined(pieces)) + last;
      TrimBack(name + Joined(pieces), last);
      TrailingSpacesGo(name, pieces);
    }
  }

  lemma NameStays(name: seq<Byte>)
    requires IsName(name)
    ensures Trimmed(name) == name
  {
    assert name + [] == name;
    NoLeading(name, []);
    NoTrailing(name);
  }

  lemma {:induction false} PaddingIsTrimmed(name: seq<Byte>, before: seq<seq<Byte>>, after: seq<seq<Byte>>)
    requires IsName(name) && AllSpaces(before) && AllSpaces(after)
    ensures Trimmed(Joined(before) + name + Joined(after)) == name
    decreases |before|
  {
    hide IsSpace, Leading, Trailing, Trimmed;
    if before == [] {
      assert Joined(before) + name + Joined(after) == name + Joined(after);
      TrailingSpacesGo(name, after);
    } else {
      var rest := Joined(before[1..]) + name + Joined(after);
      assert Joined(before) + name + Joined(after) == before[0] + rest;
      TrimFront(before[0], rest);
      PaddingIsTrimmed(name, before[1..], after);
    }
  }

  lemma PadFront(piece: seq<Byte>, rest: seq<Byte>, name: seq<Byte>, before: seq<seq<Byte>>, after: seq<seq<Byte>>)
    requires IsSpace(piece) && PaddedBy(rest, name, before, after)
    ensures PaddedBy(piece + rest, name, [piece] + before, after)
  {
    hide IsSpace;
    assert ([piece] + before)[1..] == before;
    assert piece + (Joined(before) + name + Joined(after)) == piece + Joined(before) + name + Joined(after);
  }

  lemma PadBack(rest: seq<Byte>, piece: seq<Byte>, name: seq<Byte>, before: seq<seq<Byte>>, after: seq<seq<Byte>>)
    requires IsSpace(piece) && PaddedBy(rest, name, before, after)
    ensures PaddedBy(rest + piece, name, before, after + [piece])
  {
    hide IsSpace;
    JoinedAppend(after, piece);
    assert (Joined(before) + name + Joined(after)) + piece == Joined(before) + name + (Joined(after) + piece);
  }

  lemma {:induction false} TrimmedIsPadded(b: seq<Byte>) returns (before: seq<seq<Byte>>, after: seq<seq<Byte>>)
    ensures PaddedBy(b, Trimmed(b), before, after)
    decreases |b|
  {
    hide IsSpace, PaddedBy, Leading, Trailing;
    if Leading(b) > 0 {
      var n := Leading(b);
      before, after := TrimmedIsPadded(b[n..]);
      assert b == b[..n] + b[n..];
      PadFront(b[..n], b[n..], Trimmed(b), before, after);
      before := [b[..n]] + before;
    } else if Trailing(b) > 0 {
      var n := |b| - Trailing(b);
      before, after := TrimmedIsPadded(b[..n]);
      assert b == b[..n] + b[n..];
      PadBack(b[..n], b[n..], Trimmed(b), before, after);
      after := after + [b[n..]];
    } else {
      before, after := [], [];
      PaddedByNothing(b);
    }
  }

  lemma PaddedByNothing(b: seq<Byte>)
    ensures PaddedBy(b, b, [], [])
  {
    assert [] + b + [] == b;
  }

  // A name reply matches exactly when it is the name with white space around it.
  lemma TrimmedMeansPadded(b: seq<Byte>, name: seq<Byte>)
    requires IsName(name)
    ensures Trimmed(b) == name <==> Padded(b, name)
  {
    if Trimmed(b) == name {
      var before, after := TrimmedIsPadded(b);
      assert PaddedBy(b, name, before, after);
    }
    if Padded(b, name) {
      var before, after :| PaddedBy(b, name, before, after);
      PaddingIsTrimmed(name, before, after);
    }
  }

  // The name guard of stage 2 on a whole message of the module.
  lemma NameReplyIffPadded(m: Module, status: nat, bytes: seq<Byte>)
    requires Delivered(status) && |bytes| >= 6 && Id(bytes) == Tx(m) + 0x400 && bytes[4] == 0x5a && bytes[5] == 0x97
    ensures MeaningOf(m, 2, Reception(status, Some((ISO_PROTOCOL, bytes))))
         == if Padded(bytes[6..], NameBytes(m)) then NameReply else Error
  {
    hide Delivered, Id, Trimmed, Padded;
    TrimmedMeansPadded(bytes[6..], NameBytes(m));
    assert bytes[4..][..2] == [0x5a, 0x97] && bytes[4..][2..] == bytes[6..];
  }

  // ---------- replies in bytes ----------

  // YS3FH46U681000002
  function VinBytes(): seq<Byte> {
    [0x59, 0x53, 0x33, 0x46, 0x48, 0x34, 0x36, 0x55, 0x36, 0x38, 0x31, 0x30, 0x30, 0x30, 0x30, 0x30, 0x32]
  }

  // A received message: whole, on this protocol, from this CAN id.
  predicate Whole(r: Reception, protocol: nat, bytes: seq<Byte>) {
    && r.Reception? && r.status % 0x1_0000 == 0 && r.status < 0x8_0000
    && r.message == Some((protocol, bytes)) && |bytes| >= 5
  }

  // A whole diagnostic message of the module with this data.
  predicate FromModule(m: Module, r: Reception, data: seq<Byte>) {
    Whole(r, 0x8007, [0, 0, 6, if m == Bcm then 0x42 else 0x41] + data)
  }

  ghost predicate ShowsVin(m: Module, r: Reception) { FromModule(m, r, [0x5a, 0x90] + VinBytes()) }

  ghost predicate ShowsName(m: Module, r: Reception) {
    exists name: seq<Byte> :: FromModule(m, r, [0x5a, 0x97] + name)
      && Padded(name, if m == Bcm then [0x42, 0x43, 0x4d] else [0x43, 0x49, 0x4d])
  }

  ghost predicate ShowsNormal(m: Module, r: Reception) { FromModule(m, r, [0x60]) }

  lemma VinText(data: seq<Byte>)
    ensures Text(data) == VIN <==> data == VinBytes()
  {
    var v := VinBytes();
    assert |VIN| == 17 && |v| == 17;
    assert forall i | 0 <= i < 17 :: v[i] as char == VIN[i];
    if Text(data) == VIN {
      assert |data| == 17;
      forall i | 0 <= i < 17 ensures data[i] == v[i] { assert Text(data)[i] == VIN[i] == v[i] as char; }
    }
    if data == v { assert forall i | 0 <= i < 17 :: Text(data)[i] == VIN[i]; }
  }

  lemma IdOfModule(m: Module, bytes: seq<Byte>)
    requires |bytes| >= 4
    ensures Id(bytes) == Tx(m) + 0x400 <==> bytes[..4] == [0, 0, 6, if m == Bcm then 0x42 else 0x41]
  {
    var id: seq<Byte> := [0, 0, 6, if m == Bcm then 0x42 else 0x41];
    assert bytes[..4] == id <==> bytes[0] == 0 && bytes[1] == 0 && bytes[2] == 6 && bytes[3] == id[3];
  }

  // The guard on the vehicle identification number: at stage 1 a whole message of
  // the module starting 5A 90 passes exactly with the 17 bytes of this number and
  // otherwise stops the parse.
  lemma VinReplyIffVin(m: Module, status: nat, data: seq<Byte>)
    requires status % 0x1_0000 == 0 && status < 0x8_0000
    ensures var bytes := [0, 0, 6, if m == Bcm then 0x42 else 0x41] + ([0x5a, 0x90] + data);
      MeaningOf(m, 1, Reception(status, Some((0x8007, bytes)))) == if data == VinBytes() then VinReply else Error
  {
    var head: seq<Byte> := [0, 0, 6, if m == Bcm then 0x42 else 0x41];
    var bytes := head + ([0x5a, 0x90] + data);
    IdOfModule(m, bytes);
    assert bytes[..4] == head && bytes[4..] == [0x5a, 0x90] + data;
    assert ([0x5a, 0x90] + data)[..2] == [0x5a, 0x90] && ([0x5a, 0x90] + data)[2..] == data;
    VinText(data);
    hide Id, Text, Trimmed, VinBytes;
  }

  // A whole diagnostic message of the module, as the parser decides it.
  predicate Speaks(m: Module, r: Reception) {
    && r.Reception? && Delivered(r.status) && r.message.Some? && |r.message.value.1| >= 5
    && r.message.value.0 == ISO_PROTOCOL && Id(r.message.value.1) == Tx(m) + 0x400
  }

  lemma FromModuleSpeaks(m: Module, r: Reception, data: seq<Byte>)
    requires data != []
    ensures FromModule(m, r, data) <==> Speaks(m, r) && r.message.value.1[4..] == data
  {
    if r.Reception? && r.message.Some? && |r.message.value.1| >= 5 {
      IdOfModule(m, r.message.value.1);
      HeadAndData(r.message.value.1, [0, 0, 6, if m == Bcm then 0x42 else 0x41]);
    }
    hide Id;
  }

  // The replies as the parser tells them apart.
  lemma RepliesOfData(m: Module, stage: nat, r: Reception)
    ensures var meaning := MeaningOf(m, stage, r);
      && (meaning == VinReply <==>
            stage == 1 && Speaks(m, r) && [0x5a, 0x90] <= r.message.value.1[4..]
            && r.message.value.1[6..] == VinBytes())
      && (meaning == NameReply <==>
            stage == 2 && Speaks(m, r) && [0x5a, 0x97] <= r.message.value.1[4..]
            && Trimmed(r.message.value.1[6..]) == NameBytes(m))
      && (meaning == NormalReply <==> stage == 3 && Speaks(m, r) && r.message.value.1[4..] == [0x60])
  {
    if r.Reception? && r.message.Some? && |r.message.value.1| >= 6 {
      assert r.message.value.1[4..][2..] == r.message.value.1[6..];
      VinText(r.message.value.1[6..]);
    }
    hide Id, Text, Trimmed, VinBytes, Delivered, NameBytes;
  }

  lemma MarkAndRest(bytes: seq<Byte>, mark: seq<Byte>, rest: seq<Byte>)
    requires |mark| == 2 && |bytes| >= 5
    ensures bytes[4..] == mark + rest <==> mark <= bytes[4..] && bytes[6..] == rest
  {
    HeadAndData(bytes[4..], if |bytes| >= 6 then mark else []);
    if |bytes| >= 6 { assert bytes[4..][2..] == bytes[6..]; }
  }

  // What a VIN reply, a name reply and a normal-mode reply are, in bytes.
  lemma RepliesInBytes(m: Module, stage: nat, r: Reception)
    ensures MeaningOf(m, stage, r) == VinReply <==> stage == 1 && ShowsVin(m, r)
    ensures MeaningOf(m, stage, r) == NameReply <==> stage == 2 && ShowsName(m, r)
    ensures MeaningOf(m, stage, r) == NormalReply <==> stage == 3 && ShowsNormal(m, r)
  {
    RepliesOfData(m, stage, r);
    FromModuleSpeaks(m, r, [0x5a, 0x90] + VinBytes());
    FromModuleSpeaks(m, r, [0x60]);
    NameShown(m, r);
    if Speaks(m, r) { MarkAndRest(r.message.value.1, [0x5a, 0x90], VinBytes()); }
    hide MeaningOf, Speaks, FromModule, VinBytes, ShowsName, Trimmed, NameBytes;
  }

  lemma NameShown(m: Module, r: Reception)
    ensures ShowsName(m, r) <==>
      Speaks(m, r) && [0x5a, 0x97] <= r.message.value.1[4..] && Trimmed(r.message.value.1[6..]) == NameBytes(m)
  {
    hide FromModule, Trimmed, Padded, Id, Delivered;
    forall name: seq<Byte>
      ensures FromModule(m, r, [0x5a, 0x97] + name) <==> Speaks(m, r) && r.message.value.1[4..] == [0x5a, 0x97] + name
    {
      FromModuleSpeaks(m, r, [0x5a, 0x97] + name);
    }
    if Speaks(m, r) {
      NameOf(m, r);
      var rest := r.message.value.1[4..];
      if [0x5a, 0x97] <= rest {
        assert |r.message.value.1| >= 6;
        assert FromModule(m, r, [0x5a, 0x97] + r.message.value.1[6..]);
      }
    }
  }

  lemma NameOf(m: Module, r: Reception)
    requires Speaks(m, r)
    ensures forall name: seq<Byte> | r.message.value.1[4..] == [0x5a, 0x97] + name ::
      [0x5a, 0x97] <= r.message.value.1[4..] && r.message.value.1[6..] == name
    ensures [0x5a, 0x97] <= r.message.value.1[4..] ==> r.message.value.1[4..] == [0x5a, 0x97] + r.message.value.1[6..]
    ensures |r.message.value.1| >= 6 ==>
      (Trimmed(r.message.value.1[6..]) == NameBytes(m) <==> Padded(r.message.value.1[6..], NameBytes(m)))
  {
    var bytes := r.message.value.1;
    forall name: seq<Byte> | bytes[4..] == [0x5a, 0x97] + name
      ensures [0x5a, 0x97] <= bytes[4..] && bytes[6..] == name
    {
      MarkAndRest(bytes, [0x5a, 0x97], name);
    }
    if |bytes| >= 6 {
      MarkAndRest(bytes, [0x5a, 0x97], bytes[6..]);
      TrimmedMeansPadded(bytes[6..], NameBytes(m));
    }
    hide Trimmed, Padded;
  }

  lemma HeadAndData(bytes: seq<Byte>, head: seq<Byte>)
    requires |head| <= |bytes|
    ensures forall data :: bytes == head + data <==> (bytes[..|head|] == head && data == bytes[|head|..])
  {
    assert bytes == bytes[..|head|] + bytes[|head|..];
  }

  // When a reception stops the parse: its status is no number, or it was delivered
  // and is truncated or unreadable, or the module rejected the request, or a guard
  // failed.
  lemma ErrorsInBytes(m: Module, stage: nat, r: Reception)
    ensures MeaningOf(m, stage, r) == Error <==>
      || r.BadStatus?
      || (r.status % 0x1_0000 == 0 && r.status < 0x8_0000
          && (r.message.None? || |r.message.value.1| < 5 || Rejects(m, r) || FailsGuard(m, stage, r)))
  {
    ErrorsOfData(m, stage, r);
    if r.Reception? && r.message.Some? && |r.message.value.1| >= 5 {
      var bytes := r.message.value.1;
      IdOfModule(m, bytes);
      if |bytes| >= 6 { TrimmedMeansPadded(bytes[6..], NameBytes(m)); }
    }
    hide MeaningOf, Id, Trimmed, Padded, VinBytes;
  }

  // The same as the parser tells it.
  lemma ErrorsOfData(m: Module, stage: nat, r: Reception)
    ensures MeaningOf(m, stage, r) == Error <==>
      || r.BadStatus?
      || (Delivered(r.status) && (r.message.None? || |r.message.value.1| < 5))
      || (Speaks(m, r) && r.message.value.1[4] == 0x7f
          && !(|r.message.value.1| == 7 && r.message.value.1[6] == 0x78))
      || (Speaks(m, r) && |r.message.value.1| >= 6 && r.message.value.1[4] == 0x5a
          && ((stage == 1 && r.message.value.1[5] == 0x90 && r.message.value.1[6..] != VinBytes())
              || (stage == 2 && r.message.value.1[5] == 0x97 && Trimmed(r.message.value.1[6..]) != NameBytes(m))))
  {
    if r.Reception? && r.message.Some? && |r.message.value.1| >= 5 {
      var bytes := r.message.value.1;
      var data := bytes[4..];
      assert data[0] == bytes[4];
      if |bytes| >= 6 {
        assert data[2..] == bytes[6..];
        assert forall a: Byte, b: Byte :: data[..2] == [a, b] <==> (bytes[4] == a && bytes[5] == b);
        VinText(bytes[6..]);
      }
    }
    hide Id, Text, Trimmed, VinBytes, Delivered, NameBytes;
  }

  // A message of the module that says 7F, other than a pending answer.
  predicate Rejects(m: Module, r: Reception) {
    && r.Reception? && r.message.Some? && r.message.value.0 == 0x8007
    && var bytes := r.message.value.1;
      && |bytes| >= 5 && bytes[..4] == [0, 0, 6, if m == Bcm then 0x42 else 0x41]
      && bytes[4] == 0x7f && !(|bytes| == 7 && bytes[6] == 0x78)
  }

  // Another number, or another name, in the reply that is due.
  ghost predicate FailsGuard(m: Module, stage: nat, r: Reception) {
    && r.Reception? && r.message.Some? && r.message.value.0 == 0x8007
    && var bytes := r.message.value.1;
      && |bytes| >= 6 && bytes[..4] == [0, 0, 6, if m == Bcm then 0x42 else 0x41] && bytes[4] == 0x5a
      && ((stage == 1 && bytes[5] == 0x90 && bytes[6..] != VinBytes())
          || (stage == 2 && bytes[5] == 0x97
              && !Padded(bytes[6..], if m == Bcm then [0x42, 0x43, 0x4d] else [0x43, 0x49, 0x4d])))
  }

  // The big-endian number of the first four bytes.
  function FirstLong(b: seq<Byte>): nat
    requires |b| >= 4
  {
    ((b[0] as int * 256 + b[1] as int) * 256 + b[2] as int) * 256 + b[3] as int
  }

  // A report frame is every whole message on protocol 0x8008 once the trouble
  // codes have been requested, with its id and data.
  lemma ReportFrameInBytes(m: Module, stage: nat, r: Reception, f: Frame)
    ensures MeaningOf(m, stage, r) == ReportFrame(f) <==>
      stage == 4 && r.Reception? && r.message.Some? && |r.message.value.1| >= 5
      && Whole(r, 0x8008, r.message.value.1) && f == Frame(FirstLong(r.message.value.1), r.message.value.1[4..])
  {
    if r.Reception? && r.message.Some? && |r.message.value.1| >= 5 { IdIsFirstLong(r.message.value.1); }
    hide Id, FirstLong, Text, Trimmed;
  }

  lemma IdIsFirstLong(b: seq<Byte>)
    requires |b| >= 4
    ensures Id(b) == FirstLong(b)
  {}

  // ---------- what an accepted transcript shows ----------

  function Stage(lines: seq<Line>): nat {
    if lines == [] then 0
    else Stage(lines[..|lines| - 1]) + (if lines[|lines| - 1].request.Some? then 1 else 0)
  }

  // What each line's reception is, given the requests up to and including it.
  function Meanings(m: Module, lines: seq<Line>): (meanings: seq<Meaning>)
    ensures |meanings| == |lines|
  {
    if lines == [] then []
    else
      var last := lines[|lines| - 1];
      Meanings(m, lines[..|lines| - 1])
      + [if last.reception.None? then Nothing else MeaningOf(m, Stage(lines), last.reception.value)]
  }

  function ReportKinds(m: Module, meanings: seq<Meaning>): seq<Kind> {
    if meanings == [] then []
    else
      var last := meanings[|meanings| - 1];
      var rest := ReportKinds(m, meanings[..|meanings| - 1]);
      if last.ReportFrame? then rest + [FrameKind(m, last.frame)] else rest
  }

  // The request on line i is the next of the script, and the reply to the one
  // before it has been seen.
  predicate RequestDue(m: Module, lines: seq<Line>, i: nat)
    requires i < |lines| && lines[i].request.Some?
  {
    var stage, seen := Stage(lines[..i]), Meanings(m, lines[..i]);
    && lines[i].request.value == Wanted(m, stage)
    && (stage == 1 ==> VinReply in seen) && (stage == 2 ==> NameReply in seen) && (stage == 3 ==> NormalReply in seen)
  }

  predicate RequestsDue(m: Module, lines: seq<Line>) {
    forall i | 0 <= i < |lines| && lines[i].request.Some? :: RequestDue(m, lines, i)
  }

  predicate Clean(m: Module, lines: seq<Line>) {
    && Error !in Meanings(m, lines)
    && RequestsDue(m, lines)
    && DtcReport.Run(ReportKinds(m, Meanings(m, lines))).Some?
  }

  // A transcript that proves its report.
  predicate Proven(m: Module, lines: seq<Line>) {
    && Error !in Meanings(m, lines)
    && RequestsDue(m, lines)
    && Stage(lines) == 4
    && WholeReport(ReportKinds(m, Meanings(m, lines)))
  }

  lemma RequestsExtend(m: Module, lines: seq<Line>)
    requires lines != []
    ensures var n := |lines| - 1;
      RequestsDue(m, lines) <==> RequestsDue(m, lines[..n]) && (lines[n].request.Some? ==> RequestDue(m, lines, n))
  {
    var n := |lines| - 1;
    var init := lines[..n];
    forall i | 0 <= i < n
      ensures lines[..i] == init[..i] && lines[i] == init[i]
    {
    }
    hide Stage, Meanings;
    if RequestsDue(m, lines) {
      forall i | 0 <= i < n && init[i].request.Some? ensures RequestDue(m, init, i) {
        assert RequestDue(m, lines, i);
      }
    }
    if RequestsDue(m, init) && (lines[n].request.Some? ==> RequestDue(m, lines, n)) {
      forall i | 0 <= i < |lines| && lines[i].request.Some? ensures RequestDue(m, lines, i) {
        if i < n { assert RequestDue(m, init, i); }
      }
    }
  }

  // The flags and the report say what has been seen.
  predicate Shows(m: Module, st: State, seen: seq<Meaning>) {
    && (st.vin <==> VinReply in seen) && (st.name <==> NameReply in seen) && (st.normal <==> NormalReply in seen)
    && Some(st.report) == DtcReport.Run(ReportKinds(m, seen))
  }

  // The machine's state after a transcript.
  predicate Reflects(m: Module, st: State, lines: seq<Line>) {
    st.stage == Stage(lines) && Shows(m, st, Meanings(m, lines))
  }

  lemma SeenGrows(seen: seq<Meaning>, meaning: Meaning, x: Meaning)
    ensures x in seen + [meaning] <==> x in seen || x == meaning
  {}

  lemma MeaningStep(m: Module, st: State, seen: seq<Meaning>, meaning: Meaning)
    requires Shows(m, st, seen)
    ensures var t := AfterMeaning(m, st, meaning);
      && (t.Some? <==> meaning != Error && DtcReport.Run(ReportKinds(m, seen + [meaning])).Some?)
      && (t.Some? ==> Shows(m, t.value, seen + [meaning]) && t.value.stage == st.stage)
  {
    SeenGrows(seen, meaning, VinReply);
    SeenGrows(seen, meaning, NameReply);
    SeenGrows(seen, meaning, NormalReply);
    ReportGrows(m, seen, meaning);
    hide ReportKinds, Received, FrameKind;
  }

  lemma ReportGrows(m: Module, seen: seq<Meaning>, meaning: Meaning)
    requires DtcReport.Run(ReportKinds(m, seen)).Some?
    ensures DtcReport.Run(ReportKinds(m, seen + [meaning]))
         == if meaning.ReportFrame? then Received(DtcReport.Run(ReportKinds(m, seen)).value,
             FrameKind(m, meaning.frame))
            else DtcReport.Run(ReportKinds(m, seen))
  {
    var next := seen + [meaning];
    assert next[..|next| - 1] == seen;
    var kinds := ReportKinds(m, next);
    if meaning.ReportFrame? { assert kinds[..|kinds| - 1] == ReportKinds(m, seen); }
    hide FrameKind, Received;
  }

  lemma MeaningsStep(m: Module, lines: seq<Line>)
    requires lines != []
    ensures var n := |lines| - 1;
      && Meanings(m, lines) == Meanings(m, lines[..n]) + [Meanings(m, lines)[n]]
      && Meanings(m, lines)[n] == (if lines[n].reception.None? then Nothing
          else MeaningOf(m, Stage(lines), lines[n].reception.value))
      && Stage(lines) == Stage(lines[..n]) + (if lines[n].request.Some? then 1 else 0)
  {
    hide MeaningOf;
  }

  lemma LineReflects(m: Module, st: State, lines: seq<Line>)
    requires lines != [] && Reflects(m, st, lines[..|lines| - 1]) && Clean(m, lines[..|lines| - 1])
    ensures var n := |lines| - 1; var t := AfterLine(m, st, lines[n]);
      && (t.Some? <==> Clean(m, lines))
      && (t.Some? ==> Reflects(m, t.value, lines))
  {
    var n := |lines| - 1;
    var before, meaning := Meanings(m, lines[..n]), Meanings(m, lines)[n];
    RequestsExtend(m, lines);
    MeaningsStep(m, lines);
    SeenGrows(before, meaning, Error);
    assert lines[n].request.Some? ==> (RequestDue(m, lines, n) <==> RequestFits(m, st, lines[n].request.value)) by {
      hide Meanings, Stage, Wanted, ReportKinds;
    }
    hide MeaningOf, RequestsDue, Meanings, Stage, Wanted, RequestDue, RequestFits, Shows, ReportKinds, AfterMeaning;
    var t := if lines[n].request.Some? then st.(stage := st.stage + 1) else st;
    assert Shows(m, t, before) by { ShowsIgnoresStage(m, st, t, before); }
    MeaningStep(m, t, before, meaning);
    QuietMeaning(m, t);
  }

  lemma ShowsIgnoresStage(m: Module, st: State, t: State, seen: seq<Meaning>)
    requires Shows(m, st, seen) && t == st.(stage := t.stage)
    ensures Shows(m, t, seen)
  {
    hide ReportKinds;
  }

  lemma QuietMeaning(m: Module, st: State)
    ensures AfterMeaning(m, st, Nothing) == Some(st)
  {}

  lemma {:induction false} RunReflects(m: Module, lines: seq<Line>)
    ensures Run(m, lines).Some? <==> Clean(m, lines)
    ensures Run(m, lines).Some? ==> Reflects(m, Run(m, lines).value, lines)
    decreases |lines|
  {
    if lines != [] {
      var init := lines[..|lines| - 1];
      RunReflects(m, init);
      hide Reflects, AfterLine;
      if Run(m, init).Some? {
        LineReflects(m, Run(m, init).value, lines);
      } else if Clean(m, lines) {
        CleanPrefix(m, lines);
      }
    }
  }

  lemma CleanPrefix(m: Module, lines: seq<Line>)
    requires lines != [] && Clean(m, lines)
    ensures Clean(m, lines[..|lines| - 1])
  {
    var n := |lines| - 1;
    var before, after := Meanings(m, lines[..n]), Meanings(m, lines);
    assert after == before + [after[n]] && after[..n] == before;
    RequestsExtend(m, lines);
    assert Error in before ==> Error in after;
    var kinds := ReportKinds(m, after);
    if after[n].ReportFrame? { assert kinds[..|kinds| - 1] == ReportKinds(m, before); }
  }

  lemma MeaningAt(m: Module, lines: seq<Line>, i: nat)
    requires i < |lines|
    ensures Meanings(m, lines)[i]
         == (if lines[i].reception.None? then Nothing
             else MeaningOf(m, Stage(lines[..i + 1]), lines[i].reception.value))
    decreases |lines|
  {
    var n := |lines| - 1;
    if i < n {
      MeaningAt(m, lines[..n], i);
      assert lines[..n][..i + 1] == lines[..i + 1];
    } else {
      assert lines[..i + 1] == lines;
    }
  }

  lemma {:induction false} StageMonotone(lines: seq<Line>, i: nat, j: nat)
    requires i <= j <= |lines|
    ensures Stage(lines[..i]) <= Stage(lines[..j])
    decreases j
  {
    if i < j {
      StageMonotone(lines, i, j - 1);
      assert lines[..j][..j - 1] == lines[..j - 1];
    }
  }

  lemma {:induction false} FindRequest(lines: seq<Line>, stage: nat) returns (i: nat)
    requires stage < Stage(lines)
    ensures i < |lines| && lines[i].request.Some? && Stage(lines[..i]) == stage && Stage(lines[..i + 1]) == stage + 1
    decreases |lines|
  {
    var n := |lines| - 1;
    if Stage(lines[..n]) == stage {
      i := n;
      assert lines[..n + 1] == lines;
    } else {
      i := FindRequest(lines[..n], stage);
      assert lines[..n][..i] == lines[..i] && lines[..n][..i + 1] == lines[..i + 1];
    }
  }

  lemma MeaningsOfPrefix(m: Module, lines: seq<Line>, k: nat)
    requires k <= |lines|
    ensures Meanings(m, lines[..k]) == Meanings(m, lines)[..k]
    decreases |lines|
  {
    if k < |lines| {
      var n := |lines| - 1;
      MeaningsOfPrefix(m, lines[..n], k);
      assert lines[..n][..k] == lines[..k];
    } else {
      assert lines[..k] == lines;
    }
  }

  // The transcript is accepted exactly when it proves its report, and the result
  // is that report's records in arrival order, at most 128 of them.
  lemma AcceptedIffProven(m: Module, lines: seq<Line>)
    ensures Run(m, lines).Some? && Finished(Run(m, lines).value) <==> Proven(m, lines)
    ensures Proven(m, lines) ==>
      var records := Records(ReportKinds(m, Meanings(m, lines)));
      Run(m, lines).value.report.records == records && |records| <= 128
  {
    RunReflects(m, lines);
    var kinds := ReportKinds(m, Meanings(m, lines));
    RunMeansReport(kinds);
    if Proven(m, lines) { RepliesSeen(m, lines); }
    hide Run, Meanings, ReportKinds, RequestsDue, OpenReport;
    if WholeReport(kinds) { assert kinds[|kinds| - 1] == End; }
  }

  lemma RepliesSeen(m: Module, lines: seq<Line>)
    requires RequestsDue(m, lines) && Stage(lines) == 4
    ensures VinReply in Meanings(m, lines) && NameReply in Meanings(m, lines) && NormalReply in Meanings(m, lines)
  {
    var i := FindRequest(lines, 1);
    var j := FindRequest(lines, 2);
    var k := FindRequest(lines, 3);
    assert RequestDue(m, lines, i) && RequestDue(m, lines, j) && RequestDue(m, lines, k);
    MeaningsOfPrefix(m, lines, i);
    MeaningsOfPrefix(m, lines, j);
    MeaningsOfPrefix(m, lines, k);
    hide Stage, Meanings;
  }

  // A meaning other than Error and Nothing tells its stage.
  lemma MeaningTellsStage(m: Module, stage: nat, r: Reception)
    ensures MeaningOf(m, stage, r) == VinReply ==> stage == 1
    ensures MeaningOf(m, stage, r) == NameReply ==> stage == 2
    ensures MeaningOf(m, stage, r) == NormalReply ==> stage == 3
    ensures MeaningOf(m, stage, r).ReportFrame? ==> stage == 4
  {
    hide Delivered, Text, Trimmed, Id;
  }

  lemma MeaningTellsLine(m: Module, lines: seq<Line>, i: nat)
    requires i < |lines|
    ensures var meaning := Meanings(m, lines)[i];
      && (meaning == VinReply ==> Stage(lines[..i + 1]) == 1)
      && (meaning == NameReply ==> Stage(lines[..i + 1]) == 2)
      && (meaning == NormalReply ==> Stage(lines[..i + 1]) == 3)
      && (meaning.ReportFrame? ==> Stage(lines[..i + 1]) == 4)
  {
    MeaningAt(m, lines, i);
    hide MeaningOf, Meanings, Stage;
    if lines[i].reception.Some? { MeaningTellsStage(m, Stage(lines[..i + 1]), lines[i].reception.value); }
  }

  // The request of stage s + 1 and the reply that let it through.
  lemma ReplyBeforeRequest(m: Module, lines: seq<Line>, stage: nat, reply: Meaning) returns (i: nat, r: nat)
    requires RequestsDue(m, lines) && stage < Stage(lines)
    requires (stage == 1 && reply == VinReply) || (stage == 2 && reply == NameReply)
        || (stage == 3 && reply == NormalReply)
    ensures i < r < |lines| && Meanings(m, lines)[i] == reply && Stage(lines[..i + 1]) == stage
    ensures lines[r].request == Some(Wanted(m, stage)) && Stage(lines[..r]) == stage
        && Stage(lines[..r + 1]) == stage + 1
  {
    r := FindRequest(lines, stage);
    assert RequestDue(m, lines, r);
    MeaningsOfPrefix(m, lines, r);
    hide Meanings, Stage, Wanted, RequestsDue;
    i :| 0 <= i < r && Meanings(m, lines)[..r][i] == reply;
    MeaningTellsLine(m, lines, i);
  }

  // A request to the module with this payload.
  function Asked(m: Module, payload: string): Request {
    if m == Bcm then Request("BCM", 0x242, payload) else Request("CIM", 0x241, payload)
  }

  lemma WantedIsAsked(m: Module)
    ensures Wanted(m, 0) == Asked(m, "1A-90") && Wanted(m, 1) == Asked(m, "1A-97")
    ensures Wanted(m, 2) == Asked(m, "20") && Wanted(m, 3) == Asked(m, "A9-81-12")
  {
    assert Name(m) == if m == Bcm then "BCM" else "CIM";
  }

  lemma ReplyInBytes(m: Module, lines: seq<Line>, i: nat)
    requires i < |lines|
    ensures var meaning := Meanings(m, lines)[i];
      && (meaning.VinReply? || meaning.NameReply? || meaning.NormalReply? ==> lines[i].reception.Some?)
      && (meaning == VinReply ==> ShowsVin(m, lines[i].reception.value))
      && (meaning == NameReply ==> ShowsName(m, lines[i].reception.value))
      && (meaning == NormalReply ==> ShowsNormal(m, lines[i].reception.value))
  {
    hide MeaningOf, Meanings, Stage, ShowsVin, ShowsName, ShowsNormal;
    MeaningAt(m, lines, i);
    if lines[i].reception.Some? { RepliesInBytes(m, Stage(lines[..i + 1]), lines[i].reception.value); }
  }

  // A proven transcript shows, in order: VIN request, matching VIN, name request,
  // matching name, normal-mode request, its reply, the trouble-code request, and
  // only then the report frames.
  lemma ProvenTranscriptIsOrdered(m: Module, lines: seq<Line>)
    returns (vinRequest: nat, vin: nat, nameRequest: nat, name: nat, normalRequest: nat, normal: nat, dtcRequest: nat)
    requires Proven(m, lines)
    ensures vinRequest <= vin < nameRequest <= name < normalRequest <= normal < dtcRequest < |lines|
    ensures lines[vinRequest].request == Some(Asked(m, "1A-90"))
    ensures lines[nameRequest].request == Some(Asked(m, "1A-97"))
    ensures lines[normalRequest].request == Some(Asked(m, "20"))
    ensures lines[dtcRequest].request == Some(Asked(m, "A9-81-12"))
    ensures Meanings(m, lines)[vin] == VinReply && Meanings(m, lines)[name] == NameReply
    ensures Meanings(m, lines)[normal] == NormalReply
    ensures lines[vin].reception.Some? && ShowsVin(m, lines[vin].reception.value)
    ensures lines[name].reception.Some? && ShowsName(m, lines[name].reception.value)
    ensures lines[normal].reception.Some? && ShowsNormal(m, lines[normal].reception.value)
    ensures forall k | 0 <= k < |lines| && Meanings(m, lines)[k].ReportFrame? :: k >= dtcRequest
  {
    vinRequest := FindRequest(lines, 0);
    assert RequestDue(m, lines, vinRequest);
    vin, nameRequest := ReplyBeforeRequest(m, lines, 1, VinReply);
    name, normalRequest := ReplyBeforeRequest(m, lines, 2, NameReply);
    normal, dtcRequest := ReplyBeforeRequest(m, lines, 3, NormalReply);
    hide Meanings, Stage, Wanted, RequestsDue, ReportKinds;
    WantedIsAsked(m);
    ReplyInBytes(m, lines, vin);
    ReplyInBytes(m, lines, name);
    ReplyInBytes(m, lines, normal);
    hide MeaningOf, ShowsVin, ShowsName, ShowsNormal, Asked;
    NotBefore(lines, vinRequest, vin);
    NotBefore(lines, nameRequest, name);
    NotBefore(lines, normalRequest, normal);
    forall k | 0 <= k < |lines| && Meanings(m, lines)[k].ReportFrame? ensures k >= dtcRequest {
      MeaningTellsLine(m, lines, k);
      NotBefore(lines, dtcRequest, k);
    }
  }

  // A proven transcript holds no rejection by the module, wherever it stands.
  lemma ProvenHasNoRejection(m: Module, lines: seq<Line>, i: nat)
    requires Proven(m, lines) && i < |lines| && lines[i].reception.Some?
    ensures var r := lines[i].reception.value;
      r.Reception? && (r.status % 0x1_0000 == 0 && r.status < 0x8_0000 ==> !Rejects(m, r))
  {
    MeaningAt(m, lines, i);
    ErrorsInBytes(m, Stage(lines[..i + 1]), lines[i].reception.value);
    hide MeaningOf, Meanings, Stage, ReportKinds, RequestsDue, Rejects, FailsGuard;
    assert Meanings(m, lines)[i] in Meanings(m, lines);
  }

  lemma NotBefore(lines: seq<Line>, request: nat, line: nat)
    requires request < |lines| && line < |lines|
    requires Stage(lines[..request]) < Stage(lines[..line + 1])
    ensures request <= line
  {
    hide Stage;
    if line < request { StageMonotone(lines, line + 1, request); }
  }
}
