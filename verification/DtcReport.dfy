// Decoding of A9/81 trouble-code reports. A report is fed raw CAN payloads one
// at a time and is complete at its end marker.
module DtcReport {
  import opened Bits

  datatype Dtc = Dtc(code: string, failureType: Byte, status: Byte)

  datatype Frame = Frame(id: nat, data: seq<Byte>)

  const MAX_RECORDS: nat := 128

  function UpperHex(d: nat): char
    requires d < 16
  {
    "0123456789ABCDEF"[d]
  }

  // "P0123" style: two bits of system letter, two of digit, three hex digits.
  function Code(a: Byte, b: Byte): string {
    ["PCBU"[a / 64], UpperHex(a / 16 % 4), UpperHex(a % 16), UpperHex(b / 16), UpperHex(b % 16)]
  }

  // What a frame is to the report of the ids `reply` and `report`.
  datatype Kind = Invalid | Ignored | End | Record(dtc: Dtc)

  function KindOf(f: Frame, reply: nat, report: nat): Kind {
    if f.id == reply && |f.data| >= 3 && f.data[..3] == [3, 0x7f, 0xa9] then
      if |f.data| >= 4 && f.data[3] == 0x78 then Ignored else Invalid
    else if f.id != report || |f.data| == 0 || f.data[0] != 0x81 then Ignored
    else if |f.data| < 5 || |f.data| > 8 then Invalid
    else if f.data[1..4] == [0, 0, 0] then
      if f.data[4] == 0xff || (report == 0x541 && f.data[4] == 0x17) then End else Invalid
    else Record(Dtc(Code(f.data[1], f.data[2]), f.data[3], f.data[4]))
  }

  datatype Contents = Contents(records: seq<Dtc>, complete: bool)

  // None is an error.
  function Received(c: Contents, kind: Kind): Option<Contents> {
    if c.complete then None
    else match kind
      case Invalid => None
      case Ignored => Some(c)
      case End => Some(c.(complete := true))
      case Record(dtc) => if |c.records| >= 128 then None else Some(c.(records := c.records + [dtc]))
  }

  // ---------- whole reports ----------

  // A frame with the ids it was received for.
  datatype Arrival = Arrival(frame: Frame, reply: nat, report: nat)

  function Kinds(arrivals: seq<Arrival>): (kinds: seq<Kind>)
    ensures |kinds| == |arrivals|
  {
    seq(|arrivals|, i requires 0 <= i < |arrivals| => KindOf(arrivals[i].frame, arrivals[i].reply, arrivals[i].report))
  }

  function Run(kinds: seq<Kind>): Option<Contents> {
    if kinds == [] then Some(Contents([], false))
    else
      var before := Run(kinds[..|kinds| - 1]);
      if before.None? then None else Received(before.value, kinds[|kinds| - 1])
  }

  function Records(kinds: seq<Kind>): seq<Dtc> {
    if kinds == [] then []
    else
      var last := kinds[|kinds| - 1];
      var rest := Records(kinds[..|kinds| - 1]);
      if last.Record? then rest + [last.dtc] else rest
  }

  // Frames before the end marker: records and frames to ignore, not too many.
  predicate OpenReport(kinds: seq<Kind>) {
    (forall i | 0 <= i < |kinds| :: kinds[i].Ignored? || kinds[i].Record?) && |Records(kinds)| <= 128
  }

  predicate WholeReport(kinds: seq<Kind>) {
    kinds != [] && OpenReport(kinds[..|kinds| - 1]) && kinds[|kinds| - 1] == End
  }

  // ---------- the report ----------

  class Report {
    var records: seq<Dtc>
    var complete: bool

    ghost var arrivals: seq<Arrival>  // the frames taken without an error, in order

    ghost predicate Valid()
      reads this
    {
      Run(Kinds(arrivals)) == Some(View())
    }

    constructor ()
      ensures Valid() && View() == Contents([], false) && arrivals == []
    {
      records, complete := [], false;
      arrivals := [];
    }

    function View(): Contents
      reads this
    {
      Contents(records, complete)
    }

    // False is an error, which leaves the report as it was.
    method ReceiveForIds(id: nat, data: seq<Byte>, reply: nat, report: nat) returns (ok: bool)
      requires Valid()
      modifies this
      ensures Valid()
      ensures ok <==> Received(old(View()), KindOf(Frame(id, data), reply, report)).Some?
      ensures View() == if ok then Received(old(View()), KindOf(Frame(id, data), reply, report)).value else old(View())
      ensures arrivals == if ok then old(arrivals) + [Arrival(Frame(id, data), reply, report)] else old(arrivals)
    {
      hide Run, KindOf;
      KindsGrow(arrivals, Arrival(Frame(id, data), reply, report));
      ok := TakeFrame(id, data, reply, report);
      if ok {
        arrivals := arrivals + [Arrival(Frame(id, data), reply, report)];
      }
    }

    method TakeFrame(id: nat, data: seq<Byte>, reply: nat, report: nat) returns (ok: bool)
      modifies this`records, this`complete
      ensures ok <==> Received(old(View()), KindOf(Frame(id, data), reply, report)).Some?
      ensures View() == if ok then Received(old(View()), KindOf(Frame(id, data), reply, report)).value else old(View())
    {
      hide Code;
      if complete {
        return false;
      }
      if id == reply && |data| >= 3 && data[..3] == [3, 0x7f, 0xa9] {
        return |data| >= 4 && data[3] == 0x78;
      }
      if id != report || |data| == 0 || data[0] != 0x81 {
        return true;
      }
      if |data| < 5 || |data| > 8 {
        return false;
      }
      if data[1..4] == [0, 0, 0] {
        var validEnd := if report == 0x541 then data[4] == 0xff || data[4] == 0x17 else data[4] == 0xff;
        if !validEnd {
          return false;
        }
        complete := true;
        return true;
      }
      if |records| >= MAX_RECORDS {
        return false;
      }
      records := records + [Dtc(Code(data[1], data[2]), data[3], data[4])];
      return true;
    }

    // The report, if every frame of it has come.
    method Finish() returns (result: Option<seq<Dtc>>)
      requires Valid()
      ensures result.Some? <==> WholeReport(Kinds(arrivals))
      ensures result.Some? ==> result.value == Records(Kinds(arrivals)) && |result.value| <= 128
      ensures result == if complete then Some(records) else None
    {
      RunMeansReport(Kinds(arrivals));
      hide Run, OpenReport, Kinds;
      if complete { WholeIsShort(Kinds(arrivals)); }
      result := if complete then Some(records) else None;
    }
  }

  lemma KindsGrow(arrivals: seq<Arrival>, arrival: Arrival)
    requires Run(Kinds(arrivals)).Some?
    ensures Run(Kinds(arrivals + [arrival]))
         == Received(Run(Kinds(arrivals)).value, KindOf(arrival.frame, arrival.reply, arrival.report))
  {
    var kinds := Kinds(arrivals + [arrival]);
    assert kinds[..|arrivals|] == Kinds(arrivals);
    hide KindOf, Received;
  }

  lemma WholeIsShort(kinds: seq<Kind>)
    requires WholeReport(kinds)
    ensures |Records(kinds)| <= 128
  {}

  // A run of frames is accepted exactly when it is an open report, or one closed
  // by its last frame; either way it holds the records in arrival order.
  lemma {:induction false} RunMeansReport(kinds: seq<Kind>)
    ensures Run(kinds).Some? <==> OpenReport(kinds) || WholeReport(kinds)
    ensures Run(kinds).Some? ==> Run(kinds).value == Contents(Records(kinds), WholeReport(kinds))
  {
    if kinds != [] {
      var init, last := kinds[..|kinds| - 1], kinds[|kinds| - 1];
      RunMeansReport(init);
      if OpenReport(kinds) {
        forall i | 0 <= i < |init| ensures init[i].Ignored? || init[i].Record? { assert init[i] == kinds[i]; }
      }
      if WholeReport(init) { assert init[|init| - 1] == kinds[|init| - 1] == End; }
    }
  }

  function UpperHexValue(c: char): int {
    if '0' <= c <= '9' then c as int - '0' as int else c as int - 'A' as int + 10
  }

  // The letter says the top two bits; the four digits are the other 14 in hexadecimal,
  // the first of them below 4.
  lemma CodeReads(a: Byte, b: Byte)
    ensures var s := Code(a, b);
      && |s| == 5
      && s[0] == (if a < 0x40 then 'P' else if a < 0x80 then 'C' else if a < 0xc0 then 'B' else 'U')
      && '0' <= s[1] <= '3'
      && ((UpperHexValue(s[1]) * 16 + UpperHexValue(s[2])) * 16 + UpperHexValue(s[3])) * 16 + UpperHexValue(s[4])
           == a % 64 * 256 + b
  {
    CodeCharacters(a, b);
    DigitReads(a / 16 % 4);
    DigitReads(a % 16);
    DigitReads(b / 16);
    DigitReads(b % 16);
    FourDigits(a, b);
    SystemLetter(a);
    hide UpperHex, UpperHexValue, Code;
  }

  lemma FourDigits(a: Byte, b: Byte)
    ensures ((a / 16 % 4 * 16 + a % 16) * 16 + b / 16) * 16 + b % 16 == a % 64 * 256 + b
  {
    assert a % 64 == a / 16 % 4 * 16 + a % 16;
  }

  lemma SystemLetter(a: Byte)
    ensures "PCBU"[a / 64] == if a < 0x40 then 'P' else if a < 0x80 then 'C' else if a < 0xc0 then 'B' else 'U'
  {}

  lemma DigitReads(d: nat)
    requires d < 16
    ensures UpperHexValue(UpperHex(d)) == d && (d < 4 ==> '0' <= UpperHex(d) <= '3')
  {}

  // Different code bytes give different codes.
  lemma CodesAreDistinct(a: Byte, b: Byte, c: Byte, d: Byte)
    requires Code(a, b) == Code(c, d)
    ensures a == c && b == d
  {
    CodeReads(a, b);
    CodeReads(c, d);
    hide Code, UpperHexValue;
  }

  lemma CodeCharacters(a: Byte, b: Byte)
    ensures var s := Code(a, b);
      |s| == 5 && s[0] == "PCBU"[a / 64] && s[1] == UpperHex(a / 16 % 4) && s[2] == UpperHex(a % 16)
      && s[3] == UpperHex(b / 16) && s[4] == UpperHex(b % 16)
  {}
}
