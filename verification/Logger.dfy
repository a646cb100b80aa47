// The console logger: two bounded rings over one stream of entries, and the
// wrapped console view of a ring.
module Logger {
  import opened Bits
  import opened Text

  datatype Level = Info | Warn | Error | Crash

  datatype LogEntry = LogEntry(timeMs: nat, insns: nat, level: Level, subsystem: string, message: string)

  datatype Line = Line(color: nat, text: string)

  const CAPACITY: nat := 512
  const LINK_CAPACITY: nat := 128
  const U32_MAX: nat := 0xffff_ffff
  const LINK_SUBSYSTEM := "CANDI"

  function Color(level: Level): nat {
    match level
    case Info => 0x58_A6FF
    case Warn => 0xD2_9922
    case Error => 0xF8_5149
    case Crash => 0xFF_7B72
  }

  // The last n elements, or all of them.
  function Suffix<T>(s: seq<T>, n: nat): seq<T> {
    if |s| <= n then s else s[|s| - n..]
  }

  function Linked(history: seq<LogEntry>): seq<LogEntry> {
    if history == [] then []
    else
      var last := history[|history| - 1];
      var rest := Linked(history[..|history| - 1]);
      if last.subsystem == "CANDI" then rest + [last] else rest
  }

  function Count(history: seq<LogEntry>, level: Level): nat {
    if history == [] then 0
    else Count(history[..|history| - 1], level) + (if history[|history| - 1].level == level then 1 else 0)
  }

  // What the rings and counters hold after a history.
  ghost predicate Tracks(buffer: seq<LogEntry>, link: seq<LogEntry>, errors: nat, warnings: nat, crashes: nat,
                         history: seq<LogEntry>) {
    && buffer == Suffix(history, 512)
    && link == Suffix(Linked(history), 128)
    && errors == Min(Count(history, Error), 0xffff_ffff)
    && warnings == Min(Count(history, Warn), 0xffff_ffff)
    && crashes == Min(Count(history, Crash), 0xffff_ffff)
  }

  // Push on a ring that holds the last n entries.
  function Pushed<T>(ring: seq<T>, n: nat, entry: T): seq<T> {
    (if |ring| >= n && ring != [] then ring[1..] else ring) + [entry]
  }

  function Counted(total: nat, hit: bool): nat { if hit then Min(total + 1, U32_MAX) else total }

  lemma PushedIsSuffix<T>(s: seq<T>, n: nat, entry: T)
    requires n > 0
    ensures Pushed(Suffix(s, n), n, entry) == Suffix(s + [entry], n)
  {}

  lemma EntryTracks(buffer: seq<LogEntry>, link: seq<LogEntry>, errors: nat, warnings: nat, crashes: nat,
                    history: seq<LogEntry>, entry: LogEntry)
    requires Tracks(buffer, link, errors, warnings, crashes, history)
    ensures Tracks(Pushed(buffer, CAPACITY, entry),
                   if entry.subsystem == LINK_SUBSYSTEM then Pushed(link, LINK_CAPACITY, entry) else link,
                   Counted(errors, entry.level == Error), Counted(warnings, entry.level == Warn),
                   Counted(crashes, entry.level == Crash), history + [entry])
  {
    var next := history + [entry];
    assert next[..|history|] == history;
    PushedIsSuffix(history, CAPACITY, entry);
    PushedIsSuffix(Linked(history), LINK_CAPACITY, entry);
    assert Linked(next) == if entry.subsystem == LINK_SUBSYSTEM then Linked(history) + [entry] else Linked(history);
    hide Suffix, Pushed, Linked;
  }

  class Tech2Logger {
    var buffer: seq<LogEntry>
    var linkBuffer: seq<LogEntry>
    var totalErrors: nat
    var totalWarnings: nat
    var totalCrashes: nat

    ghost var history: seq<LogEntry>

    ghost predicate Valid()
      reads this
    {
      Tracks(buffer, linkBuffer, totalErrors, totalWarnings, totalCrashes, history)
    }

    constructor ()
      ensures Valid() && history == []
    {
      buffer, linkBuffer := [], [];
      totalErrors, totalWarnings, totalCrashes := 0, 0, 0;
      history := [];
    }

    // `timeMs` is the time since the logger started.
    method Log(level: Level, subsystem: string, insns: nat, message: string, timeMs: nat)
      requires Valid()
      modifies this
      ensures Valid()
      ensures history == old(history) + [LogEntry(timeMs, insns, level, subsystem, message)]
    {
      var entry := LogEntry(timeMs, insns, level, subsystem, message);
      EntryTracks(buffer, linkBuffer, totalErrors, totalWarnings, totalCrashes, history, entry);
      hide Tracks, Suffix, Counted;
      Tally(level);
      if |buffer| >= CAPACITY {
        buffer := buffer[1..];
      }
      if subsystem == LINK_SUBSYSTEM {
        if |linkBuffer| >= LINK_CAPACITY {
          linkBuffer := linkBuffer[1..];
        }
        linkBuffer := linkBuffer + [entry];
      }
      buffer := buffer + [entry];
      history := history + [entry];
    }

    method Tally(level: Level)
      modifies this`totalErrors, this`totalWarnings, this`totalCrashes
      ensures totalErrors == Counted(old(totalErrors), level == Error)
      ensures totalWarnings == Counted(old(totalWarnings), level == Warn)
      ensures totalCrashes == Counted(old(totalCrashes), level == Crash)
    {
      match level
      case Error => totalErrors := Min(totalErrors + 1, U32_MAX);
      case Warn => totalWarnings := Min(totalWarnings + 1, U32_MAX);
      case Crash => totalCrashes := Min(totalCrashes + 1, U32_MAX);
      case Info =>
    }

    method GetConsoleLines(maxChars: nat, maxLines: nat) returns (lines: seq<Line>)
      requires Valid()
      ensures lines == View(Suffix(history, 512), maxChars, maxLines)
    {
      lines := ConsoleLines(maxChars, maxLines, buffer);
    }

    method GetLinkConsoleLines(maxChars: nat, maxLines: nat) returns (lines: seq<Line>)
      requires Valid()
      ensures lines == View(Suffix(Linked(history), 128), maxChars, maxLines)
    {
      lines := ConsoleLines(maxChars, maxLines, linkBuffer);
    }
  }

  // ---------- wrapping ----------

  function Render(entry: LogEntry): string {
    "[" + Pad2(entry.timeMs / 1000) + "." + Pad2(entry.timeMs % 1000 / 10) + "s][" + entry.subsystem + "] "
        + entry.message
  }

  // Length of the longest prefix that ends with a space; 0 if there is none.
  function AfterLastSpace(text: string): (n: nat)
    ensures n <= |text|
    ensures n > 0 ==> text[n - 1] == ' '
    ensures forall i | n <= i < |text| :: text[i] != ' '
  {
    if text == "" then 0
    else if text[|text| - 1] == ' ' then |text|
    else AfterLastSpace(text[..|text| - 1])
  }

  // Where a text too long for one line is cut.
  function Cut(text: string, width: nat): (n: nat)
    requires 0 < width < |text|
    ensures 0 < n <= width
  {
    var n := AfterLastSpace(text[..width]);
    if n > 0 then n else width
  }

  function Wrap(text: string, width: nat): seq<string>
    requires width > 0
    decreases |text|
  {
    if text == "" then []
    else if |text| <= width then [text]
    else [text[..Cut(text, width)]] + Wrap(text[Cut(text, width)..], width)
  }

  function Painted(color: nat, texts: seq<string>): (lines: seq<Line>)
    ensures |lines| == |texts|
  {
    seq(|texts|, i requires 0 <= i < |texts| => Line(color, texts[i]))
  }

  function EntryLines(entry: LogEntry, width: nat): seq<Line>
    requires width > 0
  {
    Painted(Color(entry.level), Wrap(Render(entry), width))
  }

  function AllLines(entries: seq<LogEntry>, width: nat): seq<Line>
    requires width > 0
  {
    if entries == [] then [] else EntryLines(entries[0], width) + AllLines(entries[1..], width)
  }

  // The console view: the last lines of everything, wrapped.
  function View(entries: seq<LogEntry>, maxChars: nat, maxLines: nat): seq<Line> {
    if maxChars == 0 || maxLines == 0 then [] else Suffix(AllLines(entries, maxChars), maxLines)
  }

  function Joined(texts: seq<string>): string {
    if texts == [] then "" else texts[0] + Joined(texts[1..])
  }

  // Wrapping loses nothing: the lines of a message join back to it, and none is
  // empty or too long.
  lemma {:induction false} WrapJoins(text: string, width: nat)
    requires width > 0
    ensures Joined(Wrap(text, width)) == text
    ensures forall i | 0 <= i < |Wrap(text, width)| :: 0 < |Wrap(text, width)[i]| <= width
    decreases |text|
  {
    if |text| > width {
      WrapJoins(text[Cut(text, width)..], width);
    }
  }

  // A line is cut in the middle of a word only when the word fills the line;
  // otherwise it ends with the last space that fits.
  lemma {:induction false} WrapBreaksAtSpaces(text: string, width: nat, i: nat)
    requires width > 0 && i + 1 < |Wrap(text, width)|
    ensures var line, rest := Wrap(text, width)[i], Joined(Wrap(text, width)[i..]);
      && line != "" && |rest| > width && line == rest[..|line|]
      && (line[|line| - 1] == ' ' || (|line| == width && ' ' !in line))
      && forall k | |line| <= k < width :: rest[k] != ' '
    decreases |text|
  {
    var n, lines := Cut(text, width), Wrap(text, width);
    WrapJoins(text, width);
    if i > 0 {
      WrapBreaksAtSpaces(text[n..], width, i - 1);
      assert lines[i..] == lines[1..][i - 1..];
    } else {
      assert lines[0..] == lines;
      forall k | n <= k < width ensures text[k] != ' ' { assert text[k] == text[..width][k]; }
      if AfterLastSpace(text[..width]) > 0 {
        assert text[..n][n - 1] == text[..width][n - 1];
      }
    }
  }

  // A message reads back: seconds, two digits of hundredths, subsystem and text.
  lemma RenderReads(entry: LogEntry)
    ensures Render(entry) != "" && Render(entry)[0] == '['
    ensures var (seconds, rest) := ReadDecimal(Render(entry)[1..], 0);
      && seconds == entry.timeMs / 1000 && rest != "" && rest[0] == '.'
      && var (hundredths, tail) := ReadDecimal(rest[1..], 0);
        && hundredths == entry.timeMs % 1000 / 10 && |rest| == 3 + |tail|
        && tail == "s][" + (entry.subsystem + ("] " + entry.message))
  {
    var tail := "s][" + (entry.subsystem + ("] " + entry.message));
    var rest := "." + (Pad2(entry.timeMs % 1000 / 10) + tail);
    assert NoDigit(tail) && NoDigit(rest);
    hide Decimal, ReadDecimal;
    Pad2Reads(entry.timeMs / 1000, rest);
    Pad2Reads(entry.timeMs % 1000 / 10, tail);
    assert rest[1..] == Pad2(entry.timeMs % 1000 / 10) + tail;
    assert Render(entry) == "[" + (Pad2(entry.timeMs / 1000) + rest);
    hide Pad2, Render;
    assert ("[" + (Pad2(entry.timeMs / 1000) + rest))[1..] == Pad2(entry.timeMs / 1000) + rest;
  }

  // The color of a level, as the console paints it.
  lemma LinesArePainted(entry: LogEntry, width: nat, i: nat)
    requires width > 0 && i < |EntryLines(entry, width)|
    ensures EntryLines(entry, width)[i].text == Wrap(Render(entry), width)[i]
    ensures EntryLines(entry, width)[i].color ==
      if entry.level == Info then 0x58a6ff
      else if entry.level == Warn then 0xd29922
      else if entry.level == Error then 0xf85149
      else 0xff7b72
  {
    hide Wrap, Render;
  }

  method WrapText(text: string, width: nat) returns (lines: seq<string>)
    requires width > 0
    ensures lines == Wrap(text, width)
  {
    lines := [];
    var remaining := text;
    while remaining != ""
      invariant lines + Wrap(remaining, width) == Wrap(text, width)
      decreases |remaining|
    {
      if |remaining| <= width {
        lines := lines + [remaining];
        break;
      }
      var cut := Cut(remaining, width);
      assert lines + ([remaining[..cut]] + Wrap(remaining[cut..], width))
          == (lines + [remaining[..cut]]) + Wrap(remaining[cut..], width);
      lines := lines + [remaining[..cut]];
      remaining := remaining[cut..];
    }
  }

  function Reversed<T>(s: seq<T>): seq<T> {
    if s == [] then [] else Reversed(s[1..]) + [s[0]]
  }

  lemma {:induction false} ReversedTwice<T>(s: seq<T>)
    ensures Reversed(Reversed(s)) == s && |Reversed(s)| == |s|
  {
    if s != [] {
      ReversedTwice(s[1..]);
      ReversedAppend(Reversed(s[1..]), s[0]);
    }
  }

  lemma {:induction false} ReversedAppend<T>(s: seq<T>, x: T)
    ensures Reversed(s + [x]) == [x] + Reversed(s)
  {
    if s == [] {
      assert s + [x] == [x];
    } else {
      ReversedAppend(s[1..], x);
      assert (s + [x])[1..] == s[1..] + [x];
    }
  }

  lemma SuffixGrows<T>(x: T, s: seq<T>, n: nat)
    requires |s| < n
    ensures Suffix([x] + s, n) == [x] + s && Suffix(s, n) == s
    ensures Reversed(Suffix([x] + s, n)) == Reversed(s) + [x]
  {
    assert ([x] + s)[1..] == s;
  }

  lemma SuffixFull<T>(p: seq<T>, s: seq<T>, n: nat)
    requires |s| >= n
    ensures Suffix(p + s, n) == Suffix(s, n)
  {}

  lemma {:induction false} AllLinesFrom(entries: seq<LogEntry>, i: nat, width: nat)
    requires width > 0 && i <= |entries|
    ensures AllLines(entries, width) == AllLines(entries[..i], width) + AllLines(entries[i..], width)
  {
    hide EntryLines;
    if i == 0 {
      assert entries[0..] == entries;
    } else {
      AllLinesFrom(entries[1..], i - 1, width);
      assert entries[1..][i - 1..] == entries[i..] && entries[..i][1..] == entries[1..][..i - 1];
    }
  }

  // Push the lines of one message, last first, until the view is full.
  method PushLines(linesIn: seq<Line>, message: seq<Line>, maxLines: nat, ghost below: seq<Line>)
      returns (lines: seq<Line>)
    requires |below| < maxLines && linesIn == Reversed(below)
    ensures lines == Reversed(Suffix(message + below, maxLines))
  {
    hide Reversed, Suffix;
    lines := linesIn;
    var j := |message|;
    assert message[j..] + below == below;
    SuffixShort(below, maxLines);
    while j > 0
      invariant 0 <= j <= |message|
      invariant |message[j..] + below| < maxLines && lines == Reversed(message[j..] + below)
    {
      j := j - 1;
      PushStep(message, j, below, maxLines);
      lines := lines + [message[j]];
      if |lines| >= maxLines {
        return;
      }
    }
    assert message[0..] == message;
    SuffixShort(message + below, maxLines);
  }

  lemma SuffixShort<T>(s: seq<T>, n: nat)
    requires |s| < n
    ensures Suffix(s, n) == s
  {}

  lemma PushStep(message: seq<Line>, j: nat, below: seq<Line>, maxLines: nat)
    requires j < |message| && |message[j + 1..] + below| < maxLines
    ensures var lines := Reversed(message[j + 1..] + below) + [message[j]];
      && lines == Reversed(message[j..] + below) && |lines| == |message[j..] + below|
      && (|lines| >= maxLines ==> lines == Reversed(Suffix(message + below, maxLines)))
  {
    var rest := message[j + 1..] + below;
    assert message[j..] + below == [message[j]] + rest;
    assert message[..j] + (message[j..] + below) == message + below;
    SuffixGrows(message[j], rest, maxLines);
    ReversedTwice(rest);
    assert ([message[j]] + rest)[1..] == rest;
    if |message[j..] + below| >= maxLines { SuffixFull(message[..j], message[j..] + below, maxLines); }
  }

  method ConsoleLines(maxChars: nat, maxLines: nat, entries: seq<LogEntry>) returns (lines: seq<Line>)
    ensures lines == View(entries, maxChars, maxLines)
  {
    lines := [];
    if maxChars == 0 || maxLines == 0 {
      return;
    }
    var i := |entries|;
    ghost var below: seq<Line> := [];
    assert entries[i..] == [];
    while i > 0
      invariant 0 <= i <= |entries|
      invariant below == AllLines(entries[i..], maxChars) && |below| < maxLines
      invariant lines == Reversed(below)
    {
      i := i - 1;
      var texts := WrapText(Render(entries[i]), maxChars);
      var message := Painted(Color(entries[i].level), texts);
      lines := PushLines(lines, message, maxLines, below);
      assert entries[i..][1..] == entries[i + 1..];
      below := message + below;
      assert below == AllLines(entries[i..], maxChars);
      ReversedTwice(Suffix(below, maxLines));
      if |lines| >= maxLines {
        AllLinesFrom(entries, i, maxChars);
        SuffixFull(AllLines(entries[..i], maxChars), below, maxLines);
        lines := Reversed(lines);
        return;
      }
    }
    assert entries[0..] == entries;
    ReversedTwice(below);
    lines := Reversed(lines);
  }

  // Every line shown fits the width.
  lemma {:induction false} ViewFits(entries: seq<LogEntry>, maxChars: nat, maxLines: nat)
    requires maxChars > 0
    ensures |View(entries, maxChars, maxLines)| <= maxLines
    ensures forall i | 0 <= i < |AllLines(entries, maxChars)| :: 0 < |AllLines(entries, maxChars)[i].text| <= maxChars
    ensures forall i | 0 <= i < |View(entries, maxChars, maxLines)| ::
      0 < |View(entries, maxChars, maxLines)[i].text| <= maxChars
    decreases |entries|
  {
    if entries != [] {
      WrapJoins(Render(entries[0]), maxChars);
      ViewFits(entries[1..], maxChars, maxLines);
    }
  }
}
