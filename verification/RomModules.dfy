// Restoring blank ROM modules from the download image. Both images are scanned
// for module headers; a blank module whose header the download image holds with
// a verified body is copied into the flash in place.
module RomModules {
  import opened Bits

  const FIRST: nat := 0x8018
  const HEADER: nat := 0x20
  const MAGIC: seq<Byte> := [0x00, 0x10, 0x00, 0x44]
  const ENTRY: seq<Byte> := [0x4E, 0x4B, 0x4E, 0x75, 0x4E, 0x4C, 0x4E, 0x75]

  datatype Module = Module(at: nat, checksum: nat, length: nat)
  datatype Restored = Restored(dst: nat, src: nat, length: nat)

  function BeLong(b: seq<Byte>, off: nat): nat {
    if off + 4 <= |b| then
      b[off] as int * 0x100_0000 + b[off + 1] as int * 0x1_0000 + b[off + 2] as int * 0x100 + b[off + 3] as int
    else 0
  }

  // Big-endian words of a body, summed mod 2^32; an odd last byte is ignored.
  function ModuleChecksum(body: seq<Byte>): nat {
    if |body| < 2 then 0
    else (body[0] as int * 0x100 + body[1] as int + ModuleChecksum(body[2..])) % 0x1_0000_0000
  }

  predicate HasHeader(b: seq<Byte>, i: nat) {
    i + HEADER <= |b| && b[i..i + 4] == MAGIC && b[i + 12..i + 20] == ENTRY
  }

  predicate Blank(b: seq<Byte>, from: nat, to: nat)
    requires from <= to <= |b|
  {
    forall k | from <= k < to :: b[k] == 0
  }

  // A module of the flash whose body is still blank.
  predicate IsTarget(flash: seq<Byte>, i: nat) {
    HasHeader(flash, i) &&
    var length := BeLong(flash, i + 8);
    length >= HEADER && i + length <= |flash| && Blank(flash, i + HEADER, i + length)
  }

  // A module of the download image whose body matches its header's checksum.
  predicate IsSource(opsys: seq<Byte>, j: nat) {
    HasHeader(opsys, j) &&
    var length := BeLong(opsys, j + 8);
    length > HEADER && length % 2 == 0 && j + length <= |opsys|
    && ModuleChecksum(opsys[j + HEADER..j + length]) == BeLong(opsys, j + 4)
  }

  function ModuleAt(b: seq<Byte>, i: nat): Module { Module(i, BeLong(b, i + 4), BeLong(b, i + 8)) }

  function Targets(flash: seq<Byte>, i: nat): seq<Module>
    decreases |flash| - i
  {
    if i + HEADER > |flash| then []
    else (if IsTarget(flash, i) then [ModuleAt(flash, i)] else []) + Targets(flash, i + 2)
  }

  function Sources(opsys: seq<Byte>, j: nat): seq<Module>
    decreases |opsys| - j
  {
    if j + HEADER > |opsys| then []
    else (if IsSource(opsys, j) then [ModuleAt(opsys, j)] else []) + Sources(opsys, j + 2)
  }

  // The first source with the wanted checksum and length.
  function FirstMatch(sources: seq<Module>, wanted: Module): Option<Module> {
    if sources == [] then None
    else if sources[0].checksum == wanted.checksum && sources[0].length == wanted.length then Some(sources[0])
    else FirstMatch(sources[1..], wanted)
  }

  predicate SameHeader(flash: seq<Byte>, dst: nat, opsys: seq<Byte>, src: nat)
    requires dst + HEADER <= |flash| && src + HEADER <= |opsys|
  {
    flash[dst..dst + HEADER] == opsys[src..src + HEADER]
  }

  // ---------- facts about the lists ----------

  // A listed target, found at or after i in the scan's steps of two.
  predicate Entry(flash: seq<Byte>, i: nat, m: Module) {
    m == ModuleAt(flash, m.at) && IsTarget(flash, m.at) && m.at >= i && (m.at - i) % 2 == 0
  }

  ghost predicate Entries(flash: seq<Byte>, i: nat, mods: seq<Module>) {
    && (forall k | 0 <= k < |mods| :: Entry(flash, i, mods[k]))
    && (forall k, l | 0 <= k < l < |mods| :: mods[k].at < mods[l].at)
  }

  lemma EntryEarlier(flash: seq<Byte>, i: nat, m: Module)
    requires Entry(flash, i + 2, m)
    ensures Entry(flash, i, m) && i < m.at
  {
    hide IsTarget, ModuleAt;
  }

  lemma EntriesEarlier(flash: seq<Byte>, i: nat, mods: seq<Module>)
    requires Entries(flash, i + 2, mods)
    ensures Entries(flash, i, mods) && forall k | 0 <= k < |mods| :: i < mods[k].at
  {
    forall k | 0 <= k < |mods| ensures Entry(flash, i, mods[k]) && i < mods[k].at {
      EntryEarlier(flash, i, mods[k]);
    }
    hide Entry;
  }

  lemma EntriesGrow(flash: seq<Byte>, i: nat, mods: seq<Module>)
    requires Entries(flash, i + 2, mods) && IsTarget(flash, i)
    ensures Entries(flash, i, [ModuleAt(flash, i)] + mods)
  {
    EntriesEarlier(flash, i, mods);
    assert Entry(flash, i, ModuleAt(flash, i));
    assert ModuleAt(flash, i).at == i;
    hide Entry, ModuleAt, IsTarget;
  }

  lemma {:induction false} TargetsAreEntries(flash: seq<Byte>, i: nat)
    ensures Entries(flash, i, Targets(flash, i))
    decreases |flash| - i
  {
    hide IsTarget, ModuleAt, Entries;
    if i + HEADER <= |flash| {
      TargetsAreEntries(flash, i + 2);
      var rest := Targets(flash, i + 2);
      if IsTarget(flash, i) {
        EntriesGrow(flash, i, rest);
      } else {
        assert [] + rest == rest;
        EntriesEarlier(flash, i, rest);
      }
    } else {
      NoEntries(flash, i);
    }
  }

  lemma NoEntries(flash: seq<Byte>, i: nat)
    ensures Entries(flash, i, [])
  {}

  lemma TargetsAre(flash: seq<Byte>, i: nat)
    ensures forall k | 0 <= k < |Targets(flash, i)| ::
      var m := Targets(flash, i)[k];
      m == ModuleAt(flash, m.at) && IsTarget(flash, m.at) && m.at >= i && (m.at - i) % 2 == 0
    ensures forall k, l | 0 <= k < l < |Targets(flash, i)| :: Targets(flash, i)[k].at < Targets(flash, i)[l].at
  {
    hide Targets, IsTarget, ModuleAt;
    TargetsAreEntries(flash, i);
    assert forall k | 0 <= k < |Targets(flash, i)| :: Entry(flash, i, Targets(flash, i)[k]);
  }

  lemma {:induction false} SourcesAre(opsys: seq<Byte>, j: nat)
    ensures forall k | 0 <= k < |Sources(opsys, j)| ::
      var m := Sources(opsys, j)[k];
      m == ModuleAt(opsys, m.at) && IsSource(opsys, m.at)
    decreases |opsys| - j
  {
    if j + HEADER <= |opsys| {
      SourcesAre(opsys, j + 2);
    }
  }

  lemma {:induction false} MatchIsListed(sources: seq<Module>, wanted: Module)
    ensures var m := FirstMatch(sources, wanted);
      m.Some? ==> m.value in sources && m.value.checksum == wanted.checksum && m.value.length == wanted.length
    ensures FirstMatch(sources, wanted).None? ==>
      forall k | 0 <= k < |sources| :: sources[k].checksum != wanted.checksum || sources[k].length != wanted.length
  {
    if sources != [] { MatchIsListed(sources[1..], wanted); }
  }

  // ---------- blank modules cannot overlap ----------

  // Every byte of the entry code is nonzero, and it lies inside the header.
  lemma EntryBytes(flash: seq<Byte>, i: nat, k: nat)
    requires HasHeader(flash, i) && k < 8
    ensures flash[i + 12 + k] == ENTRY[k] != 0
  {
    assert flash[i + 12..i + 20][k] == flash[i + 12 + k];
  }

  lemma MagicBytes(flash: seq<Byte>, i: nat)
    requires HasHeader(flash, i)
    ensures flash[i] == 0 && flash[i + 1] == 0x10 && flash[i + 2] == 0 && flash[i + 3] == 0x44
  {
    assert flash[i..i + 4][0] == flash[i] && flash[i..i + 4][1] == flash[i + 1];
    assert flash[i..i + 4][2] == flash[i + 2] && flash[i..i + 4][3] == flash[i + 3];
  }

  // Header constants leave two targets no room to overlap within 12 bytes,
  // except at distance 8, where the later one has an odd length.
  lemma NearTargetsClash(flash: seq<Byte>, i: nat, j: nat)
    requires IsTarget(flash, i) && IsTarget(flash, j)
    requires i < j <= i + 12 && (j - i) % 2 == 0
    ensures BeLong(flash, j + 8) % 2 == 1
  {
    MagicBytes(flash, i);
    MagicBytes(flash, j);
    forall k: nat | k < 8
      ensures flash[i + 12 + k] == ENTRY[k] && flash[j + 12 + k] == ENTRY[k]
    {
      EntryBytes(flash, i, k);
      EntryBytes(flash, j, k);
    }
    assert flash[i + 12] == ENTRY[0] && flash[i + 15] == ENTRY[3] && flash[i + 17] == ENTRY[5]
        && flash[i + 19] == ENTRY[7];
    assert flash[j + 13] == ENTRY[1];
    hide Blank;
  }

  // The bodies of two blank modules of even length are disjoint: the earlier
  // one ends before the later one's body starts.
  lemma BodiesDisjoint(flash: seq<Byte>, i: nat, j: nat)
    requires IsTarget(flash, i) && IsTarget(flash, j)
    requires i < j && (j - i) % 2 == 0
    requires BeLong(flash, j + 8) % 2 == 0
    ensures i + BeLong(flash, i + 8) <= j + HEADER
  {
    if j <= i + 12 {
      NearTargetsClash(flash, i, j);
    } else {
      EntryBytes(flash, j, 7);
      assert flash[j + 19] != 0;
      assert j + 19 >= i + HEADER;
    }
  }

  // ---------- the restoration ----------

  method FindTargets(flash: array<Byte>) returns (mods: seq<Module>)
    ensures mods == Targets(flash[..], FIRST)
  {
    hide IsTarget;
    mods := [];
    var i := FIRST;
    while i + HEADER <= flash.Length
      invariant mods + Targets(flash[..], i) == Targets(flash[..], FIRST)
      decreases flash.Length - i
    {
      var m := ReadTarget(flash, i);
      if m.Some? {
        assert mods + ([m.value] + Targets(flash[..], i + 2)) == (mods + [m.value]) + Targets(flash[..], i + 2);
        mods := mods + [m.value];
      }
      i := i + 2;
    }
  }

  // The blank module with its header at i, if there is one.
  method ReadTarget(flash: array<Byte>, i: nat) returns (m: Option<Module>)
    requires i + HEADER <= flash.Length
    ensures m == if IsTarget(flash[..], i) then Some(ModuleAt(flash[..], i)) else None
  {
    assert flash[..][i..i + 4] == flash[i..i + 4] && flash[..][i + 12..i + 20] == flash[i + 12..i + 20];
    if flash[i..i + 4] != MAGIC || flash[i + 12..i + 20] != ENTRY {
      return None;
    }
    hide BeLong, Blank;
    var checksum := BeLong(flash[..], i + 4);
    var length := BeLong(flash[..], i + 8);
    if length < HEADER || i + length > flash.Length {
      return None;
    }
    var blank := AllZero(flash, i + HEADER, i + length);
    return if blank then Some(Module(i, checksum, length)) else None;
  }

  method AllZero(flash: array<Byte>, from: nat, to: nat) returns (blank: bool)
    requires from <= to <= flash.Length
    ensures blank <==> Blank(flash[..], from, to)
  {
    for k := from to to
      invariant forall m | from <= m < k :: flash[m] == 0
    {
      if flash[k] != 0 {
        return false;
      }
    }
    return true;
  }

  method FindSources(opsys: seq<Byte>) returns (mods: seq<Module>)
    ensures mods == Sources(opsys, 0)
  {
    hide IsSource, ModuleAt, Sources;
    mods := [];
    var j := 0;
    assert [] + Sources(opsys, 0) == Sources(opsys, 0);
    while j + HEADER <= |opsys|
      invariant mods + Sources(opsys, j) == Sources(opsys, 0)
      decreases |opsys| - j
    {
      var m := ReadSource(opsys, j);
      SourcesStep(opsys, j, mods);
      if m.Some? {
        mods := mods + [m.value];
      }
      j := j + 2;
    }
    SourcesEnd(opsys, j);
  }

  lemma SourcesStep(opsys: seq<Byte>, j: nat, mods: seq<Module>)
    requires j + HEADER <= |opsys|
    ensures mods + Sources(opsys, j)
         == (if IsSource(opsys, j) then mods + [ModuleAt(opsys, j)] else mods) + Sources(opsys, j + 2)
  {
    hide IsSource, ModuleAt;
  }

  lemma SourcesEnd(opsys: seq<Byte>, j: nat)
    requires j + HEADER > |opsys|
    ensures forall mods: seq<Module> :: mods + Sources(opsys, j) == mods
  {}

  // The verified module with its header at j, if there is one.
  method ReadSource(opsys: seq<Byte>, j: nat) returns (m: Option<Module>)
    requires j + HEADER <= |opsys|
    ensures m == if IsSource(opsys, j) then Some(ModuleAt(opsys, j)) else None
  {
    if opsys[j..j + 4] != MAGIC || opsys[j + 12..j + 20] != ENTRY {
      return None;
    }
    hide BeLong, ModuleChecksum;
    var checksum := BeLong(opsys, j + 4);
    var length := BeLong(opsys, j + 8);
    if length > HEADER && length % 2 == 0 && j + length <= |opsys|
       && ModuleChecksum(opsys[j + HEADER..j + length]) == checksum {
      return Some(Module(j, checksum, length));
    }
    return None;
  }

  // One restored module, as the caller finds it afterwards.
  ghost predicate Correct(before: seq<Byte>, after: seq<Byte>, opsys: seq<Byte>, r: Restored)
    requires |after| == |before|
  {
    && r.dst >= FIRST && IsTarget(before, r.dst) && r.length == BeLong(before, r.dst + 8)
    && IsSource(opsys, r.src) && r.length == BeLong(opsys, r.src + 8)
    && BeLong(before, r.dst + 4) == BeLong(opsys, r.src + 4)
    && after[r.dst..r.dst + r.length] == opsys[r.src..r.src + r.length]
  }

  ghost predicate InBody(done: seq<Restored>, k: nat) {
    exists d :: 0 <= d < |done| && done[d].dst + 32 <= k < done[d].dst + done[d].length
  }

  // A target is restored exactly when its first match in the download image
  // has its header.
  ghost predicate Decided(after: seq<Byte>, opsys: seq<Byte>, sources: seq<Module>, m: Module, done: seq<Restored>) {
    var s := FirstMatch(sources, m);
    (exists d :: 0 <= d < |done| && done[d].dst == m.at) <==>
    s.Some? && s.value.at + HEADER <= |opsys| && m.at + HEADER <= |after| && SameHeader(after, m.at, opsys, s.value.at)
  }

  // `at` is one of the first t targets.
  ghost predicate Listed(mods: seq<Module>, t: nat, at: nat)
    requires t <= |mods|
  {
    exists u :: 0 <= u < t && mods[u].at == at
  }

  ghost predicate AllCorrect(before: seq<Byte>, now: seq<Byte>, opsys: seq<Byte>, done: seq<Restored>)
    requires |now| == |before|
  {
    forall d | 0 <= d < |done| :: Correct(before, now, opsys, done[d])
  }

  // Only restored bodies have changed.
  ghost predicate OutsideKept(before: seq<Byte>, now: seq<Byte>, done: seq<Restored>)
    requires |now| == |before|
  {
    forall k | 0 <= k < |now| && !InBody(done, k) :: now[k] == before[k]
  }

  ghost predicate AllListed(mods: seq<Module>, t: nat, done: seq<Restored>)
    requires t <= |mods|
  {
    forall d | 0 <= d < |done| :: Listed(mods, t, done[d].dst)
  }

  // Each restored module ends before the bodies of later ones start.
  ghost predicate Apart(done: seq<Restored>) {
    forall d, e | 0 <= d < e < |done| :: done[d].dst + done[d].length <= done[e].dst + 32
  }

  ghost predicate AllDecided(now: seq<Byte>, opsys: seq<Byte>, sources: seq<Module>, mods: seq<Module>, t: nat,
      done: seq<Restored>)
    requires t <= |mods|
  {
    forall u | 0 <= u < t :: Decided(now, opsys, sources, mods[u], done)
  }

  // How far a restoration has come after the first t targets.
  ghost predicate Progress(before: seq<Byte>, now: seq<Byte>, opsys: seq<Byte>, sources: seq<Module>,
                           mods: seq<Module>, t: nat, done: seq<Restored>)
    requires t <= |mods| && |now| == |before|
  {
    && AllCorrect(before, now, opsys, done)
    && OutsideKept(before, now, done)
    && AllListed(mods, t, done)
    && Apart(done)
    && AllDecided(now, opsys, sources, mods, t, done)
  }

  ghost predicate Scanned(before: seq<Byte>, opsys: seq<Byte>, sources: seq<Module>, mods: seq<Module>) {
    mods == Targets(before, FIRST) && sources == Sources(opsys, 0)
  }

  // A target without a usable source is left alone.
  lemma SkipStep(before: seq<Byte>, now: seq<Byte>, opsys: seq<Byte>, sources: seq<Module>,
                 mods: seq<Module>, t: nat, done: seq<Restored>)
    requires Scanned(before, opsys, sources, mods) && t < |mods| && |now| == |before|
    requires Progress(before, now, opsys, sources, mods, t, done)
    requires var s := FirstMatch(sources, mods[t]);
      !(s.Some? && s.value.at + HEADER <= |opsys| && mods[t].at + HEADER <= |now|
          && SameHeader(now, mods[t].at, opsys, s.value.at))
    ensures Progress(before, now, opsys, sources, mods, t + 1, done)
  {
    hide Targets, Sources, IsTarget, IsSource, SameHeader, Correct, InBody;
    TargetsAre(before, FIRST);
    forall d | 0 <= d < |done|
      ensures done[d].dst != mods[t].at
      ensures Listed(mods, t + 1, done[d].dst)
    {
      var u :| 0 <= u < t && mods[u].at == done[d].dst;
    }
    assert Decided(now, opsys, sources, mods[t], done);
  }

  function Copied(now: seq<Byte>, opsys: seq<Byte>, r: Restored): seq<Byte>
    requires r.dst + r.length <= |now| && r.src + r.length <= |opsys|
  {
    now[..r.dst] + opsys[r.src..r.src + r.length] + now[r.dst + r.length..]
  }

  // Nothing but the body of r differs.
  ghost predicate OnlyBody(now: seq<Byte>, next: seq<Byte>, r: Restored)
    requires |next| == |now|
  {
    forall k | 0 <= k < |now| && !(r.dst + HEADER <= k < r.dst + r.length) :: next[k] == now[k]
  }

  // Copying behind an equal header changes nothing outside the body.
  lemma CopyFrame(now: seq<Byte>, opsys: seq<Byte>, r: Restored)
    requires HEADER <= r.length && r.dst + r.length <= |now| && r.src + r.length <= |opsys|
    requires SameHeader(now, r.dst, opsys, r.src)
    ensures |Copied(now, opsys, r)| == |now|
    ensures OnlyBody(now, Copied(now, opsys, r), r)
    ensures Copied(now, opsys, r)[r.dst..r.dst + r.length] == opsys[r.src..r.src + r.length]
  {
    forall k | r.dst <= k < r.dst + HEADER
      ensures now[k] == opsys[r.src + (k - r.dst)]
    {
      assert now[r.dst..r.dst + HEADER][k - r.dst] == opsys[r.src..r.src + HEADER][k - r.dst];
    }
  }

  // What the match of a target is known to be.
  lemma MatchIsUsable(before: seq<Byte>, opsys: seq<Byte>, sources: seq<Module>, mods: seq<Module>, t: nat)
    requires Scanned(before, opsys, sources, mods) && t < |mods|
    requires FirstMatch(sources, mods[t]).Some?
    ensures var m, s := mods[t], FirstMatch(sources, mods[t]).value;
      && m.at >= FIRST && IsTarget(before, m.at) && m.length == BeLong(before, m.at + 8)
      && IsSource(opsys, s.at) && s.length == BeLong(opsys, s.at + 8) == m.length
      && BeLong(before, m.at + 4) == BeLong(opsys, s.at + 4)
      && HEADER < m.length && m.length % 2 == 0
      && m.at + m.length <= |before| && s.at + m.length <= |opsys|
  {
    TargetsAre(before, FIRST);
    SourcesAre(opsys, 0);
    MatchIsListed(sources, mods[t]);
    hide Targets, Sources, FirstMatch, BeLong, ModuleChecksum, HasHeader, Blank;
  }

  // A restored body that ends before the copied body starts keeps its bytes.
  lemma CorrectSurvives(before: seq<Byte>, now: seq<Byte>, next: seq<Byte>, opsys: seq<Byte>, r: Restored, from: nat)
    requires |now| == |before| == |next| && Correct(before, now, opsys, r)
    requires r.dst + r.length <= from
    requires forall k | 0 <= k < |now| && k < from :: next[k] == now[k]
    ensures Correct(before, next, opsys, r)
  {
    assert next[r.dst..r.dst + r.length] == now[r.dst..r.dst + r.length];
  }

  lemma CopyStep(before: seq<Byte>, now: seq<Byte>, opsys: seq<Byte>, sources: seq<Module>,
                 mods: seq<Module>, t: nat, done: seq<Restored>, r: Restored)
    requires Scanned(before, opsys, sources, mods) && t < |mods| && |now| == |before|
    requires Progress(before, now, opsys, sources, mods, t, done)
    requires FirstMatch(sources, mods[t]).Some?
    requires r == Restored(mods[t].at, FirstMatch(sources, mods[t]).value.at, mods[t].length)
    requires r.dst + r.length <= |now| && r.src + r.length <= |opsys| && HEADER < r.length
    requires SameHeader(now, r.dst, opsys, r.src)
    ensures |Copied(now, opsys, r)| == |before|
    ensures Progress(before, Copied(now, opsys, r), opsys, sources, mods, t + 1, done + [r])
  {
    hide BeLong, IsTarget, IsSource, Targets, Sources, FirstMatch, Copied, SameHeader, Correct;
    hide AllCorrect, OutsideKept, AllListed, Apart, AllDecided, AllBefore, OnlyBody;
    MatchIsUsable(before, opsys, sources, mods, t);
    CopyFrame(now, opsys, r);
    NewIsCorrect(before, Copied(now, opsys, r), opsys, r);
    CopyKeepsProgress(before, now, Copied(now, opsys, r), opsys, sources, mods, t, done, r);
  }

  lemma CopyKeepsProgress(before: seq<Byte>, now: seq<Byte>, next: seq<Byte>, opsys: seq<Byte>, sources: seq<Module>,
                          mods: seq<Module>, t: nat, done: seq<Restored>, r: Restored)
    requires mods == Targets(before, FIRST) && t < |mods| && |now| == |next| == |before|
    requires Progress(before, now, opsys, sources, mods, t, done)
    requires FirstMatch(sources, mods[t]).Some? && r.src == FirstMatch(sources, mods[t]).value.at
    requires r.dst == mods[t].at && r.length == mods[t].length && r.length % 2 == 0
    requires r.src + HEADER <= |opsys| && r.dst + HEADER <= |now| && SameHeader(now, r.dst, opsys, r.src)
    requires OnlyBody(now, next, r) && Correct(before, next, opsys, r)
    ensures Progress(before, next, opsys, sources, mods, t + 1, done + [r])
  {
    hide Targets, FirstMatch, SameHeader, Correct, AllCorrect, OutsideKept, AllListed, Apart, AllDecided, AllBefore,
        OnlyBody;
    CopyKeepsCorrect(before, now, next, opsys, mods, t, done, r);
    CopyKeepsDecisions(before, now, next, opsys, sources, mods, t, done, r);
    BodyGrows(now, next, before, done, r);
    ListGrows(done, r, mods, t);
    EndsGrow(before, next, opsys, done, r);
  }

  ghost predicate AllBefore(done: seq<Restored>, r: Restored) {
    forall d | 0 <= d < |done| :: done[d].dst + done[d].length <= r.dst + HEADER
  }

  lemma EndsGrow(before: seq<Byte>, next: seq<Byte>, opsys: seq<Byte>, done: seq<Restored>, r: Restored)
    requires |next| == |before| && Correct(before, next, opsys, r)
    requires Apart(done)
    requires AllCorrect(before, next, opsys, done) && AllBefore(done, r)
    ensures Apart(done + [r])
    ensures AllCorrect(before, next, opsys, done + [r])
  {
    hide Correct;
  }

  lemma NewIsCorrect(before: seq<Byte>, next: seq<Byte>, opsys: seq<Byte>, r: Restored)
    requires |next| == |before| && r.dst >= FIRST && IsTarget(before, r.dst) && r.length == BeLong(before, r.dst + 8)
    requires IsSource(opsys, r.src) && r.length == BeLong(opsys, r.src + 8)
    requires BeLong(before, r.dst + 4) == BeLong(opsys, r.src + 4)
    requires r.dst + r.length <= |next| && r.src + r.length <= |opsys|
    requires next[r.dst..r.dst + r.length] == opsys[r.src..r.src + r.length]
    ensures Correct(before, next, opsys, r)
  {}

  lemma ListGrows(done: seq<Restored>, r: Restored, mods: seq<Module>, t: nat)
    requires t < |mods| && r.dst == mods[t].at
    requires AllListed(mods, t, done)
    ensures AllListed(mods, t + 1, done + [r])
  {
    forall d | 0 <= d < |done + [r]|
      ensures Listed(mods, t + 1, (done + [r])[d].dst)
    {
      if d < |done| {
        assert Listed(mods, t, done[d].dst);
        var u :| 0 <= u < t && mods[u].at == done[d].dst;
      } else {
        assert mods[t].at == (done + [r])[d].dst;
      }
    }
  }

  lemma CorrectTarget(before: seq<Byte>, now: seq<Byte>, opsys: seq<Byte>, r: Restored)
    requires |now| == |before| && Correct(before, now, opsys, r)
    ensures IsTarget(before, r.dst) && r.length == BeLong(before, r.dst + 8)
  {}

  lemma CopyKeepsCorrect(before: seq<Byte>, now: seq<Byte>, next: seq<Byte>, opsys: seq<Byte>, mods: seq<Module>,
                         t: nat, done: seq<Restored>, r: Restored)
    requires mods == Targets(before, FIRST) && t < |mods| && |now| == |next| == |before|
    requires r.dst == mods[t].at && r.length == mods[t].length && r.length % 2 == 0
    requires OnlyBody(now, next, r)
    requires AllCorrect(before, now, opsys, done)
    requires AllListed(mods, t, done)
    ensures AllCorrect(before, next, opsys, done) && AllBefore(done, r)
  {
    hide Targets, IsTarget, IsSource, BeLong, Correct, Listed, OnlyBody;
    TargetKnown(before, mods, t);
    forall d | 0 <= d < |done|
      ensures done[d].dst + done[d].length <= r.dst + HEADER && Correct(before, next, opsys, done[d])
    {
      CorrectTarget(before, now, opsys, done[d]);
      ListedIsEarlier(before, mods, t, done[d].dst);
      BodiesDisjoint(before, done[d].dst, r.dst);
      BodyFrame(now, next, r);
      CorrectSurvives(before, now, next, opsys, done[d], r.dst + HEADER);
    }
  }

  lemma TargetKnown(before: seq<Byte>, mods: seq<Module>, t: nat)
    requires mods == Targets(before, FIRST) && t < |mods|
    ensures IsTarget(before, mods[t].at) && mods[t].length == BeLong(before, mods[t].at + 8)
  {
    TargetsAre(before, FIRST);
    hide Targets, IsTarget, BeLong;
  }

  lemma ListedIsEarlier(before: seq<Byte>, mods: seq<Module>, t: nat, at: nat)
    requires mods == Targets(before, FIRST) && t < |mods| && Listed(mods, t, at)
    ensures at < mods[t].at && (mods[t].at - at) % 2 == 0
  {
    TargetsAre(before, FIRST);
    hide Targets, IsTarget, BeLong;
    var u :| 0 <= u < t && mods[u].at == at;
    assert (mods[u].at - FIRST) % 2 == 0 && (mods[t].at - FIRST) % 2 == 0;
  }

  lemma BodyFrame(now: seq<Byte>, next: seq<Byte>, r: Restored)
    requires |next| == |now| && OnlyBody(now, next, r)
    ensures forall k | 0 <= k < |now| && k < r.dst + HEADER :: next[k] == now[k]
  {}

  lemma BodyGrows(now: seq<Byte>, next: seq<Byte>, before: seq<Byte>, done: seq<Restored>, r: Restored)
    requires |now| == |next| == |before|
    requires OnlyBody(now, next, r)
    requires OutsideKept(before, now, done)
    ensures OutsideKept(before, next, done + [r])
  {
    forall k | 0 <= k < |now| && !InBody(done + [r], k)
      ensures next[k] == before[k]
    {
      assert (done + [r])[|done|] == r;
      InBodyGrows(done, r, k);
    }
  }

  lemma InBodyGrows(done: seq<Restored>, r: Restored, k: nat)
    ensures InBody(done, k) ==> InBody(done + [r], k)
  {
    if InBody(done, k) {
      var d :| 0 <= d < |done| && done[d].dst + HEADER <= k < done[d].dst + done[d].length;
      assert (done + [r])[d] == done[d];
    }
  }

  // Earlier headers lie before the copied body, so earlier decisions stand.
  lemma CopyKeepsDecisions(before: seq<Byte>, now: seq<Byte>, next: seq<Byte>, opsys: seq<Byte>, sources: seq<Module>,
                           mods: seq<Module>, t: nat, done: seq<Restored>, r: Restored)
    requires mods == Targets(before, FIRST) && t < |mods| && |now| == |next| == |before| && r.dst == mods[t].at
    requires OnlyBody(now, next, r)
    requires AllDecided(now, opsys, sources, mods, t, done)
    requires FirstMatch(sources, mods[t]).Some? && r.src == FirstMatch(sources, mods[t]).value.at
    requires r.src + HEADER <= |opsys| && r.dst + HEADER <= |now| && SameHeader(now, r.dst, opsys, r.src)
    ensures AllDecided(next, opsys, sources, mods, t + 1, done + [r])
  {
    TargetsAre(before, FIRST);
    hide Targets, FirstMatch, IsTarget;
    assert (done + [r])[|done|] == r;
    forall u | 0 <= u < t + 1
      ensures Decided(next, opsys, sources, mods[u], done + [r])
    {
      if u < t {
        assert mods[u].at < r.dst && mods[u].at + HEADER <= |next|;
        assert next[mods[u].at..mods[u].at + HEADER] == now[mods[u].at..mods[u].at + HEADER];
        assert Decided(now, opsys, sources, mods[u], done);
        ListedGrows(done, r, mods[u].at);
      } else {
        assert next[r.dst..r.dst + HEADER] == now[r.dst..r.dst + HEADER];
      }
    }
  }

  lemma ListedGrows(done: seq<Restored>, r: Restored, at: nat)
    requires r.dst != at
    ensures (exists d :: 0 <= d < |done| && done[d].dst == at)
       <==> (exists d :: 0 <= d < |done + [r]| && (done + [r])[d].dst == at)
  {
    if d :| 0 <= d < |done| && done[d].dst == at { assert (done + [r])[d].dst == at; }
    if d :| 0 <= d < |done + [r]| && (done + [r])[d].dst == at { assert done[d].dst == at; }
  }

  // ---------- modules in bytes ----------

  // The plain, unbounded sum the header checksum is a remainder of.
  function WordSum(body: seq<Byte>): nat {
    if |body| < 2 then 0 else body[0] as int * 0x100 + body[1] as int + WordSum(body[2..])
  }

  lemma SumOfRemainder(a: nat, s: nat, m: nat)
    requires m == 0x1_0000_0000
    ensures (a + s % m) % m == (a + s) % m
  {}

  lemma {:induction false} ChecksumIsWordSum(body: seq<Byte>)
    ensures ModuleChecksum(body) == WordSum(body) % 0x1_0000_0000
  {
    if |body| >= 2 {
      ChecksumIsWordSum(body[2..]);
      SumOfRemainder(body[0] as int * 0x100 + body[1] as int, WordSum(body[2..]), 0x1_0000_0000);
    }
  }

  function LongAt(b: seq<Byte>, off: nat): nat
    requires off + 4 <= |b|
  {
    ((b[off] as int * 256 + b[off + 1] as int) * 256 + b[off + 2] as int) * 256 + b[off + 3] as int
  }

  // A header: the module mark and the entry code.
  predicate Marked(b: seq<Byte>, i: nat) {
    && i + 32 <= |b|
    && b[i] == 0x00 && b[i + 1] == 0x10 && b[i + 2] == 0x00 && b[i + 3] == 0x44
    && b[i + 12] == 0x4E && b[i + 13] == 0x4B && b[i + 14] == 0x4E && b[i + 15] == 0x75
    && b[i + 16] == 0x4E && b[i + 17] == 0x4C && b[i + 18] == 0x4E && b[i + 19] == 0x75
  }

  predicate BlankModule(b: seq<Byte>, i: nat) {
    && Marked(b, i) && LongAt(b, i + 8) >= 32 && i + LongAt(b, i + 8) <= |b|
    && forall k | i + 32 <= k < i + LongAt(b, i + 8) :: b[k] == 0
  }

  predicate VerifiedModule(b: seq<Byte>, j: nat) {
    && Marked(b, j) && LongAt(b, j + 8) > 32 && LongAt(b, j + 8) % 2 == 0 && j + LongAt(b, j + 8) <= |b|
    && WordSum(b[j + 32..j + LongAt(b, j + 8)]) % 0x1_0000_0000 == LongAt(b, j + 4)
  }

  lemma HeaderInBytes(b: seq<Byte>, i: nat)
    ensures HasHeader(b, i) <==> Marked(b, i)
  {
    if HasHeader(b, i) {
      MagicBytes(b, i);
      forall k: nat | k < 8 ensures b[i + 12 + k] == ENTRY[k] { EntryBytes(b, i, k); }
      assert b[i + 12] == ENTRY[0] && b[i + 13] == ENTRY[1] && b[i + 14] == ENTRY[2] && b[i + 15] == ENTRY[3];
      assert b[i + 16] == ENTRY[4] && b[i + 17] == ENTRY[5] && b[i + 18] == ENTRY[6] && b[i + 19] == ENTRY[7];
    }
    if Marked(b, i) { assert b[i..i + 4] == MAGIC && b[i + 12..i + 20] == ENTRY; }
  }

  lemma LongInBytes(b: seq<Byte>, off: nat)
    requires off + 4 <= |b|
    ensures BeLong(b, off) == LongAt(b, off)
  {}

  lemma TargetInBytes(b: seq<Byte>, i: nat)
    ensures IsTarget(b, i) <==> BlankModule(b, i)
  {
    HeaderInBytes(b, i);
    if Marked(b, i) { LongInBytes(b, i + 8); }
    hide HasHeader, Marked, BeLong, LongAt;
  }

  lemma SourceInBytes(b: seq<Byte>, j: nat)
    ensures IsSource(b, j) <==> VerifiedModule(b, j)
  {
    HeaderInBytes(b, j);
    if Marked(b, j) {
      LongInBytes(b, j + 8);
      LongInBytes(b, j + 4);
      var n := LongAt(b, j + 8);
      if 32 <= n && j + n <= |b| { ChecksumIsWordSum(b[j + 32..j + n]); }
    }
    hide HasHeader, Marked, BeLong, LongAt, ModuleChecksum, WordSum;
  }

  // A verified module with the wanted checksum and length.
  predicate Wanted(opsys: seq<Byte>, j: nat, wanted: Module) {
    IsSource(opsys, j) && BeLong(opsys, j + 4) == wanted.checksum && BeLong(opsys, j + 8) == wanted.length
  }

  // The match of a module is the first verified module it could be, from j on.
  lemma {:induction false} MatchIsFirst(opsys: seq<Byte>, j: nat, wanted: Module)
    ensures match FirstMatch(Sources(opsys, j), wanted)
      case Some(m) =>
        && m.at >= j && (m.at - j) % 2 == 0 && Wanted(opsys, m.at, wanted)
        && forall k | j <= k < m.at && (k - j) % 2 == 0 :: !Wanted(opsys, k, wanted)
      case None => forall k | j <= k && (k - j) % 2 == 0 :: !Wanted(opsys, k, wanted)
    decreases |opsys| - j
  {
    hide IsSource, BeLong;
    if j + HEADER > |opsys| {
      forall k: nat | j <= k ensures !Wanted(opsys, k, wanted) { TooShort(opsys, k); }
    } else {
      MatchIsFirst(opsys, j + 2, wanted);
      MatchStep(opsys, j, wanted);
      hide Wanted, Sources, FirstMatch;
      var m := FirstMatch(Sources(opsys, j), wanted);
      if !Wanted(opsys, j, wanted) {
        forall k: nat | j <= k && (k - j) % 2 == 0 && (m.Some? ==> k < m.value.at)
          ensures !Wanted(opsys, k, wanted)
        {
          if k > j { assert (k - (j + 2)) % 2 == 0; }
        }
      }
    }
  }

  lemma MatchStep(opsys: seq<Byte>, j: nat, wanted: Module)
    requires j + HEADER <= |opsys|
    ensures FirstMatch(Sources(opsys, j), wanted)
         == if Wanted(opsys, j, wanted) then Some(ModuleAt(opsys, j)) else FirstMatch(Sources(opsys, j + 2), wanted)
  {
    hide IsSource, BeLong;
    var rest := Sources(opsys, j + 2);
    assert ([ModuleAt(opsys, j)] + rest)[1..] == rest;
    assert [] + rest == rest;
  }

  lemma TooShort(b: seq<Byte>, i: nat)
    requires i + HEADER > |b|
    ensures !IsSource(b, i) && !IsTarget(b, i)
  {}

  predicate Holds(mods: seq<Module>, at: nat) { exists u :: 0 <= u < |mods| && mods[u].at == at }

  lemma {:induction false} TargetsAreAll(flash: seq<Byte>, i: nat, at: nat)
    requires IsTarget(flash, at) && at >= i && (at - i) % 2 == 0
    ensures Holds(Targets(flash, i), at)
    decreases |flash| - i
  {
    hide IsTarget, ModuleAt, Holds;
    if i + HEADER > |flash| {
      TooShort(flash, at);
    } else {
      var first := if IsTarget(flash, i) then [ModuleAt(flash, i)] else [];
      if at > i { TargetsAreAll(flash, i + 2, at); }
      HoldsFirst(flash, i, Targets(flash, i + 2));
      HoldsMore(first, Targets(flash, i + 2), at);
    }
  }

  lemma HoldsFirst(flash: seq<Byte>, i: nat, rest: seq<Module>)
    ensures Holds([ModuleAt(flash, i)] + rest, i)
  {
    assert ([ModuleAt(flash, i)] + rest)[0].at == i;
  }

  lemma HoldsMore(first: seq<Module>, rest: seq<Module>, at: nat)
    ensures Holds(rest, at) ==> Holds(first + rest, at)
  {
    if u :| 0 <= u < |rest| && rest[u].at == at { assert (first + rest)[|first| + u].at == at; }
  }

  // Module j of the download image has the checksum and length of the one at i.
  predicate Twin(before: seq<Byte>, i: nat, opsys: seq<Byte>, j: nat)
    requires Marked(before, i)
  {
    && j % 2 == 0 && VerifiedModule(opsys, j)
    && LongAt(before, i + 4) == LongAt(opsys, j + 4) && LongAt(before, i + 8) == LongAt(opsys, j + 8)
  }

  predicate FirstTwin(before: seq<Byte>, i: nat, opsys: seq<Byte>, j: nat)
    requires Marked(before, i)
  {
    Twin(before, i, opsys, j) && forall k: nat | k < j :: !Twin(before, i, opsys, k)
  }

  // The first such module has the same 32-byte header.
  ghost predicate HasTwin(before: seq<Byte>, after: seq<Byte>, i: nat, opsys: seq<Byte>)
    requires Marked(before, i) && |after| == |before|
  {
    exists j: nat :: FirstTwin(before, i, opsys, j) && after[i..i + 32] == opsys[j..j + 32]
  }

  ghost predicate Reported(done: seq<Restored>, i: nat) { exists d :: 0 <= d < |done| && done[d].dst == i }

  // A blank module at an even address from 0x8018 on is restored if and only if the
  // first verified module with its checksum and length has its header, and nothing
  // else is restored.
  ghost predicate RestoredIffTwin(before: seq<Byte>, after: seq<Byte>, opsys: seq<Byte>, done: seq<Restored>)
    requires |after| == |before|
  {
    forall i: nat :: Reported(done, i) <==>
      i >= 0x8018 && i % 2 == 0 && BlankModule(before, i) && HasTwin(before, after, i, opsys)
  }

  lemma WantedIsTwin(before: seq<Byte>, i: nat, opsys: seq<Byte>, j: nat)
    requires Marked(before, i)
    ensures Twin(before, i, opsys, j) <==> j % 2 == 0 && Wanted(opsys, j, ModuleAt(before, i))
  {
    SourceInBytes(opsys, j);
    LongInBytes(before, i + 4);
    LongInBytes(before, i + 8);
    if VerifiedModule(opsys, j) {
      LongInBytes(opsys, j + 4);
      LongInBytes(opsys, j + 8);
    }
    hide IsSource, BeLong, LongAt, WordSum;
  }

  lemma FirstTwinIsMatch(before: seq<Byte>, i: nat, opsys: seq<Byte>, j: nat)
    requires Marked(before, i)
    ensures var s := FirstMatch(Sources(opsys, 0), ModuleAt(before, i));
      FirstTwin(before, i, opsys, j) <==> s.Some? && s.value.at == j
  {
    var m := ModuleAt(before, i);
    MatchIsFirst(opsys, 0, m);
    hide Sources, FirstMatch, Wanted, ModuleAt, Twin;
    forall k: nat ensures Twin(before, i, opsys, k) <==> k % 2 == 0 && Wanted(opsys, k, m) {
      WantedIsTwin(before, i, opsys, k);
    }
  }

  // The decision about one blank module, in bytes.
  lemma DecisionInBytes(before: seq<Byte>, after: seq<Byte>, opsys: seq<Byte>, i: nat)
    requires |after| == |before| && Marked(before, i)
    ensures var s := FirstMatch(Sources(opsys, 0), ModuleAt(before, i));
      HasTwin(before, after, i, opsys) <==>
        s.Some? && s.value.at + HEADER <= |opsys| && SameHeader(after, i, opsys, s.value.at)
  {
    var s := FirstMatch(Sources(opsys, 0), ModuleAt(before, i));
    hide Sources, FirstMatch, ModuleAt, FirstTwin, Marked;
    MarkedFits(before, i);
    forall j: nat ensures FirstTwin(before, i, opsys, j) <==> s.Some? && s.value.at == j {
      FirstTwinIsMatch(before, i, opsys, j);
    }
    if s.Some? { TwinFits(before, i, opsys, s.value.at); }
  }

  lemma MarkedFits(b: seq<Byte>, i: nat)
    ensures Marked(b, i) ==> i + 32 <= |b|
  {}

  lemma TwinFits(before: seq<Byte>, i: nat, opsys: seq<Byte>, j: nat)
    requires Marked(before, i) && FirstTwin(before, i, opsys, j)
    ensures j + 32 <= |opsys|
  {}

  lemma RestorationInBytes(before: seq<Byte>, after: seq<Byte>, opsys: seq<Byte>, mods: seq<Module>,
      done: seq<Restored>)
    requires |after| == |before| && mods == Targets(before, FIRST)
    requires AllListed(mods, |mods|, done)
    requires AllDecided(after, opsys, Sources(opsys, 0), mods, |mods|, done)
    ensures RestoredIffTwin(before, after, opsys, done)
  {
    forall i: nat
      ensures Reported(done, i) <==>
        i >= 0x8018 && i % 2 == 0 && BlankModule(before, i) && HasTwin(before, after, i, opsys)
    {
      OneInBytes(before, after, opsys, mods, done, i);
    }
    hide BlankModule, HasTwin, Reported;
  }

  lemma OneInBytes(before: seq<Byte>, after: seq<Byte>, opsys: seq<Byte>, mods: seq<Module>, done: seq<Restored>,
      i: nat)
    requires |after| == |before| && mods == Targets(before, FIRST)
    requires AllListed(mods, |mods|, done)
    requires AllDecided(after, opsys, Sources(opsys, 0), mods, |mods|, done)
    ensures Reported(done, i) <==>
      i >= 0x8018 && i % 2 == 0 && BlankModule(before, i) && HasTwin(before, after, i, opsys)
  {
    TargetInBytes(before, i);
    TargetsAre(before, FIRST);
    hide Targets, Sources, IsTarget, BlankModule, HasTwin, FirstMatch, SameHeader;
    if Reported(done, i) {
      var d :| 0 <= d < |done| && done[d].dst == i;
      assert Listed(mods, |mods|, done[d].dst);
    } else if i >= 0x8018 && i % 2 == 0 && BlankModule(before, i) {
      TargetsAreAll(before, FIRST, i);
    }
    if u :| 0 <= u < |mods| && mods[u].at == i {
      BlankIsMarked(before, i);
      DecisionInBytes(before, after, opsys, i);
      assert Decided(after, opsys, Sources(opsys, 0), mods[u], done);
    }
  }

  lemma BlankIsMarked(b: seq<Byte>, i: nat)
    requires BlankModule(b, i)
    ensures Marked(b, i) && i + HEADER <= |b|
  {}

  // ---------- the whole restoration ----------

  // Restore every blank module the download image has a verified body for.
  // Each entry of `done` is a destination, its source and the module length.
  method RestoreRomModules(flash: array<Byte>, opsys: seq<Byte>) returns (done: seq<Restored>)
    modifies flash
    ensures AllCorrect(old(flash[..]), flash[..], opsys, done)
    ensures OutsideKept(old(flash[..]), flash[..], done)
    ensures Apart(done)
    ensures RestoredIffTwin(old(flash[..]), flash[..], opsys, done)
  {
    ghost var before := flash[..];
    var mods := FindTargets(flash);
    var sources := FindSources(opsys);
    done := [];
    hide Targets, Sources, FirstMatch, Copied, SameHeader, Progress;
    NothingDone(before, opsys, sources, mods);
    for t := 0 to |mods|
      invariant Progress(before, flash[..], opsys, sources, mods, t, done)
    {
      var m := mods[t];
      ghost var now := flash[..];
      var s := FirstMatch(sources, m);
      if s.None? {
        SkipStep(before, now, opsys, sources, mods, t, done);
        continue;
      }
      MatchIsUsable(before, opsys, sources, mods, t);
      var src := s.value.at;
      if src + s.value.length > |opsys| || !SameHeader(flash[..], m.at, opsys, src) {
        SkipStep(before, now, opsys, sources, mods, t, done);
        continue;
      }
      CopyStep(before, now, opsys, sources, mods, t, done, Restored(m.at, src, m.length));
      CopyModule(flash, opsys, Restored(m.at, src, m.length));
      done := done + [Restored(m.at, src, m.length)];
    }
    ProgressMeans(before, flash[..], opsys, sources, mods, done);
  }

  lemma ProgressMeans(before: seq<Byte>, now: seq<Byte>, opsys: seq<Byte>, sources: seq<Module>, mods: seq<Module>,
      done: seq<Restored>)
    requires |now| == |before| && Scanned(before, opsys, sources, mods)
    requires Progress(before, now, opsys, sources, mods, |mods|, done)
    ensures AllCorrect(before, now, opsys, done) && OutsideKept(before, now, done) && Apart(done)
    ensures RestoredIffTwin(before, now, opsys, done)
  {
    hide AllCorrect, OutsideKept, Apart, AllDecided, AllListed, RestoredIffTwin, Targets, Sources;
    RestorationInBytes(before, now, opsys, mods, done);
  }

  lemma NothingDone(before: seq<Byte>, opsys: seq<Byte>, sources: seq<Module>, mods: seq<Module>)
    ensures Progress(before, before, opsys, sources, mods, 0, [])
  {}

  method CopyModule(flash: array<Byte>, opsys: seq<Byte>, r: Restored)
    requires r.dst + r.length <= flash.Length && r.src + r.length <= |opsys|
    modifies flash
    ensures flash[..] == Copied(old(flash[..]), opsys, r)
  {
    for k := 0 to r.length
      invariant forall m | 0 <= m < flash.Length ::
        flash[m] == if r.dst <= m < r.dst + k then opsys[r.src + m - r.dst] else old(flash[m])
    {
      flash[r.dst + k] := opsys[r.src + k];
    }
  }

  // ---------- what a restored flash satisfies ----------

  lemma BeLongOfSlice(a: seq<Byte>, i: nat, b: seq<Byte>, j: nat, n: nat, off: nat)
    requires i + n <= |a| && j + n <= |b| && off + 4 <= n
    requires a[i..i + n] == b[j..j + n]
    ensures BeLong(a, i + off) == BeLong(b, j + off)
  {
    var s, u := a[i..i + n], b[j..j + n];
    assert a[i + off] == s[off] && a[i + off + 1] == s[off + 1] && a[i + off + 2] == s[off + 2]
        && a[i + off + 3] == s[off + 3];
    assert b[j + off] == u[off] && b[j + off + 1] == u[off + 1] && b[j + off + 2] == u[off + 2]
        && b[j + off + 3] == u[off + 3];
  }

  // Every reported module was blank, and in the final flash its own header
  // vouches for its body.
  lemma RestoredModuleVerifies(before: seq<Byte>, after: seq<Byte>, opsys: seq<Byte>, r: Restored)
    requires |after| == |before| && Correct(before, after, opsys, r)
    ensures BlankModule(before, r.dst) && LongAt(before, r.dst + 8) == r.length
    ensures VerifiedModule(after, r.dst) && LongAt(after, r.dst + 8) == r.length
  {
    HeadersInBytes(before, after, r.dst);
    TargetInBytes(before, r.dst);
    SourceInBytes(after, r.dst);
    hide BlankModule, VerifiedModule, LongAt;
    RestoredIsSource(before, after, opsys, r);
  }

  lemma HeadersInBytes(before: seq<Byte>, after: seq<Byte>, i: nat)
    ensures i + 12 <= |before| ==> BeLong(before, i + 8) == LongAt(before, i + 8)
    ensures i + 12 <= |after| ==> BeLong(after, i + 8) == LongAt(after, i + 8)
  {}

  lemma RestoredIsSource(before: seq<Byte>, after: seq<Byte>, opsys: seq<Byte>, r: Restored)
    requires |after| == |before| && Correct(before, after, opsys, r)
    ensures IsTarget(before, r.dst) && BeLong(before, r.dst + 8) == r.length && r.dst + 32 <= |before|
    ensures IsSource(after, r.dst) && BeLong(after, r.dst + 8) == r.length
  {
    var n := r.length;
    hide BeLong, ModuleChecksum, Blank;
    BeLongOfSlice(after, r.dst, opsys, r.src, n, 4);
    BeLongOfSlice(after, r.dst, opsys, r.src, n, 8);
    SlicesAgree(after, r.dst, opsys, r.src, n, 0, 4);
    SlicesAgree(after, r.dst, opsys, r.src, n, 12, 20);
    SlicesAgree(after, r.dst, opsys, r.src, n, HEADER, n);
  }

  lemma SlicesAgree(a: seq<Byte>, i: nat, b: seq<Byte>, j: nat, n: nat, from: nat, to: nat)
    requires i + n <= |a| && j + n <= |b| && from <= to <= n
    requires a[i..i + n] == b[j..j + n]
    ensures a[i + from..i + to] == b[j + from..j + to]
  {
    var s, u := a[i + from..i + to], b[j + from..j + to];
    forall k | 0 <= k < |s|
      ensures s[k] == u[k]
    {
      assert a[i..i + n][from + k] == b[j..j + n][from + k];
    }
  }
}
