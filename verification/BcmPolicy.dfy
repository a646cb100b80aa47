// The guard on the one BCM reminder write. Flags are set step by step as frames
// pass in both directions; the ghost run is the list of steps that passed.
module BcmPolicy {
  import opened Bits

  datatype Transmission = Transmission(id: nat, data: seq<Byte>, plainRoute: bool)

  // A frame that passed the policy, by what it is to the policy.
  datatype Step =
    | SeedRequest | SeedReply | KeySent | Grant
    | ReadRequest | ReadReply(first: Byte, second: Byte)
    | WriteRequest | Acknowledgment
    | Rejection(service: Byte, code: Byte)
    | Other

  const SEED_REQUEST: seq<Byte> := [2, 0x27, 1, 0, 0, 0, 0, 0]
  const READ_REQUEST: seq<Byte> := [2, 0x1a, 1, 0, 0, 0, 0, 0]
  function KeyFrame(key: Word16): seq<Byte> { [4, 0x27, 2, key / 0x100, key % 0x100, 0, 0, 0] }
  function WriteFrame(desired: Byte): seq<Byte> { [4, 0x3b, 1, 0x99, desired, 0, 0, 0] }

  // The reminder byte before the write: the two settings differ in 0xc0.
  function Baseline(desired: Byte): Byte
    requires desired == 0 || desired == 0xc0
  {
    0xc0 - desired
  }

  // ---------- what a run has shown ----------

  // A read request is waiting for its reply.
  predicate Pending(run: seq<Step>) {
    run != [] &&
    match run[|run| - 1]
    case ReadRequest => true
    case ReadReply(_, _) => false
    case _ => Pending(run[..|run| - 1])
  }

  // A read reply counts only when it answers a request.
  predicate Correlated(run: seq<Step>, i: nat) {
    i < |run| && run[i].ReadReply? && Pending(run[..i])
  }

  ghost predicate Rejected(run: seq<Step>) { exists i :: 0 <= i < |run| && run[i].Rejection? }

  ghost predicate ShowsBaseline(run: seq<Step>, desired: Byte, e: nat)
    requires desired == 0 || desired == 0xc0
  {
    && Correlated(run, e)
    && run[e] == ReadReply(0x99, Baseline(desired))
    && Grant in run[..e]
    && forall k | e < k < |run| :: !Correlated(run, k)
  }

  ghost predicate BaselineStands(run: seq<Step>, desired: Byte)
    requires desired == 0 || desired == 0xc0
  {
    exists e: nat :: ShowsBaseline(run, desired, e)
  }

  // The write is due: granted, then read back at the baseline, with no later
  // correlated read, nothing rejected and nothing written yet.
  ghost predicate WriteDue(run: seq<Step>, desired: Byte)
    requires desired == 0 || desired == 0xc0
  {
    !Rejected(run) && WriteRequest !in run && BaselineStands(run, desired)
  }

  // A step may pass after `run`.
  ghost predicate Fits(run: seq<Step>, step: Step, desired: Byte)
    requires desired == 0 || desired == 0xc0
  {
    match step
    case SeedRequest => KeySent !in run && !Rejected(run)
    case SeedReply => SeedRequest in run
    case KeySent => SeedReply in run && KeySent !in run && !Rejected(run)
    case Grant => KeySent in run
    case WriteRequest => WriteDue(run, desired)
    case Acknowledgment => WriteRequest in run
    case _ => true
  }

  ghost predicate Ordered(run: seq<Step>, desired: Byte)
    requires desired == 0 || desired == 0xc0
  {
    forall i | 0 <= i < |run| :: Fits(run[..i], run[i], desired)
  }

  // ---------- the flags ----------

  datatype Flags = Flags(requested: bool, matched: bool, keySent: bool, authorized: bool, readPending: bool,
                         baseline: bool, written: bool, rejected: bool, acknowledged: bool)

  // The flags let a step pass.
  predicate Passes(f: Flags, step: Step) {
    match step
    case SeedRequest => !f.rejected && !f.keySent
    case SeedReply => f.requested
    case KeySent => !f.rejected && f.matched && !f.keySent
    case Grant => f.keySent
    case WriteRequest => !f.rejected && f.authorized && f.baseline && !f.written
    case Acknowledgment => f.written
    case _ => true
  }

  function After(f: Flags, step: Step, desired: Byte): Flags
    requires desired == 0 || desired == 0xc0
  {
    match step
    case SeedRequest => f.(requested := true)
    case SeedReply => f.(matched := true)
    case KeySent => f.(keySent := true)
    case Grant => f.(authorized := true)
    case ReadRequest => f.(readPending := true)
    case ReadReply(first, second) =>
      if f.readPending then
        f.(readPending := false, baseline := f.authorized && first == 0x99 && second == Baseline(desired))
      else f
    case WriteRequest => f.(written := true)
    case Acknowledgment => f.(acknowledged := true)
    case Rejection(_, _) => f.(rejected := true, authorized := false, baseline := false)
    case Other => f
  }

  // The flags say what the run has shown.
  ghost predicate Tracks(f: Flags, run: seq<Step>, desired: Byte)
    requires desired == 0 || desired == 0xc0
  {
    && (f.requested <==> SeedRequest in run)
    && (f.matched <==> SeedReply in run)
    && (f.keySent <==> KeySent in run)
    && (f.rejected <==> Rejected(run))
    && (!f.rejected ==> (f.authorized <==> Grant in run))
    && (f.readPending <==> Pending(run))
    && (!f.rejected ==> (f.baseline <==> BaselineStands(run, desired)))
    && (f.written <==> WriteRequest in run)
    && (f.acknowledged <==> Acknowledgment in run)
    && Ordered(run, desired)
  }

  lemma BaselineNeedsGrant(run: seq<Step>, desired: Byte)
    requires desired == 0 || desired == 0xc0
    ensures BaselineStands(run, desired) ==> Grant in run
  {
    if e: nat :| ShowsBaseline(run, desired, e) {
      assert Grant in run[..e];
    }
  }

  // A step passes exactly when it fits the run.
  lemma PassesIffFits(f: Flags, run: seq<Step>, step: Step, desired: Byte)
    requires desired == 0 || desired == 0xc0
    requires Tracks(f, run, desired)
    ensures Passes(f, step) <==> Fits(run, step, desired)
  {
    BaselineNeedsGrant(run, desired);
    hide Pending, Rejected, BaselineStands, Ordered;
  }

  lemma SeenGrows(run: seq<Step>, step: Step, x: Step)
    ensures x in run + [step] <==> x in run || x == step
  {}

  // Five flags only ever rise, each at its own step.
  predicate Rises(before: bool, raised: bool, after: bool) { after <==> before || raised }

  lemma RisingFlags(f: Flags, step: Step, desired: Byte)
    requires desired == 0 || desired == 0xc0
    ensures var g := After(f, step, desired);
      && Rises(f.requested, step.SeedRequest?, g.requested) && Rises(f.matched, step.SeedReply?, g.matched)
      && Rises(f.keySent, step.KeySent?, g.keySent) && Rises(f.written, step.WriteRequest?, g.written)
      && Rises(f.acknowledged, step.Acknowledgment?, g.acknowledged)
  {
    hide Baseline;
    match step
    case SeedRequest => case SeedReply => case KeySent => case Grant => case ReadRequest =>
    case ReadReply(_, _) => case WriteRequest => case Acknowledgment => case Rejection(_, _) => case Other =>
  }

  lemma SeenFlags(f: Flags, run: seq<Step>, step: Step, desired: Byte)
    requires desired == 0 || desired == 0xc0
    requires Tracks(f, run, desired)
    ensures var g, next := After(f, step, desired), run + [step];
      && (g.requested <==> SeedRequest in next) && (g.matched <==> SeedReply in next)
      && (g.keySent <==> KeySent in next) && (g.written <==> WriteRequest in next)
      && (g.acknowledged <==> Acknowledgment in next)
  {
    RisingFlags(f, step, desired);
    hide Pending, Rejected, BaselineStands, Ordered, Baseline, After;
    SeenGrows(run, step, SeedRequest);
    SeenGrows(run, step, SeedReply);
    SeenGrows(run, step, KeySent);
    SeenGrows(run, step, WriteRequest);
    SeenGrows(run, step, Acknowledgment);
  }

  lemma DerivedFlags(f: Flags, run: seq<Step>, step: Step, desired: Byte)
    requires desired == 0 || desired == 0xc0
    requires Tracks(f, run, desired)
    ensures var g, next := After(f, step, desired), run + [step];
      && (g.readPending <==> Pending(next))
      && (g.rejected <==> Rejected(next))
      && (!g.rejected ==> (g.authorized <==> Grant in next))
      && (!g.rejected ==> (g.baseline <==> BaselineStands(next, desired)))
  {
    SeenGrows(run, step, Grant);
    RunGrows(run, step, desired);
    hide Pending, Rejected, BaselineStands, Ordered, Baseline;
  }

  // The flags follow a step that passes.
  lemma StepTracks(f: Flags, run: seq<Step>, step: Step, desired: Byte)
    requires desired == 0 || desired == 0xc0
    requires Tracks(f, run, desired) && Passes(f, step)
    ensures Tracks(After(f, step, desired), run + [step], desired)
  {
    PassesIffFits(f, run, step, desired);
    RunGrows(run, step, desired);
    SeenFlags(f, run, step, desired);
    DerivedFlags(f, run, step, desired);
    hide Pending, Rejected, BaselineStands, Ordered, Fits, Passes, After;
  }

  lemma StepFits(f: Flags, run: seq<Step>, step: Step, desired: Byte)
    requires desired == 0 || desired == 0xc0
    requires Tracks(f, run, desired)
    ensures Passes(f, step) <==> Fits(run, step, desired)
    ensures Passes(f, step) ==> Tracks(After(f, step, desired), run + [step], desired)
  {
    PassesIffFits(f, run, step, desired);
    hide Passes, Tracks, Fits, After;
    if Passes(f, step) { StepTracks(f, run, step, desired); }
  }

  predicate FromEcu(step: Step) {
    step.SeedReply? || step.Grant? || step.ReadReply? || step.Acknowledgment? || step.Rejection? || step.Other?
  }

  lemma PassesFromEcu(f: Flags, step: Step)
    requires FromEcu(step)
    ensures Passes(f, step) <==>
      (step.SeedReply? ==> f.requested) && (step.Grant? ==> f.keySent) && (step.Acknowledgment? ==> f.written)
  {}

  lemma PassesFreely(f: Flags, step: Step)
    requires step == ReadRequest || step == Other
    ensures Passes(f, step)
  {}

  // ---------- frames ----------

  // What a frame towards the BCM is to the policy.
  function Sent(key: Word16, desired: Byte, d: seq<Byte>): Step {
    if d == SEED_REQUEST then SeedRequest
    else if d == KeyFrame(key) then KeySent
    else if d == WriteFrame(desired) then WriteRequest
    else if d == READ_REQUEST then ReadRequest
    else Other
  }

  function Received(d: seq<Byte>): Step
    requires |d| >= 3
  {
    if d[0] == 4 && d[1] == 0x67 && d[2] == 1 && |d| >= 5 then SeedReply
    else if d[0] == 2 && d[1] == 0x67 && d[2] == 2 then Grant
    else if d[0] == 4 && d[1] == 0x5a && d[2] == 1 && |d| >= 5 then ReadReply(d[3], d[4])
    else if d[0] == 2 && d[1] == 0x7b && d[2] == 1 then Acknowledgment
    else if d[0] == 3 && d[1] == 0x7f && |d| >= 4 && d[3] != 0x78
        && (d[2] == 0x27 || d[2] == 0x3b) then Rejection(d[2], d[3])
    else Other
  }

  predicate Policed(d: seq<Byte>) { |d| >= 3 && (d[1] == 0x27 || d[1] == 0x3b) }

  // The policed frames that can pass, told apart as the policy tells them apart.
  lemma SentFrames(key: Word16, desired: Byte, d: seq<Byte>)
    ensures var step := Sent(key, desired, d);
      && (step == ReadRequest <==> d == READ_REQUEST)
      && (step == SeedRequest <==> d == SEED_REQUEST)
      && (step == KeySent <==> d == KeyFrame(key))
      && (step == WriteRequest <==> d == WriteFrame(desired))
      && (step == SeedRequest ==> Policed(d) && d[1] == 0x27 && d[2] == 1)
      && (step == KeySent ==> Policed(d) && d[1] == 0x27 && d[2] == 2)
      && (step == WriteRequest ==> Policed(d) && d[1] == 0x3b)
      && (step == ReadRequest ==> !Policed(d))
      && (Policed(d) ==> |d| >= 3)
      && step in {SeedRequest, KeySent, WriteRequest, ReadRequest, Other}
  {
    assert SEED_REQUEST[1] == 0x27 && SEED_REQUEST[2] == 1;
    assert KeyFrame(key)[1] == 0x27 && KeyFrame(key)[2] == 2;
    assert WriteFrame(desired)[1] == 0x3b;
    assert READ_REQUEST[1] == 0x1a;
  }

  // ---------- frames in bytes ----------

  // A frame that passed: towards the BCM or from it.
  datatype Frame = Out(data: seq<Byte>) | In(data: seq<Byte>)

  predicate Opens(f: Frame, first: Byte, second: Byte, third: Byte) {
    f.In? && |f.data| >= 3 && f.data[0] == first && f.data[1] == second && f.data[2] == third
  }

  predicate SeedReplyFrame(f: Frame) { Opens(f, 4, 0x67, 1) && |f.data| >= 5 }
  predicate GrantFrame(f: Frame) { Opens(f, 2, 0x67, 2) }
  predicate ReadReplyFrame(f: Frame) { Opens(f, 4, 0x5a, 1) && |f.data| >= 5 }
  predicate AcknowledgmentFrame(f: Frame) { Opens(f, 2, 0x7b, 1) }

  // A negative response to the security or write service, other than pending.
  predicate RejectionFrame(f: Frame) {
    (Opens(f, 3, 0x7f, 0x27) || Opens(f, 3, 0x7f, 0x3b)) && |f.data| >= 4 && f.data[3] != 0x78
  }

  // A frame is a step exactly when it has the bytes of that step.
  predicate Reads(f: Frame, step: Step, seed: Word16, key: Word16, desired: Byte) {
    && (step.SeedRequest? <==> f == Out([2, 0x27, 1, 0, 0, 0, 0, 0]))
    && (step.KeySent? <==> f == Out([4, 0x27, 2, key / 0x100, key % 0x100, 0, 0, 0]))
    && (step.WriteRequest? <==> f == Out([4, 0x3b, 1, 0x99, desired, 0, 0, 0]))
    && (step.ReadRequest? <==> f == Out([2, 0x1a, 1, 0, 0, 0, 0, 0]))
    && (step.SeedReply? <==> SeedReplyFrame(f))
    && (step.SeedReply? ==> f.data[3] as int * 0x100 + f.data[4] as int == seed)
    && (step.Grant? <==> GrantFrame(f))
    && (step.ReadReply? <==> ReadReplyFrame(f))
    && (step.ReadReply? ==> f.data[3] == step.first && f.data[4] == step.second)
    && (step.Acknowledgment? <==> AcknowledgmentFrame(f))
    && (step.Rejection? <==> RejectionFrame(f))
    && (step.Rejection? ==> f.data[2] == step.service && f.data[3] == step.code)
  }

  ghost predicate AllRead(frames: seq<Frame>, run: seq<Step>, seed: Word16, key: Word16, desired: Byte) {
    |frames| == |run| && forall i | 0 <= i < |run| :: Reads(frames[i], run[i], seed, key, desired)
  }

  lemma AllReadGrows(frames: seq<Frame>, run: seq<Step>, f: Frame, step: Step, seed: Word16, key: Word16, desired: Byte)
    requires AllRead(frames, run, seed, key, desired) && Reads(f, step, seed, key, desired)
    ensures AllRead(frames + [f], run + [step], seed, key, desired)
  {
    hide Reads;
  }

  lemma SentReads(d: seq<Byte>, seed: Word16, key: Word16, desired: Byte)
    ensures Reads(Out(d), Sent(key, desired, d), seed, key, desired)
  {
    var a: seq<Byte>, b: seq<Byte> := [2, 0x27, 1, 0, 0, 0, 0, 0], [4, 0x27, 2, key / 0x100, key % 0x100, 0, 0, 0];
    var c: seq<Byte>, e: seq<Byte> := [4, 0x3b, 1, 0x99, desired, 0, 0, 0], [2, 0x1a, 1, 0, 0, 0, 0, 0];
    assert a[1] == 0x27 && a[2] == 1 && b[1] == 0x27 && b[2] == 2 && c[1] == 0x3b && e[1] == 0x1a;
  }

  lemma ReceivedReads(d: seq<Byte>, seed: Word16, key: Word16, desired: Byte)
    requires |d| >= 3
    requires Received(d) == SeedReply ==> d[3] as int * 0x100 + d[4] as int == seed
    ensures Reads(In(d), Received(d), seed, key, desired) && FromEcu(Received(d))
  {}

  // ---------- the policy ----------

  class Policy {
    const desired: Byte
    const seed: Word16
    const key: Word16
    var requested: bool
    var matched: bool
    var keySent: bool
    var authorized: bool
    var readPending: bool
    var baseline: bool
    var written: bool
    var rejection: Option<(Byte, Byte)>
    var acknowledged: bool
    var symbolOnly: bool
    var desiredReadback: bool

    ghost var run: seq<Step>
    ghost var frames: seq<Frame>  // the frames the run is made of

    ghost predicate Valid()
      reads this
    {
      (desired == 0 || desired == 0xc0) && Tracks(View(), run, desired) && AllRead(frames, run, seed, key, desired)
    }

    function View(): Flags
      reads this
    {
      Flags(requested, matched, keySent, authorized, readPending, baseline, written, rejection.Some?, acknowledged)
    }

    // `audible` asks for the setting with the sound on.
    constructor (seed: Word16, key: Word16, audible: bool)
      ensures Valid() && run == [] && frames == []
      ensures this.seed == seed && this.key == key && this.desired == if audible then 0xc0 else 0
    {
      this.desired := if audible then 0xc0 else 0;
      this.seed, this.key := seed, key;
      requested, matched, keySent, authorized := false, false, false, false;
      readPending, baseline, written := false, false, false;
      rejection, acknowledged, symbolOnly, desiredReadback := None, false, false, false;
      run, frames := [], [];
    }

    predicate IsBcm(controller: nat, tx: Transmission) {
      controller == 2 && tx.id == 0x242 && tx.plainRoute
    }

    predicate Allows(controller: nat, tx: Transmission)
      reads this
    {
      if rejection.Some? || !IsBcm(controller, tx) then false
      else if tx.data == SEED_REQUEST then !keySent
      else if tx.data == KeyFrame(key) then matched && !keySent
      else tx.data == WriteFrame(desired) && authorized && baseline && !written
    }

    lemma AllowsPasses(controller: nat, tx: Transmission)
      requires IsBcm(controller, tx)
      ensures Allows(controller, tx) <==>
        Sent(key, desired, tx.data) in {SeedRequest, KeySent, WriteRequest}
            && Passes(View(), Sent(key, desired, tx.data))
    {
      SentFrames(key, desired, tx.data);
      hide Sent, SEED_REQUEST, KeyFrame, WriteFrame;
    }

    // Authority for a seed or key that was never filled in is refused.
    static method Create(seed: Word16, key: Word16, audible: bool) returns (p: Option<Policy>)
      ensures p.Some? <==> seed != 0xffff && key != 0xffff
      ensures p.Some? ==> fresh(p.value) && p.value.Valid() && p.value.frames == []
      ensures p.Some? ==>
        p.value.seed == seed && p.value.key == key && p.value.desired == if audible then 0xc0 else 0
    {
      if seed == 0xffff || key == 0xffff {
        return None;
      }
      var policy := new Policy(seed, key, audible);
      return Some(policy);
    }

    // The guest is about to send a frame; false refuses it.
    method Before(controller: nat, tx: Transmission) returns (ok: bool)
      requires Valid()
      modifies this
      ensures Valid()
      ensures ok <==>
        || controller != 2 || tx.id != 0x242 || !tx.plainRoute
        || !(|tx.data| >= 3 && (tx.data[1] == 0x27 || tx.data[1] == 0x3b))
        || old(Allows(controller, tx))
      ensures ok && IsBcm(controller, tx) ==> Fits(old(run), Sent(key, desired, tx.data), desired)
      ensures run == if ok && IsBcm(controller, tx) then old(run) + [Sent(key, desired, tx.data)] else old(run)
      ensures frames ==
        if ok && controller == 2 && tx.id == 0x242 && tx.plainRoute then old(frames) + [Out(tx.data)] else old(frames)
      ensures rejection == old(rejection)
    {
      if !IsBcm(controller, tx) {
        return true;
      }
      var d := tx.data;
      ghost var step, f := Sent(key, desired, d), View();
      hide Tracks, Fits, Sent, Allows, Policed, After, Passes, AllRead, Reads;
      StepFits(f, run, step, desired);
      SentFrames(key, desired, d);
      AllowsPasses(controller, tx);
      if step == ReadRequest || step == Other { PassesFreely(f, step); }
      if Policed(d) && !Allows(controller, tx) {
        return false;
      }
      RecordSent(d);
      return true;
    }

    // A frame that passes goes into the flags and the history.
    method RecordSent(d: seq<Byte>)
      requires Valid() && Passes(View(), Sent(key, desired, d))
      requires Policed(d) ==> Sent(key, desired, d) in {SeedRequest, KeySent, WriteRequest}
      modifies this
      ensures Valid() && View() == After(old(View()), Sent(key, desired, d), desired)
      ensures run == old(run) + [Sent(key, desired, d)] && frames == old(frames) + [Out(d)]
      ensures rejection == old(rejection)
    {
      hide Tracks, Sent, After, Passes, AllRead, Reads;
      ghost var step := Sent(key, desired, d);
      StepTracks(View(), run, step, desired);
      SentReads(d, seed, key, desired);
      AllReadGrows(frames, run, Out(d), step, seed, key, desired);
      FlagSent(d, if Policed(d) then d[1] else 0, if Policed(d) then d[2] else 0);
      run, frames := run + [step], frames + [Out(d)];
    }

    // Set the flag of a frame that passes.
    method FlagSent(d: seq<Byte>, service: Byte, subfunction: Byte)
      requires desired == 0 || desired == 0xc0
      requires Policed(d) ==> service == d[1] && subfunction == d[2]
      requires Policed(d) ==> Sent(key, desired, d) in {SeedRequest, KeySent, WriteRequest}
      modifies this
      ensures View() == After(old(View()), Sent(key, desired, d), desired)
      ensures run == old(run) && frames == old(frames) && rejection == old(rejection)
    {
      SentFrames(key, desired, d);
      hide Sent, SEED_REQUEST, READ_REQUEST, KeyFrame, WriteFrame;
      if Policed(d) {
        if service == 0x3b {
          written := true;
        } else if subfunction == 1 {
          requested := true;
        } else {
          keySent := true;
        }
      }
      if d == READ_REQUEST {
        readPending := true;
      }
    }

    // A frame arrived for the guest; false reports it and leaves the policy as it was.
    method Observe(controller: nat, id: nat, d: seq<Byte>) returns (ok: bool)
      requires Valid()
      modifies this
      ensures Valid()
      ensures !ok ==> View() == old(View()) && run == old(run)
      ensures frames == if ok && controller == 2 && id == 0x642 && |d| >= 3 then old(frames) + [In(d)] else old(frames)
      ensures controller == 2 && id == 0x642 && |d| >= 4 && d[0] == 3 && d[1] == 0x7f && d[3] == 0x78 ==>
        ok && View() == old(View())
      ensures controller == 2 && id == 0x642 && |d| >= 3 ==>
        (ok <==> Fits(old(run), Received(d), desired)
                 && (Received(d) == SeedReply ==> d[3] as int * 0x100 + d[4] as int == seed))
      ensures ok ==> run == if controller != 2 || id != 0x642 || |d| < 3 then old(run) else old(run) + [Received(d)]
      ensures rejection ==
        if ok && controller == 2 && id == 0x642 && RejectionFrame(In(d)) then Some((d[2], d[3])) else old(rejection)
      ensures symbolOnly ==
        if ok && controller == 2 && id == 0x642 && ReadReplyFrame(In(d)) && old(readPending)
        then d[3] == 0x99 && d[4] == 0 else old(symbolOnly)
      ensures desiredReadback ==
        if ok && controller == 2 && id == 0x642 && ReadReplyFrame(In(d)) && old(readPending)
        then d[3] == 0x99 && d[4] == desired else old(desiredReadback)
    {
      if controller != 2 || id != 0x642 || |d| < 3 {
        return true;
      }
      var expectedSeed := |d| >= 5 && d[3] as int * 0x100 + d[4] as int == seed;
      if Received(d) != SeedReply || expectedSeed { ReceivedReads(d, seed, key, desired); }
      hide Tracks, AllRead, Reads, Fits;
      ok := ObserveStep(Received(d), expectedSeed, d);
    }

    // `expectedSeed` says whether a seed reply carries the seed of the authority.
    method ObserveStep(step: Step, expectedSeed: bool, ghost d: seq<Byte>) returns (ok: bool)
      requires Valid()
      requires FromEcu(step)
      requires (step == SeedReply && !expectedSeed) || Reads(In(d), step, seed, key, desired)
      modifies this
      ensures Valid()
      ensures !ok ==> View() == old(View()) && run == old(run) && frames == old(frames)
      ensures ok ==> run == old(run) + [step] && frames == old(frames) + [In(d)]
      ensures ok ==> View() == After(old(View()), step, desired)
      ensures ok <==> Fits(old(run), step, desired) && (step == SeedReply ==> expectedSeed)
      ensures !ok ==> rejection == old(rejection)
      ensures !ok ==> symbolOnly == old(symbolOnly) && desiredReadback == old(desiredReadback)
      ensures ok ==> rejection == if step.Rejection? then Some((step.service, step.code)) else old(rejection)
      ensures ok ==> symbolOnly == if step.ReadReply? && old(readPending) then step == ReadReply(0x99, 0)
          else old(symbolOnly)
      ensures ok ==> desiredReadback == if step.ReadReply? && old(readPending) then step == ReadReply(0x99, desired)
          else old(desiredReadback)
    {
      ghost var f := View();
      hide Tracks, Fits, After, Passes, AllRead, Reads;
      StepFits(f, run, step, desired);
      PassesFromEcu(f, step);
      if (step.SeedReply? && !(requested && expectedSeed)) || (step.Grant? && !keySent)
          || (step.Acknowledgment? && !written) {
        return false;
      }
      AllReadGrows(frames, run, In(d), step, seed, key, desired);
      UpdateFlags(step);
      run, frames := run + [step], frames + [In(d)];
      return true;
    }

    // The reply to the pending read.
    method TakeReadReply(first: Byte, second: Byte)
      requires desired == 0 || desired == 0xc0
      requires readPending
      modifies this`readPending, this`baseline, this`symbolOnly, this`desiredReadback
      ensures View() == After(old(View()), ReadReply(first, second), desired)
      ensures symbolOnly == (first == 0x99 && second == 0) && desiredReadback == (first == 0x99 && second == desired)
    {
      readPending := false;
      baseline := authorized && first == 0x99 && second == Baseline(desired);
      symbolOnly := first == 0x99 && second == 0;
      desiredReadback := first == 0x99 && second == desired;
    }

    method UpdateFlags(step: Step)
      requires desired == 0 || desired == 0xc0
      requires FromEcu(step)
      modifies this
      ensures View() == After(old(View()), step, desired)
      ensures run == old(run) && frames == old(frames)
      ensures step.Rejection? ==> rejection == Some((step.service, step.code))
      ensures !step.Rejection? ==> rejection == old(rejection)
      ensures symbolOnly == if step.ReadReply? && old(readPending) then step == ReadReply(0x99, 0)
          else old(symbolOnly)
      ensures desiredReadback == if step.ReadReply? && old(readPending) then step == ReadReply(0x99, desired)
          else old(desiredReadback)
    {
      hide Baseline;
      match step
      case SeedReply =>
        matched := true;
      case Grant =>
        authorized := true;
      case ReadReply(first, second) =>
        if readPending {
          TakeReadReply(first, second);
        }
      case Acknowledgment =>
        acknowledged := true;
      case Rejection(service, code) =>
        rejection := Some((service, code));
        authorized := false;
        baseline := false;
      case Other =>
    }
  }

  // ---------- runs grow at the end ----------

  lemma RunGrows(run: seq<Step>, step: Step, desired: Byte)
    requires desired == 0 || desired == 0xc0
    ensures Rejected(run + [step]) <==> Rejected(run) || step.Rejection?
    ensures Pending(run + [step]) <==> step == ReadRequest || (!step.ReadReply? && Pending(run))
    ensures BaselineStands(run + [step], desired) <==>
            if step.ReadReply? && Pending(run) then Grant in run && step == ReadReply(0x99, Baseline(desired))
            else BaselineStands(run, desired)
    ensures Ordered(run, desired) ==> (Ordered(run + [step], desired) <==> Fits(run, step, desired))
    ensures (run + [step])[..|run|] == run
  {
    assert (run + [step])[..|run|] == run;
    RejectedGrows(run, step);
    BaselineGrows(run, step, desired);
    OrderGrows(run, step, desired);
  }

  lemma RejectedGrows(run: seq<Step>, step: Step)
    ensures Rejected(run + [step]) <==> Rejected(run) || step.Rejection?
  {
    var next := run + [step];
    if Rejected(run) {
      var i :| 0 <= i < |run| && run[i].Rejection?;
      assert next[i].Rejection?;
    }
    if step.Rejection? { assert next[|run|].Rejection?; }
  }

  lemma OrderGrows(run: seq<Step>, step: Step, desired: Byte)
    requires desired == 0 || desired == 0xc0
    ensures Ordered(run, desired) ==> (Ordered(run + [step], desired) <==> Fits(run, step, desired))
  {
    var next := run + [step];
    forall i | 0 <= i < |run|
      ensures next[..i] == run[..i] && next[i] == run[i]
    {
    }
    assert next[..|run|] == run && next[|run|] == step;
    hide Fits;
  }

  lemma BaselineGrows(run: seq<Step>, step: Step, desired: Byte)
    requires desired == 0 || desired == 0xc0
    ensures BaselineStands(run + [step], desired) <==>
            if step.ReadReply? && Pending(run) then Grant in run && step == ReadReply(0x99, Baseline(desired))
            else BaselineStands(run, desired)
  {
    var next := run + [step];
    var n := |run|;
    assert next[..n] == run;
    forall k: nat | k < n
      ensures next[..k] == run[..k] && (Correlated(next, k) <==> Correlated(run, k))
    {
      assert next[..k] == run[..k];
    }
    hide Pending;
    if Correlated(next, n) {
      assert forall e: nat :: ShowsBaseline(next, desired, e) ==> e == n;
      assert ShowsBaseline(next, desired, n) <==> Grant in run && step == ReadReply(0x99, Baseline(desired));
    } else {
      assert forall e: nat :: ShowsBaseline(next, desired, e) <==> ShowsBaseline(run, desired, e);
    }
  }

  // ---------- what the policy guarantees ----------

  // A reply is awaited exactly when some read request has had none since.
  lemma {:induction false} PendingMeansUnanswered(run: seq<Step>)
    ensures Pending(run) <==>
      exists j :: 0 <= j < |run| && run[j] == ReadRequest && forall k | j < k < |run| :: !run[k].ReadReply?
  {
    if run != [] {
      var n := |run| - 1;
      var rest := run[..n];
      PendingMeansUnanswered(rest);
      if run[n] != ReadRequest && !run[n].ReadReply? {
        Unanswered(run, n);
      }
    }
  }

  lemma Unanswered(run: seq<Step>, n: nat)
    requires n + 1 == |run| && run[n] != ReadRequest && !run[n].ReadReply?
    ensures (exists j :: 0 <= j < n && run[..n][j] == ReadRequest && forall k | j < k < n :: !run[..n][k].ReadReply?)
       <==> (exists j :: 0 <= j < |run| && run[j] == ReadRequest && forall k | j < k < |run| :: !run[k].ReadReply?)
  {
    var rest := run[..n];
    assert forall k | 0 <= k < n :: rest[k] == run[k];
    if j :| 0 <= j < n && rest[j] == ReadRequest && forall k | j < k < n :: !rest[k].ReadReply? {
      forall k | j < k < |run| ensures !run[k].ReadReply? {
        if k < n { assert !rest[k].ReadReply?; }
      }
    }
    if j :| 0 <= j < |run| && run[j] == ReadRequest && forall k | j < k < |run| :: !run[k].ReadReply? {
      assert rest[j] == ReadRequest;
    }
  }

  // The write frame is allowed exactly when the run makes it due.
  lemma WriteAllowedIffDue(p: Policy, controller: nat, tx: Transmission)
    requires p.Valid() && tx.data == WriteFrame(p.desired)
    ensures p.Allows(controller, tx) <==> p.IsBcm(controller, tx) && WriteDue(p.run, p.desired)
  {
    BaselineNeedsGrant(p.run, p.desired);
    SentFrames(p.key, p.desired, tx.data);
    hide Pending, Rejected, ShowsBaseline, Ordered;
  }

  lemma NothingShown(desired: Byte)
    requires desired == 0 || desired == 0xc0
    ensures Tracks(Flags(false, false, false, false, false, false, false, false, false), [], desired)
  {}

  function Then(run: seq<Step>, step: Step): seq<Step> { run + [step] }

  lemma Follow(f: Flags, run: seq<Step>, step: Step, desired: Byte) returns (g: Flags)
    requires desired == 0 || desired == 0xc0
    requires Tracks(f, run, desired) && Passes(f, step)
    ensures g == After(f, step, desired) && Tracks(g, Then(run, step), desired)
  {
    hide Tracks, Passes, After;
    StepTracks(f, run, step, desired);
    g := After(f, step, desired);
  }

  // From the start the seed exchange passes.
  lemma SeedExchangePasses(desired: Byte) returns (f: Flags)
    requires desired == 0 || desired == 0xc0
    ensures Tracks(f, Then(Then(Then(Then([], SeedRequest), SeedReply), KeySent), Grant), desired)
    ensures f.authorized && !f.rejected && !f.written
  {
    NothingShown(desired);
    hide Tracks, Baseline, Then;
    f := Flags(false, false, false, false, false, false, false, false, false);
    f := Follow(f, [], SeedRequest, desired);
    f := Follow(f, Then([], SeedRequest), SeedReply, desired);
    f := Follow(f, Then(Then([], SeedRequest), SeedReply), KeySent, desired);
    f := Follow(f, Then(Then(Then([], SeedRequest), SeedReply), KeySent), Grant, desired);
  }

  // From any granted run without a write or a rejection, reading the baseline
  // back lets the one write and its acknowledgment pass.
  lemma ReadBackLetsWritePass(f: Flags, run: seq<Step>, desired: Byte) returns (g: Flags)
    requires desired == 0 || desired == 0xc0
    requires Tracks(f, run, desired) && f.authorized && !f.rejected && !f.written
    ensures Tracks(g, Then(Then(Then(Then(run, ReadRequest), ReadReply(0x99, Baseline(desired))), WriteRequest),
        Acknowledgment), desired)
    ensures g.acknowledged && g.written && !g.rejected
  {
    hide Tracks, Baseline, Then;
    var shown := ReadReply(0x99, Baseline(desired));
    var read := Then(Then(run, ReadRequest), shown);
    g := Follow(f, run, ReadRequest, desired);
    g := Follow(g, Then(run, ReadRequest), shown, desired);
    g := Follow(g, read, WriteRequest, desired);
    g := Follow(g, Then(read, WriteRequest), Acknowledgment, desired);
  }

  lemma EarlierStep(run: seq<Step>, i: nat, step: Step) returns (j: nat)
    requires i <= |run| && step in run[..i]
    ensures j < i && run[j] == step
  {
    j :| 0 <= j < i && run[..i][j] == step;
  }

  lemma OneWrite(p: Policy, i: nat, j: nat)
    requires p.Valid() && i < |p.run| && j < |p.run|
    requires p.run[i] == WriteRequest && p.run[j] == WriteRequest
    ensures i == j
  {
    hide AllRead, Reads;
    assert Fits(p.run[..i], p.run[i], p.desired) && Fits(p.run[..j], p.run[j], p.desired);
  }

  // A grant has the seed exchange behind it, in order.
  lemma GrantHasItsHistory(p: Policy, grant: nat) returns (request: nat, reply: nat, sent: nat)
    requires p.Valid() && grant < |p.run| && p.run[grant] == Grant
    ensures request < reply < sent < grant
    ensures p.run[request] == SeedRequest && p.run[reply] == SeedReply && p.run[sent] == KeySent
  {
    hide AllRead, Reads;
    hide Pending, Rejected, WriteDue, BaselineStands;
    assert Fits(p.run[..grant], p.run[grant], p.desired);
    sent := EarlierStep(p.run, grant, KeySent);
    assert Fits(p.run[..sent], p.run[sent], p.desired);
    reply := EarlierStep(p.run, sent, SeedReply);
    assert Fits(p.run[..reply], p.run[reply], p.desired);
    request := EarlierStep(p.run, reply, SeedRequest);
  }

  lemma PrefixesOfPrefix(run: seq<Step>, w: nat, k: nat)
    requires k <= w <= |run|
    ensures run[..w][..k] == run[..k]
  {}

  // A standing baseline answers a read request after the grant, and no later
  // reply has answered another.
  lemma BaselineHasItsRead(run: seq<Step>, desired: Byte) returns (grant: nat, read: nat, shown: nat)
    requires desired == 0 || desired == 0xc0
    requires BaselineStands(run, desired)
    ensures grant < shown < |run| && read < shown
    ensures run[grant] == Grant && run[read] == ReadRequest && run[shown] == ReadReply(0x99, Baseline(desired))
    ensures forall k | read < k < shown :: !run[k].ReadReply?
    ensures forall k | shown < k < |run| :: !Correlated(run, k)
  {
    hide Pending;
    shown :| ShowsBaseline(run, desired, shown);
    grant := EarlierStep(run, shown, Grant);
    PendingMeansUnanswered(run[..shown]);
    read :| 0 <= read < shown && run[..shown][read] == ReadRequest
            && forall k | read < k < shown :: !run[..shown][k].ReadReply?;
    forall k | read < k < shown ensures !run[k].ReadReply? { assert run[..shown][k] == run[k]; }
  }

  // An accepted write is the only one of its run. Before it came a baseline
  // reply to a read request, unchanged by any later correlated reply, and
  // before that reply the grant.
  lemma WriteHasItsBaseline(p: Policy, w: nat) returns (grant: nat, read: nat, shown: nat)
    requires p.Valid() && w < |p.run| && p.run[w] == WriteRequest
    ensures grant < shown < w && read < shown
    ensures p.run[grant] == Grant && p.run[read] == ReadRequest
    ensures p.run[shown] == ReadReply(0x99, Baseline(p.desired))
    ensures forall k | read < k < shown :: !p.run[k].ReadReply?
    ensures forall k | shown < k < w :: !Correlated(p.run, k)
    ensures !Rejected(p.run[..w])
    ensures forall k | 0 <= k < |p.run| && p.run[k] == WriteRequest :: k == w
  {
    hide Pending, Rejected, BaselineStands, Baseline, AllRead, Reads;
    var run := p.run;
    assert Fits(run[..w], run[w], p.desired);
    hide Tracks;
    grant, read, shown := BaselineHasItsRead(run[..w], p.desired);
    forall k | shown < k < w ensures !Correlated(run, k) {
      PrefixesOfPrefix(run, w, k);
      assert !Correlated(run[..w], k);
    }
    forall k | 0 <= k < |run| && run[k] == WriteRequest ensures k == w { OneWrite(p, k, w); }
  }

  // The whole ordered history of an accepted write.
  lemma WriteHasItsHistory(p: Policy, w: nat)
    returns (request: nat, reply: nat, sent: nat, grant: nat, read: nat, shown: nat)
    requires p.Valid() && w < |p.run| && p.run[w] == WriteRequest
    ensures request < reply < sent < grant < shown < w && read < shown
    ensures p.run[request] == SeedRequest && p.run[reply] == SeedReply && p.run[sent] == KeySent
    ensures p.run[grant] == Grant && p.run[read] == ReadRequest
    ensures p.run[shown] == ReadReply(0x99, Baseline(p.desired))
    ensures forall k | shown < k < w :: !Correlated(p.run, k)
  {
    grant, read, shown := WriteHasItsBaseline(p, w);
    request, reply, sent := GrantHasItsHistory(p, grant);
  }

  lemma AcknowledgedImpliesWritten(p: Policy)
    requires p.Valid() && p.acknowledged
    ensures p.written
  {
    hide AllRead, Reads;
    var i :| 0 <= i < |p.run| && p.run[i] == Acknowledgment;
    assert Fits(p.run[..i], p.run[i], p.desired);
    var w := EarlierStep(p.run, i, WriteRequest);
  }

  // Once the ECU has rejected the operation nothing of it is allowed again:
  // every later state of the run still holds the rejection.
  lemma RejectionIsFinal(p: Policy, i: nat, controller: nat, tx: Transmission)
    requires p.Valid() && i < |p.run| && p.run[i].Rejection?
    ensures !p.Allows(controller, tx)
    ensures forall k | i < k < |p.run| :: p.run[k] != SeedRequest && p.run[k] != KeySent && p.run[k] != WriteRequest
  {
    hide AllRead, Reads;
    assert Rejected(p.run);
    forall k | i < k < |p.run|
      ensures p.run[k] != SeedRequest && p.run[k] != KeySent && p.run[k] != WriteRequest
    {
      assert Fits(p.run[..k], p.run[k], p.desired);
      assert p.run[..k][i].Rejection?;
      assert Rejected(p.run[..k]);
    }
  }

  // ---------- the same in bytes ----------

  // What the flags say of the frames that passed, and of nothing else.
  lemma FlagsOfFrames(p: Policy)
    requires p.Valid()
    ensures p.rejection.Some? <==> exists i :: 0 <= i < |p.frames| && RejectionFrame(p.frames[i])
    ensures p.requested <==> Out([2, 0x27, 1, 0, 0, 0, 0, 0]) in p.frames
    ensures p.matched <==> exists i :: 0 <= i < |p.frames| && SeedReplyFrame(p.frames[i])
    ensures p.keySent <==> Out([4, 0x27, 2, p.key / 0x100, p.key % 0x100, 0, 0, 0]) in p.frames
    ensures p.written <==> Out([4, 0x3b, 1, 0x99, p.desired, 0, 0, 0]) in p.frames
    ensures p.acknowledged <==> exists i :: 0 <= i < |p.frames| && AcknowledgmentFrame(p.frames[i])
  {
    FlagsOfRun(p);
    RejectionOfFrames(p);
    hide Tracks, Reads, AllRead, Rejected, RejectionFrame, SeedReplyFrame, AcknowledgmentFrame;
    StepOfFrames(p, SeedRequest);
    StepOfFrames(p, SeedReply);
    StepOfFrames(p, KeySent);
    StepOfFrames(p, WriteRequest);
    StepOfFrames(p, Acknowledgment);
  }

  lemma FlagsOfRun(p: Policy)
    requires p.Valid()
    ensures (p.rejection.Some? <==> Rejected(p.run)) && (p.requested <==> SeedRequest in p.run)
    ensures (p.matched <==> SeedReply in p.run) && (p.keySent <==> KeySent in p.run)
    ensures (p.written <==> WriteRequest in p.run) && (p.acknowledged <==> Acknowledgment in p.run)
  {
    hide Pending, BaselineStands, Ordered, Rejected, AllRead;
  }

  // A frame of a step without parameters.
  predicate FrameOf(f: Frame, step: Step, key: Word16, desired: Byte) {
    match step
    case SeedRequest => f == Out([2, 0x27, 1, 0, 0, 0, 0, 0])
    case KeySent => f == Out([4, 0x27, 2, key / 0x100, key % 0x100, 0, 0, 0])
    case WriteRequest => f == Out([4, 0x3b, 1, 0x99, desired, 0, 0, 0])
    case ReadRequest => f == Out([2, 0x1a, 1, 0, 0, 0, 0, 0])
    case SeedReply => SeedReplyFrame(f)
    case Grant => GrantFrame(f)
    case Acknowledgment => AcknowledgmentFrame(f)
    case _ => false
  }

  lemma StepOfFrame(f: Frame, step: Step, x: Step, seed: Word16, key: Word16, desired: Byte)
    requires Reads(f, step, seed, key, desired)
    requires !x.ReadReply? && !x.Rejection? && !x.Other?
    ensures step == x <==> FrameOf(f, x, key, desired)
  {}

  lemma StepOfFrames(p: Policy, x: Step)
    requires p.Valid() && !x.ReadReply? && !x.Rejection? && !x.Other?
    ensures x in p.run <==> exists i :: 0 <= i < |p.frames| && FrameOf(p.frames[i], x, p.key, p.desired)
  {
    hide Tracks, Reads, FrameOf;
    forall i | 0 <= i < |p.run| ensures p.run[i] == x <==> FrameOf(p.frames[i], x, p.key, p.desired) {
      StepOfFrame(p.frames[i], p.run[i], x, p.seed, p.key, p.desired);
    }
  }

  lemma RejectionOfFrames(p: Policy)
    requires p.Valid()
    ensures Rejected(p.run) <==> exists i :: 0 <= i < |p.frames| && RejectionFrame(p.frames[i])
  {
    hide Tracks;
    forall i | 0 <= i < |p.run| ensures p.run[i].Rejection? <==> RejectionFrame(p.frames[i]) {
      assert Reads(p.frames[i], p.run[i], p.seed, p.key, p.desired);
    }
    hide Reads, RejectionFrame;
  }

  // The history of an accepted write, in the frames themselves: 27 01, 67 01 with
  // the seed of the authority, 27 02 with its key, 67 02, and a 5A 01 reply that
  // shows the other setting and answers a 1A 01 request, with no negative
  // response before the write.
  lemma WriteHasItsFrames(p: Policy, w: nat)
    returns (request: nat, reply: nat, sent: nat, grant: nat, read: nat, shown: nat)
    requires p.Valid() && w < |p.frames| && p.frames[w] == Out([4, 0x3b, 1, 0x99, p.desired, 0, 0, 0])
    ensures request < reply < sent < grant < shown < w && read < shown
    ensures p.frames[request] == Out([2, 0x27, 1, 0, 0, 0, 0, 0])
    ensures Opens(p.frames[reply], 4, 0x67, 1) && |p.frames[reply].data| >= 5
    ensures p.frames[reply].data[3] as int * 0x100 + p.frames[reply].data[4] as int == p.seed
    ensures p.frames[sent] == Out([4, 0x27, 2, p.key / 0x100, p.key % 0x100, 0, 0, 0])
    ensures Opens(p.frames[grant], 2, 0x67, 2)
    ensures p.frames[read] == Out([2, 0x1a, 1, 0, 0, 0, 0, 0])
    ensures Opens(p.frames[shown], 4, 0x5a, 1) && |p.frames[shown].data| >= 5
    ensures p.frames[shown].data[3] == 0x99 && p.frames[shown].data[4] == (if p.desired == 0 then 0xc0 else 0)
    ensures forall k | read < k < shown :: !ReadReplyFrame(p.frames[k])
    ensures forall k | 0 <= k < w :: !RejectionFrame(p.frames[k])
    ensures forall k | 0 <= k < |p.frames| && p.frames[k] == p.frames[w] :: k == w
  {
    hide Tracks, Reads, RejectionFrame, ReadReplyFrame, Opens;
    FrameReads(p, w);
    grant, read, shown := WriteHasItsBaseline(p, w);
    request, reply, sent := GrantHasItsHistory(p, grant);
    FrameReads(p, request);
    FrameReads(p, reply);
    FrameReads(p, sent);
    FrameReads(p, grant);
    FrameReads(p, read);
    FrameReads(p, shown);
    forall k | read < k < shown ensures !ReadReplyFrame(p.frames[k]) { FrameReads(p, k); }
    forall k | 0 <= k < w ensures !RejectionFrame(p.frames[k]) {
      FrameReads(p, k);
      assert p.run[..w][k] == p.run[k];
    }
    forall k | 0 <= k < |p.frames| && p.frames[k] == p.frames[w] ensures k == w { FrameReads(p, k); }
  }

  // One frame and its step, in bytes.
  lemma FrameReads(p: Policy, i: nat)
    requires p.Valid() && i < |p.frames|
    ensures i < |p.run|
    ensures p.run[i].SeedRequest? <==> p.frames[i] == Out([2, 0x27, 1, 0, 0, 0, 0, 0])
    ensures p.run[i].KeySent? <==> p.frames[i] == Out([4, 0x27, 2, p.key / 0x100, p.key % 0x100, 0, 0, 0])
    ensures p.run[i].WriteRequest? <==> p.frames[i] == Out([4, 0x3b, 1, 0x99, p.desired, 0, 0, 0])
    ensures p.run[i].ReadRequest? <==> p.frames[i] == Out([2, 0x1a, 1, 0, 0, 0, 0, 0])
    ensures p.run[i].SeedReply? ==>
      && Opens(p.frames[i], 4, 0x67, 1) && |p.frames[i].data| >= 5
      && p.frames[i].data[3] as int * 0x100 + p.frames[i].data[4] as int == p.seed
    ensures p.run[i].Grant? <==> Opens(p.frames[i], 2, 0x67, 2)
    ensures p.run[i].ReadReply? <==> ReadReplyFrame(p.frames[i])
    ensures p.run[i].ReadReply? ==>
      && Opens(p.frames[i], 4, 0x5a, 1) && |p.frames[i].data| >= 5
      && p.run[i] == ReadReply(p.frames[i].data[3], p.frames[i].data[4])
    ensures p.run[i].Rejection? <==> RejectionFrame(p.frames[i])
  {
    hide Tracks, RejectionFrame, Opens;
    assert Reads(p.frames[i], p.run[i], p.seed, p.key, p.desired);
  }

  // A refused or accepted write, from the frames alone: the literal write frame
  // is allowed exactly when the run makes it due.
  lemma WriteFrameAllowed(p: Policy, tx: Transmission)
    requires p.Valid() && tx.id == 0x242 && tx.plainRoute && tx.data == [4, 0x3b, 1, 0x99, p.desired, 0, 0, 0]
    ensures p.Allows(2, tx) <==> WriteDue(p.run, p.desired)
  {
    WriteAllowedIffDue(p, 2, tx);
    hide Tracks, WriteDue;
  }
}
