// Staging of received CAN frames between a driver and three guest controllers.
// The ghost histories record, bus by bus, what was pushed and what was delivered.
module ReceiveStaging {
  import opened Bits

  datatype Frame = Frame(id: nat, extended: bool, rtr: bool, dlc: nat, data: seq<Byte>)

  predicate WellFormed(f: Frame) {
    && f.id < (if f.extended then 0x2000_0000 else 0x800)
    && f.dlc <= 8
    && |f.data| == if f.rtr then 0 else f.dlc
  }

  const BUSES: nat := 3
  const CAPACITY: nat := 4096

  // What the receiving side does with one offered frame.
  datatype Answer = Taken | Refused | Failed

  function Total(queues: seq<seq<Frame>>): nat {
    if queues == [] then 0 else |queues[0]| + Total(queues[1..])
  }

  function NonEmpty(queues: seq<seq<Frame>>): nat {
    if queues == [] then 0 else (if queues[0] != [] then 1 else 0) + NonEmpty(queues[1..])
  }

  // Frames leave a queue from the front, each exactly once, to the delivered history.
  predicate Moved(before: seq<Frame>, deliveredBefore: seq<Frame>, after: seq<Frame>, deliveredAfter: seq<Frame>) {
    && |after| <= |before|
    && after == before[|before| - |after|..]
    && deliveredAfter == deliveredBefore + before[..|before| - |after|]
  }

  // The receiving side: its answer to the n-th offer, of this frame on this bus.
  type Receiver = (nat, nat, Frame) -> Answer

  // Some offer of the frame now at the head of bus c got this answer.
  ghost predicate Answered(deliver: Receiver, from: nat, to: nat, c: nat, queue: seq<Frame>, answer: Answer) {
    queue != [] && exists n: nat :: from <= n < to && deliver(n, c, queue[0]) == answer
  }

  ghost predicate AllMoved(q0: seq<seq<Frame>>, d0: seq<seq<Frame>>, q: seq<seq<Frame>>, d: seq<seq<Frame>>) {
    && |q0| == |d0| == |q| == |d| == BUSES
    && forall b | 0 <= b < BUSES :: Moved(q0[b], d0[b], q[b], d[b])
  }

  ghost predicate SameFrom(c: nat, q0: seq<seq<Frame>>, q: seq<seq<Frame>>) {
    |q0| == |q| == BUSES && forall b | c <= b < BUSES :: q[b] == q0[b]
  }

  // Every bus below c that still holds frames has itself refused its head.
  ghost predicate Refusing(deliver: Receiver, offers: nat, q: seq<seq<Frame>>, c: nat) {
    c <= |q| && forall b: nat | b < c && q[b] != [] :: Answered(deliver, 0, offers, b, q[b], Refused)
  }

  class Staging {
    var queues: seq<seq<Frame>>

    ghost var pushed: seq<seq<Frame>>
    ghost var delivered: seq<seq<Frame>>

    ghost predicate Valid()
      reads this
    {
      && |queues| == |pushed| == |delivered| == BUSES
      && (forall c | 0 <= c < BUSES :: pushed[c] == delivered[c] + queues[c])
      && Total(queues) <= CAPACITY
      && forall c | 0 <= c < BUSES :: forall f | f in pushed[c] :: WellFormed(f)
    }

    constructor ()
      ensures Valid()
      ensures forall c | 0 <= c < BUSES :: queues[c] == pushed[c] == delivered[c] == []
    {
      queues := [[], [], []];
      pushed := [[], [], []];
      delivered := [[], [], []];
    }

    function Len(): nat
      reads this
    {
      Total(queues)
    }

    // False refuses the frame: malformed, unmapped, or no room.
    method Push(controller: nat, frame: Frame) returns (ok: bool)
      requires Valid()
      modifies this
      ensures Valid() && delivered == old(delivered)
      ensures ok <==>
        && frame.id < (if frame.extended then 0x2000_0000 else 0x800)
        && frame.dlc <= 8 && |frame.data| == (if frame.rtr then 0 else frame.dlc)
        && controller < 3 && old(Len()) < 4096
      ensures ok ==> queues == old(queues)[controller := old(queues)[controller] + [frame]]
      ensures ok ==> pushed == old(pushed)[controller := old(pushed)[controller] + [frame]]
      ensures !ok ==> queues == old(queues) && pushed == old(pushed)
    {
      if !WellFormed(frame) {
        return false;
      }
      if controller >= |queues| {
        return false;
      }
      if Total(queues) >= CAPACITY {
        return false;
      }
      TotalAfter(queues, controller, queues[controller] + [frame]);
      queues := queues[controller := queues[controller] + [frame]];
      pushed := pushed[controller := pushed[controller] + [frame]];
      return true;
    }

    // Offer staged frames bus by bus, stopping at a delivery error (None).
    method Drain(deliver: Receiver) returns (deferred: Option<nat>, offers: nat)
      requires Valid()
      modifies this
      ensures Valid() && pushed == old(pushed)
      ensures AllMoved(old(queues), old(delivered), queues, delivered)
      ensures deferred.Some? ==> deferred.value == NonEmpty(queues) && Refusing(deliver, offers, queues, BUSES)
      ensures deferred.None? ==>
        exists c: nat :: c < BUSES && queues[c] != [] && offers > 0 && deliver(offers - 1, c, queues[c][0]) == Failed
    {
      ghost var q0, d0 := queues, delivered;
      StartDrain(deliver, q0, d0);
      hide Moved, NonEmpty, AllMoved, SameFrom, Refusing, Valid;
      offers := 0;
      var count := 0;
      for c := 0 to BUSES
        invariant Valid() && pushed == old(pushed)
        invariant |queues| == |delivered| == BUSES
        invariant AllMoved(q0, d0, queues, delivered)
        invariant SameFrom(c, q0, queues) && SameFrom(c, d0, delivered)
        invariant Refusing(deliver, offers, queues, c)
        invariant count == NonEmpty(queues[..c])
      {
        var answer;
        ghost var q, d, done := queues, delivered, offers;
        answer, offers := DrainBus(c, deliver, offers);
        BusMoved(q0, d0, q, d, c, queues[c], delivered[c]);
        if answer == Failed {
          return None, offers;
        }
        BusRefusing(deliver, done, offers, q, c, queues[c]);
        assert queues[..c] == q[..c];
        NonEmptyStep(queues, c);
        if answer == Refused {
          count := count + 1;
        }
      }
      assert queues[..BUSES] == queues;
      return Some(count), offers;
    }

    // Offer the frames of one bus until it is empty, refuses or fails.
    method DrainBus(c: nat, deliver: Receiver, start: nat) returns (answer: Answer, offers: nat)
      requires Valid() && c < BUSES
      modifies this
      ensures Valid() && pushed == old(pushed) && start <= offers
      ensures queues == old(queues)[c := queues[c]] && delivered == old(delivered)[c := delivered[c]]
      ensures |queues| == |delivered| == BUSES
      ensures Moved(old(queues)[c], old(delivered)[c], queues[c], delivered[c])
      ensures answer == Taken <==> queues[c] == []
      ensures answer != Taken ==> offers > start && deliver(offers - 1, c, queues[c][0]) == answer
    {
      offers := start;
      while queues[c] != []
        invariant Valid() && pushed == old(pushed) && start <= offers
        invariant queues == old(queues)[c := queues[c]] && delivered == old(delivered)[c := delivered[c]]
        invariant Moved(old(queues)[c], old(delivered)[c], queues[c], delivered[c])
        decreases |queues[c]|
      {
        var frame := queues[c][0];
        answer := deliver(offers, c, frame);
        offers := offers + 1;
        if answer != Taken {
          return;
        }
        ghost var before, sent := queues[c], delivered[c];
        TotalAfter(queues, c, queues[c][1..]);
        queues := queues[c := queues[c][1..]];
        delivered := delivered[c := delivered[c] + [frame]];
        assert sent + before == delivered[c] + queues[c];
      }
      return Taken, offers;
    }
  }

  lemma StartDrain(deliver: Receiver, q: seq<seq<Frame>>, d: seq<seq<Frame>>)
    requires |q| == |d| == BUSES
    ensures AllMoved(q, d, q, d) && SameFrom(0, q, q) && SameFrom(0, d, d)
    ensures Refusing(deliver, 0, q, 0) && NonEmpty(q[..0]) == 0
  {
    forall b | 0 <= b < BUSES ensures Moved(q[b], d[b], q[b], d[b]) {
      assert q[b][..0] == [] && q[b][0..] == q[b];
    }
  }

  lemma BusMoved(q0: seq<seq<Frame>>, d0: seq<seq<Frame>>, q: seq<seq<Frame>>, d: seq<seq<Frame>>, c: nat,
                 queue: seq<Frame>, sent: seq<Frame>)
    requires c < BUSES && AllMoved(q0, d0, q, d) && SameFrom(c, q0, q) && SameFrom(c, d0, d)
    requires Moved(q[c], d[c], queue, sent)
    ensures AllMoved(q0, d0, q[c := queue], d[c := sent])
    ensures SameFrom(c + 1, q0, q[c := queue]) && SameFrom(c + 1, d0, d[c := sent])
  {
    hide Moved;
  }

  lemma BusRefusing(deliver: Receiver, before: nat, offers: nat, q: seq<seq<Frame>>, c: nat, queue: seq<Frame>)
    requires c < |q| && before <= offers && Refusing(deliver, before, q, c)
    requires queue != [] ==> offers > 0 && deliver(offers - 1, c, queue[0]) == Refused
    ensures Refusing(deliver, offers, q[c := queue], c + 1)
  {
    var next := q[c := queue];
    forall b: nat | b < c + 1 && next[b] != []
      ensures Answered(deliver, 0, offers, b, next[b], Refused)
    {
      if b < c { AnsweredLater(deliver, before, offers, b, q[b]); } else { AnsweredLast(deliver, offers, c, queue); }
    }
  }

  lemma AnsweredLater(deliver: Receiver, to: nat, later: nat, c: nat, queue: seq<Frame>)
    requires to <= later && Answered(deliver, 0, to, c, queue, Refused)
    ensures Answered(deliver, 0, later, c, queue, Refused)
  {
    var n: nat :| n < to && deliver(n, c, queue[0]) == Refused;
    assert deliver(n, c, queue[0]) == Refused;
  }

  lemma AnsweredLast(deliver: Receiver, offers: nat, c: nat, queue: seq<Frame>)
    requires queue != [] && offers > 0 && deliver(offers - 1, c, queue[0]) == Refused
    ensures Answered(deliver, 0, offers, c, queue, Refused)
  {
    var n: nat := offers - 1;
    assert deliver(n, c, queue[0]) == Refused;
  }

  // ---------- counting ----------

  lemma {:induction false} TotalAfter(queues: seq<seq<Frame>>, c: nat, queue: seq<Frame>)
    requires c < |queues|
    ensures Total(queues[c := queue]) == Total(queues) - |queues[c]| + |queue|
  {
    if c == 0 {
      assert queues[0 := queue][1..] == queues[1..];
    } else {
      assert queues[c := queue][1..] == queues[1..][c - 1 := queue];
      TotalAfter(queues[1..], c - 1, queue);
    }
  }

  lemma {:induction false} NonEmptyStep(queues: seq<seq<Frame>>, c: nat)
    requires c < |queues|
    ensures NonEmpty(queues[..c + 1]) == NonEmpty(queues[..c]) + (if queues[c] != [] then 1 else 0)
  {
    if c == 0 {
      assert queues[..0] == [] && queues[..1] == [queues[0]];
    } else {
      assert queues[..c + 1][1..] == queues[1..][..c] && queues[..c][1..] == queues[1..][..c - 1];
      NonEmptyStep(queues[1..], c - 1);
    }
  }

  lemma {:induction false} TotalOfEach(queues: seq<seq<Frame>>, c: nat)
    requires c < |queues|
    ensures |queues[c]| <= Total(queues)
  {
    if c > 0 { TotalOfEach(queues[1..], c - 1); }
  }

  // ---------- conservation ----------

  // Nothing is lost, duplicated or reordered on a bus, and what is staged never
  // exceeds the shared capacity.
  lemma FramesAreConserved(s: Staging, c: nat)
    requires s.Valid() && c < 3
    ensures s.pushed[c] == s.delivered[c] + s.queues[c]
    ensures |s.pushed[c]| - |s.delivered[c]| <= s.Len() <= 4096
    ensures s.queues[c] == [] <==> s.delivered[c] == s.pushed[c]
  {
    TotalOfEach(s.queues, c);
    if s.delivered[c] == s.pushed[c] { assert |s.queues[c]| == 0; }
  }

  // No bus is left with frames exactly when nothing is staged.
  lemma NothingDeferredMeansEmpty(queues: seq<seq<Frame>>)
    ensures NonEmpty(queues) == 0 <==> Total(queues) == 0
    ensures NonEmpty(queues) <= |queues|
  {
    if queues != [] { NothingDeferredMeansEmpty(queues[1..]); }
  }
}
