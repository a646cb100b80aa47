// The encoder at $600500: queued key edges, each held for six reads, with the
// interrupt line following the active edge. The ghost fields are the history
// the guest could have recorded.
module Keypad {
  import opened Bits

  const KEYPAD_IDLE: Byte := 0x00
  const ACTIVE_BIT: Byte := 0x04
  const HOLD: nat := 6

  // The press and release bytes of an encoder code, which has five bits.
  function Down(code: Byte): Byte { code % 32 * 8 + 4 }
  function Up(code: Byte): Byte { code % 32 * 8 }

  // Every element six times in a row.
  function Held(edges: seq<Byte>): seq<Byte> {
    if edges == [] then [] else Repeat(edges[0], 6) + Held(edges[1..])
  }

  function Repeat(edge: Byte, n: nat): seq<Byte> { seq(n, _ => edge) }

  // The edges of a list of presses.
  function Edges(codes: seq<Byte>): seq<Byte> {
    if codes == [] then [] else [Down(codes[0]), Up(codes[0])] + Edges(codes[1..])
  }

  // The encoder's registers and queue.
  datatype Keys = Keys(queue: seq<Byte>, active: Option<Byte>, irq: bool, events: nat, consumed: nat, hold: nat)

  function Pending(k: Keys): seq<Byte> { (if k.active.Some? then [k.active.value] else []) + k.queue }

  function Latched(k: Keys): Keys {
    if k.queue == [] then k.(active := None, hold := HOLD, irq := false)
    else k.(active := Some(k.queue[0]), queue := k.queue[1..], hold := HOLD, irq := true)
  }

  function AfterPress(k: Keys, code: Byte): Keys {
    var pressed := k.(queue := k.queue + [Down(code), Up(code)], events := k.events + 1);
    if k.active.None? then Latched(pressed) else pressed
  }

  function AfterRead(k: Keys): Keys {
    if k.active.None? then k
    else
      var hold := Monus(k.hold, 1);
      if hold == 0 then Latched(k.(consumed := k.consumed + 1)) else k.(hold := hold)
  }

  // The encoder after the presses `pressed`, with `observed` read so far.
  ghost predicate Tracks(k: Keys, pressed: seq<Byte>, observed: seq<Byte>) {
    && k.irq == k.active.Some?
    && (k.active.None? ==> k.queue == [])
    && |pressed| == k.events
    && 2 * k.events == k.consumed + |Pending(k)|
    && |Edges(pressed)| == 2 * k.events
    && Edges(pressed)[k.consumed..] == Pending(k)
    && (k.active.Some? ==> 1 <= k.hold <= HOLD)
    && observed == Held(Edges(pressed)[..k.consumed])
                   + (if k.active.Some? then Repeat(k.active.value, HOLD - k.hold) else [])
  }

  class Encoder {
    var keyQueue: seq<Byte>
    var keyActive: Option<Byte>
    var keyIrq: bool
    var keyEvents: nat
    var keyReads: nat
    var keyConsumed: nat
    var keyHoldCount: nat

    ghost var pressed: seq<Byte>   // codes given to PressKey, in order
    ghost var observed: seq<Byte>  // bytes read while an edge was active, in order

    function View(): Keys
      reads this
    {
      Keys(keyQueue, keyActive, keyIrq, keyEvents, keyConsumed, keyHoldCount)
    }

    ghost predicate Valid()
      reads this
    {
      Tracks(View(), pressed, observed)
    }

    constructor ()
      ensures Valid() && pressed == [] && observed == []
    {
      keyQueue, keyActive, keyIrq := [], None, false;
      keyEvents, keyReads, keyConsumed, keyHoldCount := 0, 0, 0, 0;
      pressed, observed := [], [];
    }

    method PressKey(code: Byte)
      requires Valid()
      modifies this
      ensures Valid()
      ensures View() == AfterPress(old(View()), code)
      ensures pressed == old(pressed) + [code] && observed == old(observed) && keyReads == old(keyReads)
    {
      PressTracks(View(), pressed, observed, code);
      hide Tracks;
      var code5 := code % 32;
      keyQueue := keyQueue + [code5 * 8 + ACTIVE_BIT, code5 * 8];
      keyEvents := keyEvents + 1;
      pressed := pressed + [code];
      if keyActive.None? {
        LatchNextKey();
      }
    }

    method LatchNextKey()
      modifies this`keyQueue, this`keyActive, this`keyIrq, this`keyHoldCount
      ensures View() == Latched(old(View()))
    {
      if keyQueue == [] {
        keyActive := None;
      } else {
        keyActive := Some(keyQueue[0]);
        keyQueue := keyQueue[1..];
      }
      keyHoldCount := HOLD;
      keyIrq := keyActive.Some?;
    }

    method KeypadRead() returns (value: Byte)
      requires Valid()
      modifies this
      ensures Valid()
      ensures View() == AfterRead(old(View())) && keyReads == old(keyReads) + 1 && pressed == old(pressed)
      ensures value == if old(keyActive).Some? then old(keyActive).value else 0x00
      ensures observed == if old(keyActive).Some? then old(observed) + [value] else old(observed)
    {
      keyReads := keyReads + 1;
      if keyActive.None? {
        return KEYPAD_IDLE;
      }
      ReadTracks(View(), pressed, observed);
      hide Tracks;
      value := keyActive.value;
      if keyHoldCount > 0 {
        keyHoldCount := keyHoldCount - 1;
      }
      observed := observed + [value];
      if keyHoldCount == 0 {
        keyConsumed := keyConsumed + 1;
        keyIrq := false;
        LatchNextKey();
      }
    }
  }

  // ---------- the encoder follows its history ----------

  lemma PressTracks(k: Keys, pressed: seq<Byte>, observed: seq<Byte>, code: Byte)
    requires Tracks(k, pressed, observed)
    ensures Tracks(AfterPress(k, code), pressed + [code], observed)
  {
    var edges := Edges(pressed);
    EdgesAppend(pressed, code);
    hide Edges, Held, Repeat;
    RepeatNone(Down(code));
    assert (edges + [Down(code), Up(code)])[..k.consumed] == edges[..k.consumed];
    assert (edges + [Down(code), Up(code)])[k.consumed..] == Pending(k) + [Down(code), Up(code)];
  }

  lemma ReadTracks(k: Keys, pressed: seq<Byte>, observed: seq<Byte>)
    requires Tracks(k, pressed, observed) && k.active.Some?
    ensures Tracks(AfterRead(k), pressed, observed + [k.active.value])
  {
    assert Edges(pressed)[k.consumed..][0] == k.active.value;
    RepeatAppend(k.active.value, HOLD - k.hold);
    if k.hold == 1 { LastReadTracks(k, pressed, observed); } else { HeldReadTracks(k, pressed, observed); }
    hide Tracks, AfterRead;
  }

  // The active edge is read again.
  lemma HeldReadTracks(k: Keys, pressed: seq<Byte>, observed: seq<Byte>)
    requires Tracks(k, pressed, observed) && k.active.Some? && k.hold > 1
    ensures Tracks(AfterRead(k), pressed, observed + [k.active.value])
  {
    var value := k.active.value;
    RepeatAppend(value, HOLD - k.hold);
    hide Edges, Held, Repeat;
    assert observed + [value] == Held(Edges(pressed)[..k.consumed]) + Repeat(value, HOLD - k.hold + 1);
  }

  // The active edge is read for the last time, and the next one is latched.
  lemma LastReadTracks(k: Keys, pressed: seq<Byte>, observed: seq<Byte>)
    requires Tracks(k, pressed, observed) && k.active.Some? && k.hold == 1
    ensures Tracks(AfterRead(k), pressed, observed + [k.active.value])
  {
    var edges, value := Edges(pressed), k.active.value;
    assert edges[k.consumed] == edges[k.consumed..][0] == value;
    RepeatAppend(value, HOLD - 1);
    hide Edges, Held, Repeat;
    HeldAppend(edges[..k.consumed], value);
    assert edges[..k.consumed] + [value] == edges[..k.consumed + 1];
    assert edges[k.consumed + 1..] == edges[k.consumed..][1..] == k.queue;
    if k.queue != [] { RepeatNone(k.queue[0]); }
    ReadLast(k, pressed, observed);
  }

  lemma ReadLast(k: Keys, pressed: seq<Byte>, observed: seq<Byte>)
    requires Tracks(k, pressed, observed) && k.active.Some? && k.hold == 1
    requires Held(Edges(pressed)[..k.consumed + 1]) == Held(Edges(pressed)[..k.consumed]) + Repeat(k.active.value, HOLD)
    requires Repeat(k.active.value, HOLD - 1) + [k.active.value] == Repeat(k.active.value, HOLD)
    ensures observed + [k.active.value] == Held(Edges(pressed)[..k.consumed + 1])
  {
    hide Edges, Held, Repeat;
  }

  lemma RepeatAppend(edge: Byte, n: nat)
    ensures Repeat(edge, n) + [edge] == Repeat(edge, n + 1)
  {}

  lemma RepeatNone(edge: Byte)
    ensures Repeat(edge, 0) == []
  {}

  lemma {:induction false} HeldAppend(edges: seq<Byte>, edge: Byte)
    ensures Held(edges + [edge]) == Held(edges) + Repeat(edge, HOLD)
  {
    if edges == [] {
      assert edges + [edge] == [edge];
    } else {
      HeldAppend(edges[1..], edge);
      assert (edges + [edge])[1..] == edges[1..] + [edge];
    }
  }

  lemma {:induction false} HeldSplits(edges: seq<Byte>, n: nat)
    requires n <= |edges|
    ensures Held(edges) == Held(edges[..n]) + Held(edges[n..])
  {
    if n > 0 {
      HeldSplits(edges[1..], n - 1);
      assert edges[..n][1..] == edges[1..][..n - 1] && edges[1..][n - 1..] == edges[n..];
    } else {
      assert edges[0..] == edges;
    }
  }

  lemma {:induction false} EdgesAppend(codes: seq<Byte>, code: Byte)
    ensures Edges(codes + [code]) == Edges(codes) + [Down(code), Up(code)]
  {
    if codes == [] {
      assert codes + [code] == [code];
    } else {
      assert (codes + [code])[1..] == codes[1..] + [code];
      EdgesAppend(codes[1..], code);
    }
  }

  // The guest's reads are the queued edges, each six times, in order: a prefix
  // always, and all of them once the encoder falls idle. The interrupt line is up
  // exactly while an edge is active, and no edge is lost from the counts.
  lemma ObservedIsHeldEdges(encoder: Encoder)
    requires encoder.Valid()
    ensures encoder.observed <= Held(Edges(encoder.pressed))
    ensures encoder.keyActive.None? ==> encoder.observed == Held(Edges(encoder.pressed))
    ensures encoder.keyIrq == encoder.keyActive.Some?
    ensures encoder.keyActive.None? ==> encoder.keyQueue == []
    ensures 2 * encoder.keyEvents
         == encoder.keyConsumed + |encoder.keyQueue| + (if encoder.keyActive.Some? then 1 else 0)
  {
    var edges, n := Edges(encoder.pressed), encoder.keyConsumed;
    assert Pending(encoder.View()) == edges[n..];
    HeldSplits(edges, n);
    if encoder.keyActive.Some? {
      var edge := encoder.keyActive.value;
      assert edges[n..][0] == edge;
      assert Held(edges[n..]) == Repeat(edge, HOLD) + Held(edges[n..][1..]);
      assert Repeat(edge, HOLD - encoder.keyHoldCount) <= Repeat(edge, HOLD);
    } else {
      assert edges[n..] == [] && edges[..n] == edges;
    }
  }

  // One press alone is seen as six reads of the press and six of the release.
  lemma OnePressIsTwelveReads(encoder: Encoder, code: Byte)
    requires encoder.Valid() && encoder.pressed == [code] && encoder.keyActive.None?
    ensures encoder.observed == Repeat(code % 32 * 8 + 4, 6) + Repeat(code % 32 * 8, 6)
  {
    ObservedIsHeldEdges(encoder);
    assert Edges([code]) == [Down(code)] + [Up(code)];
    HeldAppend([Down(code)], Up(code));
    HeldAppend([], Down(code));
    assert [] + [Down(code)] == [Down(code)];
  }
}
