// The report service's sliding-window limiter. Its deques are pruned lazily;
// the ghost history of accepted submissions is what the limits are about.
module RateLimits {
  type Address = string

  const WINDOW: real := 3600.0
  const PER_CLIENT: nat := 10
  const OVERALL: nat := 100

  datatype Submission = Submission(address: Address, time: real)

  function Last<T>(s: seq<T>): T
    requires s != []
  {
    s[|s| - 1]
  }

  function Init<T>(s: seq<T>): seq<T>
    requires s != []
  {
    s[..|s| - 1]
  }

  function Times(h: seq<Submission>): seq<real> {
    seq(|h|, i requires 0 <= i < |h| => h[i].time)
  }

  function By(h: seq<Submission>, address: Address): seq<Submission> {
    if h == [] then []
    else if Last(h).address == address then By(Init(h), address) + [Last(h)]
    else By(Init(h), address)
  }

  function Since(times: seq<real>, from: real): seq<real> {
    if times == [] then []
    else if Last(times) >= from then Since(Init(times), from) + [Last(times)]
    else Since(Init(times), from)
  }

  function Within(times: seq<real>, from: real, to: real): seq<real> {
    if times == [] then []
    else if from <= Last(times) <= to then Within(Init(times), from, to) + [Last(times)]
    else Within(Init(times), from, to)
  }

  predicate Sorted(times: seq<real>) { forall i, j | 0 <= i < j < |times| :: times[i] <= times[j] }

  // Ascending times, none after `clock`.
  predicate Queue(times: seq<real>, clock: real) {
    Sorted(times) && forall i | 0 <= i < |times| :: times[i] <= clock
  }

  // What a limiter that rescans the whole history would decide: fewer than 10 of
  // the client and fewer than 100 of all in the last 3600 seconds.
  predicate Allowed(h: seq<Submission>, address: Address, now: real) {
    |Since(Times(By(h, address)), now - 3600.0)| < 10 && |Since(Times(h), now - 3600.0)| < 100
  }

  // Every accepted submission was allowed when it came.
  predicate Limited(h: seq<Submission>) {
    forall i | 0 <= i < |h| :: Allowed(h[..i], h[i].address, h[i].time)
  }

  function Lookup(table: map<Address, seq<real>>, address: Address): seq<real> {
    if address in table then table[address] else []
  }

  // The table without clients that have nothing since `from`.
  function Kept(table: map<Address, seq<real>>, from: real): map<Address, seq<real>> {
    map a | a in table && table[a] != [] && Last(table[a]) >= from :: table[a]
  }

  class Limits {
    var clients: map<Address, seq<real>>
    var total: seq<real>

    ghost var accepted: seq<Submission>
    ghost var clock: real  // the latest call

    ghost predicate Valid()
      reads this
    {
      && Queue(Times(accepted), clock)
      && Limited(accepted)
      && total == Since(Times(accepted), clock - WINDOW)
      && (forall a | a in clients :: Queue(clients[a], clock))
      && (forall a: Address ::
            Since(Lookup(clients, a), clock - WINDOW) == Since(Times(By(accepted, a)), clock - WINDOW))
    }

    constructor (start: real)
      ensures Valid() && accepted == [] && clock == start
    {
      clients, total := map[], [];
      accepted, clock := [], start;
    }

    // Forget what has left the window, and clients with nothing in it.
    method Prune(now: real)
      requires Valid() && clock <= now
      modifies this
      ensures Valid() && clock == now && accepted == old(accepted)
      ensures |clients.Keys| <= |total|
    {
      hide Queue, Sorted, Since, Times, By, Limited, Kept, Lookup;
      var from := now - WINDOW;
      SinceSince(Times(accepted), clock - WINDOW, from);
      QueueSince(Times(accepted), clock, clock - WINDOW);
      total := Pruned(total, from, clock);
      PruneTable(clients, accepted, clock, from);
      clients := Kept(clients, from);
      QueuesLater(clients, Times(accepted), clock, now);
      clock := now;
    }

    // Accept or reject one submission at `now`; a rejection is the 429 answer.
    // Readings come in order because every call is made on one event loop.
    method Accept(address: Address, now: real) returns (ok: bool)
      requires Valid() && clock <= now
      modifies this
      ensures Valid() && clock == now
      ensures ok <==> Allowed(old(accepted), address, now)
      ensures accepted == if ok then old(accepted) + [Submission(address, now)] else old(accepted)
      ensures |clients.Keys| <= |total| + 1
    {
      hide Queue, Sorted, Since, Times, By, Limited;
      ghost var h := accepted;
      var from := now - WINDOW;
      Prune(now);
      EmptyQueue(now);
      var q := Lookup(clients, address);
      SinceSince(q, from, from);
      QueueSince(q, now, from);
      q := Pruned(q, from, now);
      assert Since(q, from) == q == Since(Times(By(h, address)), from);
      KeysInsert(clients, address, q);
      clients := clients[address := q];
      if |q| >= PER_CLIENT || |total| >= OVERALL {
        return false;
      }
      Admit(address, q, now);
      return true;
    }

    // Record an allowed submission behind the recent ones of its client.
    method Admit(address: Address, q: seq<real>, now: real)
      requires Valid() && clock == now && address in clients && clients[address] == q
      requires q == Since(Times(By(accepted, address)), now - WINDOW)
      requires Allowed(accepted, address, now)
      modifies this
      ensures Valid() && clock == now
      ensures accepted == old(accepted) + [Submission(address, now)]
      ensures clients.Keys == old(clients.Keys) && |total| == |old(total)| + 1
    {
      hide Queue, Sorted, Since, Times, By, Limited, Allowed;
      ghost var h, from := accepted, now - WINDOW;
      QueueAppend(q, now);
      QueueAppend(Times(h), now);
      SinceAppend(q, now, from);
      SinceAppend(Times(h), now, from);
      HistoryGrows(h, Submission(address, now));
      clients := clients[address := q + [now]];
      total := total + [now];
      accepted := accepted + [Submission(address, now)];
      forall a: Address
        ensures Since(Lookup(clients, a), from) == Since(Times(By(accepted, a)), from)
      {
        ByGrows(h, Submission(address, now), a);
        SinceAppend(Times(By(h, a)), now, from);
      }
    }
  }

  lemma KeysInsert(clients: map<Address, seq<real>>, address: Address, q: seq<real>)
    ensures clients[address := q].Keys == clients.Keys + {address}
    ensures |clients[address := q].Keys| <= |clients.Keys| + 1
  {}

  lemma EmptyQueue(clock: real)
    ensures Queue([], clock) && forall from :: Since([], from) == []
  {}

  lemma QueueAppend(q: seq<real>, now: real)
    requires Queue(q, now)
    ensures Queue(q + [now], now)
  {}

  lemma QueueSince(q: seq<real>, clock: real, from: real)
    requires Queue(q, clock)
    ensures Queue(Since(q, from), clock)
  {
    SinceIsSorted(q, from);
  }

  lemma QueuesLater(clients: map<Address, seq<real>>, all: seq<real>, clock: real, now: real)
    requires clock <= now && Queue(all, clock)
    requires forall a | a in clients :: Queue(clients[a], clock)
    ensures Queue(all, now) && forall a | a in clients :: Queue(clients[a], now)
  {}

  // Dropping the clients with nothing recent loses no recent submission.
  lemma PruneTable(table: map<Address, seq<real>>, h: seq<Submission>, clock: real, from: real)
    requires clock - WINDOW <= from
    requires forall a | a in table :: Queue(table[a], clock)
    requires forall a: Address ::
      Since(Lookup(table, a), clock - WINDOW) == Since(Times(By(h, a)), clock - WINDOW)
    ensures var kept := Kept(table, from);
      && (forall a: Address :: Since(Lookup(kept, a), from) == Since(Times(By(h, a)), from))
      && (forall a | a in kept :: Queue(kept[a], clock))
      && |kept.Keys| <= |Since(Times(h), from)|
  {
    var kept := Kept(table, from);
    forall a: Address
      ensures Since(Lookup(kept, a), from) == Since(Times(By(h, a)), from)
    {
      StillRecent(Lookup(table, a), Times(By(h, a)), clock - WINDOW, from);
      if a in table && a !in kept && table[a] != [] { SinceNothing(table[a], from); }
    }
    forall a | a in kept
      ensures Since(kept[a], from) == Since(Times(By(h, a)), from)
    {
      assert Lookup(kept, a) == kept[a];
    }
    TableBound(kept, h, from);
  }

  // Drop the entries before `from` off the front of a queue.
  method Pruned(queue: seq<real>, from: real, ghost clock: real) returns (q: seq<real>)
    requires Queue(queue, clock)
    ensures q == Since(queue, from)
  {
    q := queue;
    while q != [] && q[0] < from
      invariant Sorted(q) && Since(q, from) == Since(queue, from)
      decreases |q|
    {
      SinceTail(q, from);
      q := q[1..];
    }
    SinceAll(q, from);
  }

  // ---------- filters ----------

  lemma {:induction false} SinceTail(times: seq<real>, from: real)
    requires times != [] && times[0] < from
    ensures Since(times[1..], from) == Since(times, from)
  {
    if |times| > 1 {
      SinceTail(Init(times), from);
      assert Init(times[1..]) == Init(times)[1..];
    }
  }

  lemma {:induction false} SinceAll(times: seq<real>, from: real)
    requires Sorted(times) && (times != [] ==> times[0] >= from)
    ensures Since(times, from) == times
  {
    if times != [] {
      SinceAll(Init(times), from);
      assert times == Init(times) + [Last(times)];
    }
  }

  lemma SinceAppend(times: seq<real>, time: real, from: real)
    ensures Since(times + [time], from) == if time >= from then Since(times, from) + [time] else Since(times, from)
  {
    assert Init(times + [time]) == times;
  }

  lemma {:induction false} SinceSince(times: seq<real>, first: real, second: real)
    requires first <= second
    ensures Since(Since(times, first), second) == Since(times, second)
  {
    if times != [] {
      SinceSince(Init(times), first, second);
      if Last(times) >= first { SinceAppend(Since(Init(times), first), Last(times), second); }
    }
  }

  lemma {:induction false} SinceIsSorted(times: seq<real>, from: real)
    requires Sorted(times)
    ensures Sorted(Since(times, from))
    ensures forall i | 0 <= i < |Since(times, from)| :: Since(times, from)[i] in times
  {
    if times != [] {
      SinceIsSorted(Init(times), from);
      forall t | t in Init(times) ensures t in times && t <= Last(times) {
        var i :| 0 <= i < |Init(times)| && Init(times)[i] == t;
        assert times[i] == t;
      }
    }
  }

  lemma {:induction false} SinceNothing(times: seq<real>, from: real)
    requires Sorted(times) && times != [] && Last(times) < from
    ensures Since(times, from) == []
  {
    if |times| > 1 { SinceNothing(Init(times), from); }
  }

  // Two queues with the same recent part keep the same recent part.
  lemma StillRecent(a: seq<real>, b: seq<real>, first: real, second: real)
    requires first <= second && Since(a, first) == Since(b, first)
    ensures Since(a, second) == Since(b, second)
  {
    SinceSince(a, first, second);
    SinceSince(b, first, second);
  }

  lemma ByGrows(h: seq<Submission>, s: Submission, address: Address)
    ensures Times(By(h + [s], address)) == if s.address == address then Times(By(h, address)) + [s.time]
        else Times(By(h, address))
  {
    assert Init(h + [s]) == h;
  }

  lemma HistoryGrows(h: seq<Submission>, s: Submission)
    requires Limited(h) && Allowed(h, s.address, s.time)
    ensures Limited(h + [s])
    ensures Times(h + [s]) == Times(h) + [s.time]
  {
    var g := h + [s];
    forall i | 0 <= i < |g| ensures Allowed(g[..i], g[i].address, g[i].time) {
      if i < |h| { assert g[..i] == h[..i]; } else { assert g[..i] == h; }
    }
    assert Times(g) == Times(h) + [s.time];
  }

  // ---------- the client table ----------

  // Addresses with an accepted submission since `from`.
  function Recent(h: seq<Submission>, from: real): set<Address> {
    if h == [] then {}
    else Recent(Init(h), from) + (if Last(h).time >= from then {Last(h).address} else {})
  }

  lemma {:induction false} RecentIsFew(h: seq<Submission>, from: real)
    ensures |Recent(h, from)| <= |Since(Times(h), from)|
  {
    if h != [] {
      RecentIsFew(Init(h), from);
      assert Times(h) == Times(Init(h)) + [Last(h).time];
      SinceAppend(Times(Init(h)), Last(h).time, from);
    }
  }

  lemma {:induction false} RecentIsListed(h: seq<Submission>, address: Address, from: real)
    requires Since(Times(By(h, address)), from) != []
    ensures address in Recent(h, from)
  {
    if h != [] {
      assert h == Init(h) + [Last(h)];
      ByGrows(Init(h), Last(h), address);
      if Last(h).address == address { SinceAppend(Times(By(Init(h), address)), Last(h).time, from); }
      if !(Last(h).address == address && Last(h).time >= from) { RecentIsListed(Init(h), address, from); }
    }
  }

  lemma SubsetSize(a: set<Address>, b: set<Address>)
    requires a <= b
    ensures |a| <= |b|
  {
    assert b == a + (b - a);
  }

  lemma TableBound(clients: map<Address, seq<real>>, h: seq<Submission>, from: real)
    requires forall a | a in clients :: clients[a] != [] && Last(clients[a]) >= from
    requires forall a | a in clients :: Since(clients[a], from) == Since(Times(By(h, a)), from)
    ensures |clients.Keys| <= |Since(Times(h), from)|
  {
    forall a | a in clients ensures a in Recent(h, from) {
      RecentIsListed(h, a, from);
    }
    RecentIsFew(h, from);
    SubsetSize(clients.Keys, Recent(h, from));
  }

  // ---------- the limits over all time ----------

  lemma {:induction false} WithinIsSince(times: seq<real>, from: real, to: real, lower: real)
    requires lower <= from
    ensures |Within(times, from, to)| <= |Since(times, lower)|
  {
    if times != [] { WithinIsSince(Init(times), from, to, lower); }
  }

  lemma WindowGrows(times: seq<real>, time: real, from: real, limit: nat)
    requires |Within(times, from, from + WINDOW)| <= limit && |Since(times, time - WINDOW)| < limit
    ensures |Within(times + [time], from, from + WINDOW)| <= limit
  {
    assert Init(times + [time]) == times;
    if time <= from + WINDOW { WithinIsSince(times, from, from + WINDOW, time - WINDOW); }
  }

  lemma HistoryShrinks(h: seq<Submission>)
    requires h != [] && Limited(h)
    ensures Limited(Init(h)) && Allowed(Init(h), Last(h).address, Last(h).time)
    ensures h == Init(h) + [Last(h)] && Times(h) == Times(Init(h)) + [Last(h).time]
  {
    hide Allowed;
    var g := Init(h);
    forall i | 0 <= i < |g| ensures Allowed(g[..i], g[i].address, g[i].time) { assert g[..i] == h[..i]; }
    assert Allowed(h[..|h| - 1], Last(h).address, Last(h).time);
  }

  // No closed window of 3600 seconds, wherever it starts, ever holds more than 100
  // accepted submissions or 10 from one address.
  lemma {:induction false} EveryWindowIsLimited(h: seq<Submission>, from: real, address: Address)
    requires Limited(h)
    ensures |Within(Times(h), from, from + 3600.0)| <= 100
    ensures |Within(Times(By(h, address)), from, from + 3600.0)| <= 10
  {
    if h == [] {
      assert Times(By(h, address)) == [];
    } else {
      HistoryShrinks(h);
      EveryWindowIsLimited(Init(h), from, address);
      WindowStep(Init(h), Last(h), from, address);
    }
  }

  lemma WindowStep(g: seq<Submission>, s: Submission, from: real, address: Address)
    requires Allowed(g, s.address, s.time)
    requires |Within(Times(g), from, from + 3600.0)| <= 100
    requires |Within(Times(By(g, address)), from, from + 3600.0)| <= 10
    ensures |Within(Times(g) + [s.time], from, from + 3600.0)| <= 100
    ensures |Within(Times(By(g + [s], address)), from, from + 3600.0)| <= 10
  {
    ByGrows(g, s, address);
    hide Within, Since, By, Times;
    WindowGrows(Times(g), s.time, from, OVERALL);
    if s.address == address { WindowGrows(Times(By(g, address)), s.time, from, PER_CLIENT); }
  }

  lemma {:induction false} ConsecutiveCount(times: seq<real>, i: nat, n: nat, from: real, to: real)
    requires i + n <= |times| && forall j | i <= j < i + n :: from <= times[j] <= to
    ensures |Within(times, from, to)| >= n
  {
    if n > 0 {
      var first := Init(times);
      assert forall j | 0 <= j < |first| :: first[j] == times[j];
      ConsecutiveCount(first, i, if i + n == |times| then n - 1 else n, from, to);
    }
  }

  lemma {:induction false} BySorted(h: seq<Submission>, address: Address)
    requires Sorted(Times(h))
    ensures var mine := By(h, address);
      && (forall i | 0 <= i < |mine| :: mine[i].time <= Last(h).time)
      && (forall i, j | 0 <= i < j < |mine| :: mine[i].time <= mine[j].time)
      && Sorted(Times(mine))
  {
    if h != [] {
      var g := Init(h);
      assert forall i | 0 <= i < |g| :: Times(h)[i] == Times(g)[i];
      BySorted(g, address);
      if g != [] { assert Times(h)[|g| - 1] == Last(g).time && Times(h)[|g|] == Last(h).time; }
      var mine := By(h, address);
      assert forall i | 0 <= i < |By(g, address)| :: mine[i] == By(g, address)[i];
      assert forall i, j | 0 <= i < j < |mine| :: mine[i].time <= mine[j].time;
      TimesSorted(mine);
    }
  }

  lemma TimesSorted(h: seq<Submission>)
    requires forall i, j | 0 <= i < j < |h| :: h[i].time <= h[j].time
    ensures Sorted(Times(h))
  {
    forall i, j | 0 <= i < j < |h| ensures Times(h)[i] <= Times(h)[j] {
      assert Times(h)[i] == h[i].time && Times(h)[j] == h[j].time;
    }
  }

  // Among any 101 accepted submissions in a row, and any 11 of one client, the last
  // came more than an hour after the first.
  lemma AcceptancesAreSpread(h: seq<Submission>, address: Address, i: nat)
    requires Limited(h) && Sorted(Times(h))
    ensures i + 100 < |h| ==> h[i + 100].time > h[i].time + 3600.0
    ensures var mine := By(h, address); i + 10 < |mine| ==> mine[i + 10].time > mine[i].time + 3600.0
  {
    hide Limited, By;
    BySorted(h, address);
    if i < |h| { TooMany(h, address, h, i, 100); }
    var mine := By(h, address);
    if i < |mine| { TooMany(h, address, mine, i, 10); }
  }

  lemma TooMany(h: seq<Submission>, address: Address, run: seq<Submission>, i: nat, limit: nat)
    requires Limited(h) && Sorted(Times(run)) && i < |run|
    requires (run == h && limit == 100) || (run == By(h, address) && limit == 10)
    ensures i + limit < |run| ==> run[i + limit].time > run[i].time + 3600.0
  {
    hide Limited, By;
    var times, from := Times(run), run[i].time;
    EveryWindowIsLimited(h, from, address);
    if i + limit < |run| && times[i + limit] <= from + 3600.0 {
      forall j | i <= j < i + limit + 1 ensures from <= times[j] <= from + 3600.0 {
        assert times[i] <= times[j] && times[j] <= times[i + limit];
      }
      ConsecutiveCount(times, i, limit + 1, from, from + 3600.0);
    }
  }

  // Once the window has passed since the last acceptance anyone is accepted.
  lemma RejectionsExpire(h: seq<Submission>, address: Address, now: real)
    requires Sorted(Times(h)) && (h != [] ==> Last(h).time + 3600.0 < now)
    ensures Allowed(h, address, now)
  {
    if h != [] {
      assert Last(Times(h)) == Last(h).time;
      SinceNothing(Times(h), now - WINDOW);
      RecentIsFew(h, now - WINDOW);
      if Since(Times(By(h, address)), now - WINDOW) != [] {
        RecentIsListed(h, address, now - WINDOW);
      }
    }
  }
}
