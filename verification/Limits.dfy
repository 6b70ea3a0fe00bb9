/** Token buckets and the bounded per-peer admission table. */
module Limits {
  import opened Prelude

  // ---- one bucket ----

  datatype Bucket = Bucket(capacity: u64, tokens: u64, refill: u64, last: u64)

  datatype Call = Call(cost: u64, now: u64)

  function NewBucket(capacity: u64, refill: u64, now: u64): Bucket {
    Bucket(Max(capacity, 1), Max(capacity, 1), Max(refill, 1), now)
  }

  predicate Filled(b: Bucket) {
    1 <= b.capacity && b.tokens <= b.capacity
  }

  /** Time only ever moves the bucket forward. */
  function Refilled(b: Bucket, now: u64): Bucket {
    if now <= b.last then b
    else b.(tokens := Min(SatAdd64(b.tokens, SatMul64(now - b.last, b.refill)), b.capacity), last := now)
  }

  /** Does a bucket that has seen the time `c.now` cover the call? */
  predicate Allows(b: Bucket, c: Call) {
    c.cost == 0 || (c.cost <= b.capacity && c.cost <= Refilled(b, c.now).tokens)
  }

  /** A call of cost zero, or of more than the capacity, does not touch the bucket. */
  function Spend(b: Bucket, c: Call): Bucket {
    if c.cost == 0 || c.cost > b.capacity then b
    else
      var r := Refilled(b, c.now);
      if r.tokens < c.cost then r else r.(tokens := r.tokens - c.cost)
  }

  /** What the bucket holds at a time: what was left and the refill since, as far as the capacity goes. */
  function Level(b: Bucket, now: u64): nat {
    Min(b.capacity, b.tokens + b.refill * SatSub(now, b.last))
  }

  /** Saturation never shows: a call is admitted if and only if it costs nothing, or fits the capacity and what was left
      and the refill since then cover it. */
  lemma AllowsExactly(b: Bucket, c: Call)
    requires Filled(b)
    ensures Allows(b, c)
       <==> c.cost == 0 || (c.cost <= b.capacity && c.cost <= b.tokens + b.refill * SatSub(c.now, b.last))
  {
    RefilledLevel(b, c.now);
  }

  lemma RefilledLevel(b: Bucket, now: u64)
    requires Filled(b)
    ensures Refilled(b, now) == Bucket(b.capacity, Level(b, now), b.refill, Max(b.last, now))
  {
    if now > b.last {
      assert SatMul64(now - b.last, b.refill) == Min((now - b.last) * b.refill, U64_MAX);
    }
  }

  /** The bucket afterwards: untouched by a free or oversized call; else filled up to its level, less what was admitted. */
  lemma SpendExactly(b: Bucket, c: Call)
    requires Filled(b)
    ensures (c.cost == 0 || c.cost > b.capacity) ==> Spend(b, c) == b
    ensures 0 < c.cost <= b.capacity ==>
              && Spend(b, c).tokens == Level(b, c.now) - (if c.cost <= Level(b, c.now) then c.cost else 0)
              && Spend(b, c).last == Max(b.last, c.now)
              && Spend(b, c).capacity == b.capacity && Spend(b, c).refill == b.refill
  {
    RefilledLevel(b, c.now);
    hide Refilled, Level;
  }

  function SpendAll(b: Bucket, calls: seq<Call>): Bucket {
    if calls == [] then b else Spend(SpendAll(b, calls[..|calls| - 1]), calls[|calls| - 1])
  }

  /** The cost a run of calls gets admitted. */
  function Admitted(b: Bucket, calls: seq<Call>): nat {
    if calls == [] then 0
    else
      var front, c := calls[..|calls| - 1], calls[|calls| - 1];
      Admitted(b, front) + (if Allows(SpendAll(b, front), c) then c.cost else 0)
  }

  /** The earliest and the latest reading of a run; neither need be the first or the last. */
  function Earliest(calls: seq<Call>): u64
    requires calls != []
  {
    var c := calls[|calls| - 1];
    if |calls| == 1 then c.now else Min(c.now, Earliest(calls[..|calls| - 1]))
  }

  function Latest(calls: seq<Call>): u64
    requires calls != []
  {
    var c := calls[|calls| - 1];
    if |calls| == 1 then c.now else Max(c.now, Latest(calls[..|calls| - 1]))
  }

  /** What one second can add: the refill, or the capacity if that is less. */
  function Rate(b: Bucket): u64 {
    Min(b.refill, b.capacity)
  }

  /** What was admitted and what is left is covered by the capacity and the time seen so far. Until the bucket has
      caught up with the readings nothing was admitted. */
  ghost predicate Covered(b: Bucket, admitted: nat, lo: u64, hi: u64) {
    && Filled(b)
    && (b.last < lo ==> admitted == 0)
    && admitted + b.tokens <= b.capacity + Rate(b) * SatSub(Min(b.last, hi), lo)
  }

  lemma RefillGain(b: Bucket, now: u64)
    requires Filled(b) && now > b.last
    ensures Filled(Refilled(b, now)) && Refilled(b, now).tokens <= b.tokens + Rate(b) * (now - b.last)
  {
    if b.refill > b.capacity {
      MulMonotone(1, now - b.last, b.capacity);
    }
  }

  lemma LongerSpan(rate: nat, x: nat, y: nat, extra: nat)
    requires x + extra <= y
    ensures rate * x + rate * extra <= rate * y
  {
    assert rate * x + rate * extra == rate * (x + extra);
    MulMonotone(x + extra, y, rate);
  }

  lemma SpendCovered(b: Bucket, admitted: nat, lo: u64, hi: u64, c: Call)
    requires Covered(b, admitted, lo, hi) && lo <= hi
    ensures Covered(Spend(b, c), admitted + (if Allows(b, c) then c.cost else 0), Min(lo, c.now), Max(hi, c.now))
  {
    var lo', hi' := Min(lo, c.now), Max(hi, c.now);
    var span, span' := SatSub(Min(b.last, hi), lo), SatSub(Min(Spend(b, c).last, hi'), lo');
    if c.cost == 0 || c.cost > b.capacity || c.now <= b.last {
      MulMonotone(span, span', Rate(b));
    } else {
      RefillGain(b, c.now);
      hide Refilled;
      if b.last < lo {
        assert admitted == 0;
        MulMonotone(0, span', Rate(b));
      } else {
        LongerSpan(Rate(b), span, span', c.now - b.last);
      }
    }
  }

  lemma {:induction false} RunCovered(b: Bucket, calls: seq<Call>)
    requires Filled(b) && calls != []
    ensures Earliest(calls) <= Latest(calls)
    ensures Covered(SpendAll(b, calls), Admitted(b, calls), Earliest(calls), Latest(calls))
    ensures SpendAll(b, calls).capacity == b.capacity && SpendAll(b, calls).refill == b.refill
  {
    var front, c := calls[..|calls| - 1], calls[|calls| - 1];
    if front == [] {
      assert SpendAll(b, front) == b && Admitted(b, front) == 0;
      SpendCovered(b, 0, c.now, c.now, c);
    } else {
      RunCovered(b, front);
      SpendCovered(SpendAll(b, front), Admitted(b, front), Earliest(front), Latest(front), c);
    }
  }

  /** The rate bound, whatever happened before the run and whatever order its clock readings come in. */
  lemma {:induction false} RateBound(b: Bucket, calls: seq<Call>)
    requires Filled(b) && calls != []
    ensures Admitted(b, calls) <= b.capacity + Rate(b) * (Latest(calls) - Earliest(calls))
    ensures Admitted(b, calls) <= b.capacity + b.refill * (Latest(calls) - Earliest(calls))
  {
    RunCovered(b, calls);
    var e := SpendAll(b, calls);
    var span := Latest(calls) - Earliest(calls);
    MulMonotone(SatSub(Min(e.last, Latest(calls)), Earliest(calls)), span, Rate(b));
    MulMonotone(Rate(b), b.refill, span);
  }

  /** The bound is met with equality for every capacity and refill: spend everything, wait a second, spend what one
      second gives. */
  lemma RateBoundIsTight(capacity: u64, refill: u64, now: u64)
    requires now < U64_MAX
    ensures var b := NewBucket(capacity, refill, now);
            var cap := Max(capacity, 1);
            var rate := Min(Max(refill, 1), cap);
            var calls := [Call(cap, now), Call(rate, now + 1)];
            && Filled(b) && b.capacity == cap && Rate(b) == rate
            && Earliest(calls) == now && Latest(calls) == now + 1
            && Admitted(b, calls) == cap + rate
  {
    var b := NewBucket(capacity, refill, now);
    var first, calls := [Call(b.capacity, now)], [Call(b.capacity, now), Call(Rate(b), now + 1)];
    assert calls[..1] == first && first[..0] == [];
    assert SpendAll(b, first) == Spend(b, first[0]) && Admitted(b, first) == b.capacity;
    assert Latest(first) == now == Earliest(first);
  }

  /** Refused calls are never starved: waiting long enough admits any cost within the capacity. */
  lemma WaitingAdmits(b: Bucket, c: Call)
    requires Filled(b) && c.cost <= b.capacity
    requires c.now > b.last && b.refill * (c.now - b.last) >= c.cost
    ensures Allows(b, c)
  {
  }

  class TokenBucket {
    var capacity: u64
    var tokens: u64
    var refillPerSecond: u64
    var lastSecond: u64

    ghost function View(): Bucket
      reads this
    {
      Bucket(capacity, tokens, refillPerSecond, lastSecond)
    }

    constructor (capacity: u64, refillPerSecond: u64, nowSecond: u64)
      ensures View() == NewBucket(capacity, refillPerSecond, nowSecond)
    {
      this.capacity := Max(capacity, 1);
      this.tokens := Max(capacity, 1);
      this.refillPerSecond := Max(refillPerSecond, 1);
      this.lastSecond := nowSecond;
    }

    method Allow(cost: u64, nowSecond: u64) returns (ok: bool)
      modifies this`tokens, this`lastSecond
      ensures ok == Allows(old(View()), Call(cost, nowSecond))
      ensures View() == Spend(old(View()), Call(cost, nowSecond))
    {
      if cost == 0 {
        return true;
      }
      if cost > capacity {
        return false;
      }
      var elapsed := SatSub(nowSecond, lastSecond);
      if elapsed > 0 {
        var refill := SatMul64(elapsed, refillPerSecond);
        tokens := Min(SatAdd64(tokens, refill), capacity);
        lastSecond := nowSecond;
      }
      if tokens < cost {
        return false;
      }
      tokens := tokens - cost;
      ok := true;
    }
  }

  // ---- the table of buckets ----

  datatype Table<K(==)> = Table(buckets: map<K, Bucket>, maxPeers: nat, capacity: u64, refill: u64)

  datatype Request<K> = Request(peer: K, call: Call, victim: K)

  predicate Crowded<K(==)>(t: Table<K>, peer: K) {
    peer !in t.buckets && |t.buckets| >= t.maxPeers
  }

  /** No tracked peer has fewer tokens left. */
  predicate Emptiest<K(==)>(t: Table<K>, victim: K) {
    victim in t.buckets && forall p :: p in t.buckets ==> t.buckets[victim].tokens <= t.buckets[p].tokens
  }

  /** Make room if needed, and give an unknown peer a full bucket. */
  function Entered<K(==)>(t: Table<K>, peer: K, now: u64, victim: K): Table<K> {
    if peer in t.buckets then t
    else
      var room := if |t.buckets| >= t.maxPeers then t.buckets - {victim} else t.buckets;
      t.(buckets := room[peer := NewBucket(t.capacity, t.refill, now)])
  }

  function Admit<K(==)>(t: Table<K>, r: Request<K>): Table<K> {
    var e := Entered(t, r.peer, r.call.now, r.victim);
    e.(buckets := e.buckets[r.peer := Spend(e.buckets[r.peer], r.call)])
  }

  predicate Admits<K(==)>(t: Table<K>, r: Request<K>) {
    Allows(Entered(t, r.peer, r.call.now, r.victim).buckets[r.peer], r.call)
  }

  /** An unknown peer finding the table full takes the place of one with the fewest tokens; nobody else ever leaves, and
      nobody else's bucket changes. */
  lemma EvictsExactly<K>(t: Table<K>, r: Request<K>)
    requires Crowded(t, r.peer) ==> Emptiest(t, r.victim)
    ensures var before, after := t.buckets, Admit(t, r).buckets;
            && (r.peer in before || |before| < t.maxPeers ==> after.Keys == before.Keys + {r.peer})
            && (r.peer !in before && |before| >= t.maxPeers ==>
                  exists v :: && v in before && (forall p :: p in before ==> before[v].tokens <= before[p].tokens)
                              && after.Keys == before.Keys - {v} + {r.peer})
            && forall p :: p in after && p != r.peer ==> p in before && after[p] == before[p]
  {
    hide Spend, NewBucket;
    var e := Entered(t, r.peer, r.call.now, r.victim).buckets;
    assert Admit(t, r).buckets.Keys == e.Keys;
  }

  function AdmitAll<K(==)>(t: Table<K>, requests: seq<Request<K>>): Table<K> {
    if requests == [] then t else Admit(AdmitAll(t, requests[..|requests| - 1]), requests[|requests| - 1])
  }

  /** The cost admitted for one peer. */
  function AdmittedFor<K(==)>(t: Table<K>, requests: seq<Request<K>>, peer: K): nat {
    if requests == [] then 0
    else
      var front, r := requests[..|requests| - 1], requests[|requests| - 1];
      AdmittedFor(t, front, peer) + (if r.peer == peer && Admits(AdmitAll(t, front), r) then r.call.cost else 0)
  }

  function CallsOf<K(==)>(requests: seq<Request<K>>, peer: K): seq<Call> {
    if requests == [] then []
    else
      var r := requests[|requests| - 1];
      CallsOf(requests[..|requests| - 1], peer) + (if r.peer == peer then [r.call] else [])
  }

  ghost predicate AllowedRequests<K>(t: Table<K>, requests: seq<Request<K>>) {
    requests == [] ||
    (&& AllowedRequests(t, requests[..|requests| - 1])
     && var before, r := AdmitAll(t, requests[..|requests| - 1]), requests[|requests| - 1];
        Crowded(before, r.peer) ==> Emptiest(before, r.victim))
  }

  ghost predicate NeverEvicted<K>(t: Table<K>, requests: seq<Request<K>>, peer: K) {
    forall k :: 0 <= k < |requests| ==> Crowded(AdmitAll(t, requests[..k]), requests[k].peer) ==> requests[k].victim != peer
  }

  ghost predicate TableOk<K>(t: Table<K>) {
    && 1 <= t.maxPeers && |t.buckets| <= t.maxPeers && 1 <= t.capacity && 1 <= t.refill
    && forall p :: p in t.buckets ==>
         Filled(t.buckets[p]) && t.buckets[p].capacity == t.capacity && t.buckets[p].refill == t.refill
  }

  lemma EnteredOk<K>(t: Table<K>, r: Request<K>)
    requires TableOk(t) && (Crowded(t, r.peer) ==> Emptiest(t, r.victim))
    ensures TableOk(Entered(t, r.peer, r.call.now, r.victim))
  {
    if r.peer !in t.buckets {
      var b := NewBucket(t.capacity, t.refill, r.call.now);
      assert Filled(b) && b.capacity == t.capacity && b.refill == t.refill;
      hide NewBucket, Filled;
      RoomForOne(t.buckets, t.maxPeers, r.victim, r.peer, b);
    }
  }

  lemma SpendFilled(b: Bucket, c: Call)
    requires Filled(b)
    ensures Filled(Spend(b, c)) && Spend(b, c).capacity == b.capacity && Spend(b, c).refill == b.refill
  {
  }

  lemma AdmitOk<K>(t: Table<K>, r: Request<K>)
    requires TableOk(t) && (Crowded(t, r.peer) ==> Emptiest(t, r.victim))
    ensures TableOk(Admit(t, r))
  {
    EnteredOk(t, r);
    hide Entered, Filled, Spend;
    var e := Entered(t, r.peer, r.call.now, r.victim);
    SpendFilled(e.buckets[r.peer], r.call);
    assert Admit(t, r).buckets.Keys == e.buckets.Keys;
    assert |Admit(t, r).buckets| == |Admit(t, r).buckets.Keys| && |e.buckets| == |e.buckets.Keys|;
  }

  /** The table never tracks more than `maxPeers` peers, whoever asks. */
  lemma {:induction false} TableStaysBounded<K>(t: Table<K>, requests: seq<Request<K>>)
    requires TableOk(t) && AllowedRequests(t, requests)
    ensures TableOk(AdmitAll(t, requests)) && AdmitAll(t, requests).maxPeers == t.maxPeers
    ensures AdmitAll(t, requests).capacity == t.capacity && AdmitAll(t, requests).refill == t.refill
  {
    if requests != [] {
      var front := requests[..|requests| - 1];
      TableStaysBounded(t, front);
      hide TableOk;
      AdmitOk(AdmitAll(t, front), requests[|requests| - 1]);
    }
  }

  /** The bucket a peer starts a run with: its own, or the full one its first request brings. */
  ghost function StartOf<K>(t: Table<K>, requests: seq<Request<K>>, peer: K): Bucket {
    var calls := CallsOf(requests, peer);
    if peer in t.buckets then t.buckets[peer]
    else NewBucket(t.capacity, t.refill, if calls == [] then 0 else calls[0].now)
  }

  lemma NeverEvictedPrefix<K>(t: Table<K>, requests: seq<Request<K>>, peer: K)
    requires requests != [] && NeverEvicted(t, requests, peer)
    ensures NeverEvicted(t, requests[..|requests| - 1], peer)
    ensures var before, r := AdmitAll(t, requests[..|requests| - 1]), requests[|requests| - 1];
            Crowded(before, r.peer) ==> r.victim != peer
  {
    hide Crowded, AdmitAll;
    var front := requests[..|requests| - 1];
    forall k | 0 <= k < |front|
      ensures Crowded(AdmitAll(t, front[..k]), front[k].peer) ==> front[k].victim != peer
    {
      assert front[..k] == requests[..k];
    }
  }

  lemma AdmitOwn<K>(t: Table<K>, r: Request<K>)
    ensures var b := if r.peer in t.buckets then t.buckets[r.peer] else NewBucket(t.capacity, t.refill, r.call.now);
            && r.peer in Admit(t, r).buckets
            && Admit(t, r).buckets[r.peer] == Spend(b, r.call)
            && Admits(t, r) == Allows(b, r.call)
  {
    hide Spend, Allows, NewBucket;
  }

  lemma AdmitOther<K>(t: Table<K>, r: Request<K>, peer: K)
    requires r.peer != peer && (Crowded(t, r.peer) ==> r.victim != peer)
    ensures peer in Admit(t, r).buckets <==> peer in t.buckets
    ensures peer in t.buckets ==> Admit(t, r).buckets[peer] == t.buckets[peer]
  {
    hide Spend, NewBucket;
  }

  /** A peer that is never evicted is treated as if it were alone: its bucket and its admitted cost are those of one
      bucket that sees only its calls. */
  lemma {:induction false} PeersAreIndependent<K>(t: Table<K>, requests: seq<Request<K>>, peer: K)
    requires NeverEvicted(t, requests, peer)
    ensures peer in AdmitAll(t, requests).buckets <==> peer in t.buckets || CallsOf(requests, peer) != []
    ensures AdmitAll(t, requests).capacity == t.capacity && AdmitAll(t, requests).refill == t.refill
    ensures peer in AdmitAll(t, requests).buckets ==>
              AdmitAll(t, requests).buckets[peer] == SpendAll(StartOf(t, requests, peer), CallsOf(requests, peer))
    ensures AdmittedFor(t, requests, peer) == Admitted(StartOf(t, requests, peer), CallsOf(requests, peer))
  {
    if requests != [] {
      var front, r := requests[..|requests| - 1], requests[|requests| - 1];
      NeverEvictedPrefix(t, requests, peer);
      PeersAreIndependent(t, front, peer);
      hide NeverEvicted, Spend, Allows, NewBucket, Crowded, Admits;
      var before := AdmitAll(t, front);
      assert Admit(before, r).capacity == before.capacity && Admit(before, r).refill == before.refill;
      hide Admit;
      if r.peer == peer {
        AdmitOwn(before, r);
        var calls := CallsOf(requests, peer);
        assert calls[..|calls| - 1] == CallsOf(front, peer) && calls[|calls| - 1] == r.call;
      } else {
        AdmitOther(before, r, peer);
        assert CallsOf(requests, peer) == CallsOf(front, peer);
      }
    }
  }

  /** The rate bound for a peer that is never evicted, over any segment of any run. */
  lemma {:induction false} PeerRateBound<K>(t: Table<K>, requests: seq<Request<K>>, peer: K)
    requires TableOk(t) && NeverEvicted(t, requests, peer)
    requires CallsOf(requests, peer) != []
    ensures var calls := CallsOf(requests, peer);
            AdmittedFor(t, requests, peer) <= t.capacity + Min(t.refill, t.capacity) * (Latest(calls) - Earliest(calls))
    ensures var calls := CallsOf(requests, peer);
            AdmittedFor(t, requests, peer) <= t.capacity + t.refill * (Latest(calls) - Earliest(calls))
  {
    PeersAreIndependent(t, requests, peer);
    hide NeverEvicted, AdmittedFor, AdmitAll, SpendAll, Admitted, CallsOf, Earliest, Latest;
    assert Filled(NewBucket(t.capacity, t.refill, CallsOf(requests, peer)[0].now));
    RateBound(StartOf(t, requests, peer), CallsOf(requests, peer));
  }

  class PeerAdmission<K(==)> {
    var buckets: map<K, TokenBucket>
    const maxPeers: nat
    const capacity: u64
    const refillPerSecond: u64

    /** Every peer has a bucket of its own. */
    ghost predicate Valid()
      reads this
    {
      forall p, q :: p in buckets && q in buckets && p != q ==> buckets[p] != buckets[q]
    }

    ghost function View(): Table<K>
      reads this, buckets.Values
    {
      Table(map p | p in buckets :: buckets[p].View(), maxPeers, capacity, refillPerSecond)
    }

    constructor (maxPeers: nat, capacity: u64, refillPerSecond: u64)
      ensures Valid() && View() == Table(map[], Max(maxPeers, 1), Max(capacity, 1), Max(refillPerSecond, 1))
      ensures TableOk(View())
    {
      this.buckets := map[];
      this.maxPeers := Max(maxPeers, 1);
      this.capacity := Max(capacity, 1);
      this.refillPerSecond := Max(refillPerSecond, 1);
    }

    method Allow(peer: K, cost: u64, nowSecond: u64) returns (ok: bool, ghost victim: K)
      requires Valid() && 1 <= maxPeers
      modifies this`buckets, buckets.Values
      ensures Valid() && fresh(buckets.Values - old(buckets.Values))
      ensures Crowded(old(View()), peer) ==> Emptiest(old(View()), victim)
      ensures ok == Admits(old(View()), Request(peer, Call(cost, nowSecond), victim))
      ensures View() == Admit(old(View()), Request(peer, Call(cost, nowSecond), victim))
    {
      victim := Enter(peer, nowSecond);
      label entered:
      var bucket := buckets[peer];
      ok := bucket.Allow(cost, nowSecond);
      forall p | p in buckets && p != peer
        ensures buckets[p].View() == old@entered(buckets[p].View())
      {
        assert buckets[p] != bucket;
      }
      hide Entered, Spend, Allows;
      ghost var entered := old@entered(View());
      assert View().buckets == entered.buckets[peer := Spend(entered.buckets[peer], Call(cost, nowSecond))];
    }

    /** Find or make the peer's bucket. */
    method Enter(peer: K, nowSecond: u64) returns (ghost victim: K)
      requires Valid() && 1 <= maxPeers
      modifies this`buckets
      ensures Valid() && fresh(buckets.Values - old(buckets.Values)) && peer in buckets
      ensures Crowded(old(View()), peer) ==> Emptiest(old(View()), victim)
      ensures View() == Entered(old(View()), peer, nowSecond, victim)
    {
      hide NewBucket, Emptiest;
      victim := peer;
      ghost var before := View();
      assert before.buckets.Keys == buckets.Keys && |before.buckets| == |before.buckets.Keys| == |buckets.Keys| == |buckets|;
      if peer !in buckets {
        if |buckets| >= maxPeers {
          var poorest := FindEmptiest();
          victim := poorest;
          buckets := buckets - {poorest};
        }
        ghost var room := View().buckets;
        assert room == if |before.buckets| >= maxPeers then before.buckets - {victim} else before.buckets;
        var bucket := new TokenBucket(capacity, refillPerSecond, nowSecond);
        buckets := buckets[peer := bucket];
        assert View().buckets == room[peer := NewBucket(capacity, refillPerSecond, nowSecond)];
      }
    }

    method FindEmptiest() returns (poorest: K)
      requires |buckets| > 0
      ensures Emptiest(View(), poorest)
    {
      assert exists p :: p in buckets by {
        assert buckets.Keys != {};
      }
      poorest :| poorest in buckets;
      var left := buckets.Keys - {poorest};
      while left != {}
        invariant poorest in buckets && left <= buckets.Keys
        invariant forall p :: p in buckets && p !in left ==> buckets[poorest].tokens <= buckets[p].tokens
      {
        var p :| p in left;
        if buckets[p].tokens < buckets[poorest].tokens {
          poorest := p;
        }
        left := left - {p};
      }
    }
  }
}
