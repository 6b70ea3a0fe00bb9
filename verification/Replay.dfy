/** The bounded replay guard: a shifting bitmap per peer that stands for the set of accepted sequence numbers. */
module Replay {
  import opened Prelude
  import opened Bits

  const MAX_PEERS: nat := 65_536
  const REPLAY_WINDOW: nat := 64

  datatype ReplayState = ReplayState(highest: u64, bitmap: bv64, generation: u64)

  datatype Guard<K(==)> = Guard(states: map<K, ReplayState>, generation: u64)

  datatype Verdict<K(==)> = Verdict(guard: Guard<K>, ok: bool)

  // ---- what one packet does ----

  /** A packet from a tracked peer, up to the refresh of its generation. */
  function Window(st: ReplayState, sequence: u64): Option<ReplayState> {
    if sequence > st.highest then
      var shift := sequence - st.highest;
      Some(st.(highest := sequence, bitmap := if shift >= REPLAY_WINDOW then 1 else Or(Shl(st.bitmap, shift), 1)))
    else
      var delta := st.highest - sequence;
      if delta >= REPLAY_WINDOW then None
      else if Has(st.bitmap, delta) then None
      else Some(st.(bitmap := Or(st.bitmap, Unit(delta))))
  }

  function AcceptKnown<K(==)>(g: Guard<K>, peer: K, sequence: u64): Verdict<K>
    requires peer in g.states
  {
    var st := g.states[peer];
    var next := WrapInc64(g.generation);
    if sequence <= st.highest && st.highest - sequence >= REPLAY_WINDOW then Verdict(g, false)
    else match Window(st, sequence)
      case None => Verdict(g.(generation := next), false)
      case Some(moved) => Verdict(Guard(g.states[peer := moved.(generation := next)], next), true)
  }

  /** `victim` is the peer that makes room when the table is full. */
  function AcceptNew<K(==)>(g: Guard<K>, peer: K, sequence: u64, victim: K): Verdict<K> {
    var room := if |g.states| >= MAX_PEERS then g.states - {victim} else g.states;
    var next := WrapInc64(g.generation);
    Verdict(Guard(room[peer := ReplayState(sequence, 1, next)], next), true)
  }

  function AcceptPacket<K(==)>(g: Guard<K>, peer: K, sequence: u64, victim: K): Verdict<K> {
    if peer in g.states then AcceptKnown(g, peer, sequence) else AcceptNew(g, peer, sequence, victim)
  }

  predicate Evicts<K(==)>(g: Guard<K>, peer: K) {
    peer !in g.states && |g.states| >= MAX_PEERS
  }

  /** No tracked peer has an older generation. */
  predicate Oldest<K(==)>(g: Guard<K>, victim: K) {
    victim in g.states && forall p :: p in g.states ==> g.states[victim].generation <= g.states[p].generation
  }

  // ---- the set a window stands for ----

  /** The rule in terms of the accepted numbers: not one of them, and none of them 64 or more ahead. */
  ghost predicate Acceptable(accepted: set<int>, sequence: u64) {
    sequence !in accepted && forall x :: x in accepted ==> x <= sequence || x - sequence < REPLAY_WINDOW
  }

  ghost predicate Stands(st: ReplayState, accepted: set<int>) {
    && st.highest in accepted
    && (forall x :: x in accepted ==> x <= st.highest)
    && (forall j: nat :: j < 64 ==> (Has(st.bitmap, j) <==> j <= st.highest && st.highest - j in accepted))
  }

  /** The rule again, as the code tests it. */
  lemma AcceptableByHighest(st: ReplayState, accepted: set<int>, sequence: u64)
    requires Stands(st, accepted)
    ensures Acceptable(accepted, sequence)
       <==> sequence > st.highest || (sequence !in accepted && st.highest - sequence < REPLAY_WINDOW)
  {
    hide Has;
  }

  lemma ShiftedWord(w: bv64, shift: nat, j: nat)
    requires 0 < shift && j < 64
    ensures Has(Or(Shl(w, shift), 1), j) <==> j == 0 || (shift <= j && Has(w, j - shift))
  {
    ShlStep(1, 0);
    hide Shl, Has;
    SetBit(Shl(w, shift), 0, j);
    ShiftedBit(w, shift, j);
  }

  lemma AdvanceStands(st: ReplayState, accepted: set<int>, sequence: u64)
    requires Stands(st, accepted) && sequence > st.highest
    ensures Window(st, sequence).Some? && Stands(Window(st, sequence).value, accepted + {sequence})
  {
    hide Has, Shl;
    var next := Window(st, sequence).value;
    var shift := sequence - st.highest;
    forall j: nat | j < 64
      ensures Has(next.bitmap, j) <==> j <= sequence && sequence - j in accepted + {sequence}
    {
      if shift >= REPLAY_WINDOW {
        OnlyLow(j);
      } else {
        ShiftedWord(st.bitmap, shift, j);
        if shift <= j {
          assert Has(st.bitmap, j - shift) <==> j - shift <= st.highest && st.highest - (j - shift) in accepted;
        }
      }
    }
  }

  lemma FillStands(st: ReplayState, accepted: set<int>, sequence: u64)
    requires Stands(st, accepted) && sequence <= st.highest && st.highest - sequence < REPLAY_WINDOW
    ensures Window(st, sequence).None? <==> sequence in accepted
    ensures sequence !in accepted ==> Stands(Window(st, sequence).value, accepted + {sequence})
  {
    hide Has, Unit;
    var delta := st.highest - sequence;
    assert Has(st.bitmap, delta) <==> sequence in accepted;
    if sequence !in accepted {
      var next := Window(st, sequence).value;
      forall j: nat | j < 64
        ensures Has(next.bitmap, j) <==> j <= st.highest && st.highest - j in accepted + {sequence}
      {
        SetBit(st.bitmap, delta, j);
      }
    }
  }

  lemma FirstStands(sequence: u64, generation: u64)
    ensures Stands(ReplayState(sequence, 1, generation), {sequence})
  {
    hide Has;
    forall j: nat | j < 64
      ensures Has(1, j) <==> j <= sequence && sequence - j in {sequence}
    {
      OnlyLow(j);
    }
  }

  /** The generation is no part of what a state stands for. */
  lemma StandsAnyGeneration(st: ReplayState, accepted: set<int>, generation: u64)
    requires Stands(st, accepted)
    ensures Stands(st.(generation := generation), accepted)
  {
    hide Has;
  }

  // ---- the table refines a map of sets ----

  type Seen<K> = map<K, set<int>>

  ghost predicate Matches<K>(g: Guard<K>, seen: Seen<K>) {
    && seen.Keys == g.states.Keys
    && |g.states| <= MAX_PEERS
    && forall p :: p in seen ==> Stands(g.states[p], seen[p])
  }

  ghost predicate SeenOk<K>(seen: Seen<K>, peer: K, sequence: u64) {
    peer in seen ==> Acceptable(seen[peer], sequence)
  }

  /** Accepted numbers are recorded; an unknown peer starts afresh, taking the victim's place if the table is full. */
  ghost function SeenAfter<K>(seen: Seen<K>, peer: K, sequence: u64, victim: K): Seen<K> {
    if peer in seen then
      if Acceptable(seen[peer], sequence) then seen[peer := seen[peer] + {sequence}] else seen
    else (if |seen| >= MAX_PEERS then seen - {victim} else seen)[peer := {sequence}]
  }

  lemma KnownRefines<K>(g: Guard<K>, seen: Seen<K>, peer: K, sequence: u64, victim: K)
    requires Matches(g, seen) && peer in seen
    ensures var v := AcceptKnown(g, peer, sequence);
            v.ok == SeenOk(seen, peer, sequence) && Matches(v.guard, SeenAfter(seen, peer, sequence, victim))
  {
    hide Stands, Has, Shl;
    var st, accepted := g.states[peer], seen[peer];
    AcceptableByHighest(st, accepted, sequence);
    hide Acceptable;
    var v := AcceptKnown(g, peer, sequence);
    if sequence > st.highest {
      AdvanceStands(st, accepted, sequence);
    } else if st.highest - sequence < REPLAY_WINDOW {
      FillStands(st, accepted, sequence);
    }
    if v.ok {
      hide Window;
      StandsAnyGeneration(Window(st, sequence).value, accepted + {sequence}, v.guard.generation);
      assert v.guard.states.Keys == g.states.Keys;
      assert |v.guard.states| == |v.guard.states.Keys| == |g.states.Keys| == |g.states|;
    }
  }

  lemma NewRefines<K>(g: Guard<K>, seen: Seen<K>, peer: K, sequence: u64, victim: K)
    requires Matches(g, seen) && peer !in seen && (Evicts(g, peer) ==> victim in g.states)
    ensures Matches(AcceptNew(g, peer, sequence, victim).guard, SeenAfter(seen, peer, sequence, victim))
  {
    hide Stands, Acceptable;
    FirstStands(sequence, WrapInc64(g.generation));
    var st := ReplayState(sequence, 1, WrapInc64(g.generation));
    assert |seen| == |seen.Keys| == |g.states.Keys| == |g.states|;
    RoomForOne(g.states, MAX_PEERS, victim, peer, st);
  }

  datatype Event<K> = Event(peer: K, sequence: u64, victim: K)

  function RunGuard<K(==)>(events: seq<Event<K>>): Guard<K> {
    if events == [] then Guard(map[], 0)
    else
      var e := events[|events| - 1];
      AcceptPacket(RunGuard(events[..|events| - 1]), e.peer, e.sequence, e.victim).guard
  }

  ghost predicate AllowedRun<K>(events: seq<Event<K>>) {
    events == [] ||
    (&& AllowedRun(events[..|events| - 1])
     && var g, e := RunGuard(events[..|events| - 1]), events[|events| - 1];
        Evicts(g, e.peer) ==> Oldest(g, e.victim))
  }

  ghost function RunSeen<K>(events: seq<Event<K>>): Seen<K> {
    if events == [] then map[]
    else
      var e := events[|events| - 1];
      SeenAfter(RunSeen(events[..|events| - 1]), e.peer, e.sequence, e.victim)
  }

  lemma {:induction false} RunMatches<K>(events: seq<Event<K>>)
    requires AllowedRun(events)
    ensures Matches(RunGuard(events), RunSeen(events))
  {
    if events != [] {
      hide Matches, AcceptKnown, AcceptNew, SeenAfter;
      var front, e := events[..|events| - 1], events[|events| - 1];
      RunMatches(front);
      AcceptRefines(RunGuard(front), RunSeen(front), e.peer, e.sequence, e.victim);
    } else {
      assert Matches(RunGuard(events), RunSeen(events));
    }
  }

  lemma AcceptRefines<K>(g: Guard<K>, seen: Seen<K>, peer: K, sequence: u64, victim: K)
    requires Matches(g, seen) && (Evicts(g, peer) ==> victim in g.states)
    ensures var v := AcceptPacket(g, peer, sequence, victim);
            v.ok == SeenOk(seen, peer, sequence) && Matches(v.guard, SeenAfter(seen, peer, sequence, victim))
  {
    hide AcceptKnown, SeenAfter, SeenOk;
    if peer in seen {
      KnownRefines(g, seen, peer, sequence, victim);
    } else {
      NewRefines(g, seen, peer, sequence, victim);
      UnknownOk(seen, peer, sequence);
    }
  }

  lemma UnknownOk<K>(seen: Seen<K>, peer: K, sequence: u64)
    requires peer !in seen
    ensures SeenOk(seen, peer, sequence)
  {
  }

  /** After any run, and however often the generation counter wrapped: a packet of a tracked peer is accepted exactly
      when its number was not accepted before and no accepted one is 64 or more ahead; others are always accepted. The
      table never outgrows its bound. */
  lemma GuardIsSets<K>(events: seq<Event<K>>, peer: K, sequence: u64, victim: K)
    requires AllowedRun(events)
    ensures AcceptPacket(RunGuard(events), peer, sequence, victim).ok == SeenOk(RunSeen(events), peer, sequence)
    ensures |RunGuard(events).states| <= MAX_PEERS && RunGuard(events).states.Keys == RunSeen(events).Keys
  {
    var g, seen := RunGuard(events), RunSeen(events);
    RunMatches(events);
    hide RunGuard, RunSeen;
    if peer in seen {
      KnownRefines(g, seen, peer, sequence, victim);
    }
  }

  // ---- eviction is least recently accepted ----

  function Without<K(==)>(order: seq<K>, peer: K): seq<K> {
    if order == [] then []
    else Without(order[..|order| - 1], peer) + (if order[|order| - 1] == peer then [] else [order[|order| - 1]])
  }

  /** The tracked peers from least to most recently accepted, read off the history of verdicts alone. */
  ghost function RunOrder<K>(events: seq<Event<K>>): seq<K> {
    if events == [] then []
    else
      var front, e := events[..|events| - 1], events[|events| - 1];
      var g, order := RunGuard(front), RunOrder(front);
      if !AcceptPacket(g, e.peer, e.sequence, e.victim).ok then order
      else
        var room := if Evicts(g, e.peer) && order != [] then order[1..] else order;
        Without(room, e.peer) + [e.peer]
  }

  ghost predicate Ascends<K>(order: seq<K>, rank: map<K, int>) {
    && (forall i :: 0 <= i < |order| ==> order[i] in rank)
    && forall i, j :: 0 <= i < j < |order| ==> rank[order[i]] < rank[order[j]]
  }

  ghost function Ranks<K>(g: Guard<K>): map<K, int> {
    map p | p in g.states :: g.states[p].generation
  }

  /** `order` lists the tracked peers by ascending generation. */
  ghost predicate Recent<K>(g: Guard<K>, order: seq<K>) {
    && Elems(order) == g.states.Keys
    && Ascends(order, Ranks(g))
    && forall p :: p in g.states ==> g.states[p].generation <= g.generation
  }

  lemma {:induction false} WithoutContents<K>(order: seq<K>, peer: K)
    ensures Elems(Without(order, peer)) == Elems(order) - {peer}
  {
    if order != [] {
      var front, last := order[..|order| - 1], order[|order| - 1];
      WithoutContents(front, peer);
      assert Elems(order) == Elems(front) + {last};
      assert Elems(Without(order, peer)) == Elems(Without(front, peer)) + (if last == peer then {} else {last});
    }
  }

  lemma FrontAscends<K>(order: seq<K>, rank: map<K, int>)
    requires order != [] && Ascends(order, rank)
    ensures Ascends(order[..|order| - 1], rank)
    ensures forall x :: x in Elems(order[..|order| - 1]) ==> x in rank && rank[x] < rank[order[|order| - 1]]
  {
  }

  lemma ExtendAscends<K>(order: seq<K>, rank: map<K, int>, last: K)
    requires Ascends(order, rank) && last in rank
    requires forall x :: x in Elems(order) ==> x in rank && rank[x] < rank[last]
    ensures Ascends(order + [last], rank)
  {
    assert forall i :: 0 <= i < |order| ==> order[i] in Elems(order);
  }

  /** Leaving one peer out keeps the others in order. */
  lemma {:induction false} WithoutAscends<K>(order: seq<K>, peer: K, rank: map<K, int>)
    requires Ascends(order, rank)
    ensures Ascends(Without(order, peer), rank)
  {
    if order != [] {
      var front, last := order[..|order| - 1], order[|order| - 1];
      assert last in rank;
      FrontAscends(order, rank);
      WithoutAscends(front, peer, rank);
      WithoutContents(front, peer);
      hide Ascends, Elems;
      ExtendAscends(Without(front, peer), rank, last);
      assert Without(front, peer) + [] == Without(front, peer);
    }
  }

  lemma TailAscends<K>(order: seq<K>, rank: map<K, int>)
    requires order != [] && Ascends(order, rank)
    ensures Ascends(order[1..], rank - {order[0]})
    ensures Elems(order[1..]) == Elems(order) - {order[0]}
  {
    var tail := order[1..];
    assert order == [order[0]] + tail;
    forall i | 0 <= i < |tail|
      ensures tail[i] == order[i + 1] && tail[i] in rank && tail[i] != order[0]
    {
      assert rank[order[0]] < rank[order[i + 1]];
    }
  }

  lemma AppendAscends<K>(order: seq<K>, rank: map<K, int>, peer: K, top: int)
    requires Ascends(order, rank)
    requires forall x :: x in order ==> x != peer && x in rank && rank[x] < top
    ensures Ascends(order + [peer], rank[peer := top])
    ensures Elems(order + [peer]) == Elems(order) + {peer}
  {
    assert forall i :: 0 <= i < |order| ==> order[i] in order;
  }

  lemma OldestIsFirst<K>(g: Guard<K>, order: seq<K>, victim: K)
    requires Recent(g, order) && Oldest(g, victim)
    ensures order != [] && order[0] == victim
  {
    assert victim in Elems(order);
    var i :| 0 <= i < |order| && order[i] == victim;
    assert Ranks(g)[order[0]] >= Ranks(g)[victim];
  }

  /** Evicting the first peer of the order. */
  lemma DropFirst<K>(g: Guard<K>, order: seq<K>)
    requires Recent(g, order) && order != []
    ensures Recent(g.(states := g.states - {order[0]}), order[1..])
  {
    TailAscends(order, Ranks(g));
    hide Ascends, Elems;
    assert Ranks(g.(states := g.states - {order[0]})) == Ranks(g) - {order[0]};
  }

  lemma RefreshRanks<K>(g: Guard<K>, peer: K, st: ReplayState, generation: u64)
    ensures Ranks(Guard(g.states[peer := st], generation)) == Ranks(g)[peer := st.generation]
  {
  }

  lemma MovedLastAscends<K>(order: seq<K>, rank: map<K, int>, peer: K, top: int)
    requires Ascends(order, rank) && rank.Keys == Elems(order) && forall x :: x in rank ==> rank[x] < top
    ensures Ascends(Without(order, peer) + [peer], rank[peer := top])
    ensures Elems(Without(order, peer) + [peer]) == Elems(order) + {peer}
  {
    var rest := Without(order, peer);
    WithoutContents(order, peer);
    WithoutAscends(order, peer, rank);
    hide Ascends, Without;
    forall x | x in rest
      ensures x != peer && x in rank && rank[x] < top
    {
      assert x in Elems(rest);
    }
    AppendAscends(rest, rank, peer, top);
  }

  /** Refreshing one peer with a newer generation puts it last. */
  lemma RefreshRecent<K>(g: Guard<K>, order: seq<K>, peer: K, st: ReplayState)
    requires Recent(g, order) && st.generation > g.generation
    ensures Recent(Guard(g.states[peer := st], st.generation), Without(order, peer) + [peer])
  {
    hide Ascends, Without, Elems;
    MovedLastAscends(order, Ranks(g), peer, st.generation);
    RefreshRanks(g, peer, st, st.generation);
  }

  lemma AcceptRecent<K>(g: Guard<K>, order: seq<K>, peer: K, sequence: u64, victim: K)
    requires Recent(g, order) && g.generation < U64_MAX && (Evicts(g, peer) ==> Oldest(g, victim))
    ensures var v := AcceptPacket(g, peer, sequence, victim);
            var room := if Evicts(g, peer) && order != [] then order[1..] else order;
            Recent(v.guard, if v.ok then Without(room, peer) + [peer] else order)
    ensures AcceptPacket(g, peer, sequence, victim).guard.generation <= g.generation + 1
  {
    hide Window;
    var v := AcceptPacket(g, peer, sequence, victim);
    if peer in g.states {
      if v.ok {
        RefreshRecent(g, order, peer, v.guard.states[peer]);
      }
    } else {
      if Evicts(g, peer) {
        OldestIsFirst(g, order, victim);
        DropFirst(g, order);
        RefreshRecent(g.(states := g.states - {victim}), order[1..], peer, v.guard.states[peer]);
      } else {
        RefreshRecent(g, order, peer, v.guard.states[peer]);
      }
    }
  }

  lemma {:induction false} RunRecent<K>(events: seq<Event<K>>)
    requires AllowedRun(events) && |events| <= U64_MAX
    ensures Recent(RunGuard(events), RunOrder(events)) && RunGuard(events).generation <= |events|
  {
    if events == [] {
      assert Recent(RunGuard(events), RunOrder(events));
    } else {
      hide Recent, AcceptKnown, AcceptNew, Without;
      var front, e := events[..|events| - 1], events[|events| - 1];
      RunRecent(front);
      AcceptRecent(RunGuard(front), RunOrder(front), e.peer, e.sequence, e.victim);
    }
  }

  /** Until the generation counter wraps, the peer evicted is the one whose last accepted packet is longest ago. */
  lemma EvictsLeastRecent<K>(events: seq<Event<K>>, victim: K)
    requires AllowedRun(events) && |events| <= U64_MAX && Oldest(RunGuard(events), victim)
    ensures RunOrder(events) != [] && victim == RunOrder(events)[0]
  {
    RunRecent(events);
    OldestIsFirst(RunGuard(events), RunOrder(events), victim);
  }

  // ---- the guard object ----

  class ReplayGuard<K(==)> {
    var states: map<K, ReplayState>
    var generation: u64

    ghost function View(): Guard<K>
      reads this
    {
      Guard(states, generation)
    }

    constructor ()
      ensures View() == Guard(map[], 0)
    {
      states, generation := map[], 0;
    }

    method Accept(peer: K, sequence: u64) returns (ok: bool, ghost victim: K)
      modifies this
      ensures Evicts(old(View()), peer) ==> Oldest(old(View()), victim)
      ensures Verdict(View(), ok) == AcceptPacket(old(View()), peer, sequence, victim)
    {
      victim := peer;
      if peer in states {
        if sequence > states[peer].highest {
          var shift := sequence - states[peer].highest;
          generation := WrapInc64(generation);
          var bitmap := if shift >= REPLAY_WINDOW then 1 else Or(Shl(states[peer].bitmap, shift), 1);
          states := states[peer := ReplayState(sequence, bitmap, generation)];
          return true, victim;
        }
        var delta := states[peer].highest - sequence;
        if delta >= REPLAY_WINDOW {
          return false, victim;
        }
        generation := WrapInc64(generation);
        if Has(states[peer].bitmap, delta) {
          return false, victim;
        }
        var st := states[peer];
        states := states[peer := st.(bitmap := Or(st.bitmap, Unit(delta)), generation := generation)];
        return true, victim;
      }
      if |states| >= MAX_PEERS {
        var oldest := FindOldest();
        victim := oldest;
        states := states - {oldest};
      }
      generation := WrapInc64(generation);
      states := states[peer := ReplayState(sequence, 1, generation)];
      ok := true;
    }

    method FindOldest() returns (oldest: K)
      requires states != map[]
      ensures Oldest(View(), oldest)
    {
      assert exists p :: p in states by {
        assert states.Keys != {};
      }
      oldest :| oldest in states;
      var left := states.Keys - {oldest};
      while left != {}
        invariant oldest in states && left <= states.Keys
        invariant forall p :: p in states && p !in left ==> states[oldest].generation <= states[p].generation
      {
        var p :| p in left;
        if states[p].generation < states[oldest].generation {
          oldest := p;
        }
        left := left - {p};
      }
    }
  }
}
