/** Single flight, eviction order, permits and provider budget of the query cache
    (src/query_embeddings.rs), over every interleaving of its steps. */
module QueryCacheFlight {
  import opened Prelude
  import opened RateWindow
  import opened QueryCacheModel
  import opened QueryCacheSafety

  // ---- Single flight ---------------------------------------------------------------

  /** A live operation of the current generation owns the map entry of its key. */
  ghost predicate Owned(s: State) {
    forall c: nat :: IsLive(s, c) && s.channels[c].generation == s.generation ==>
                       s.channels[c].key in s.items && s.items[s.channels[c].key].channel == c
  }

  /** At most one operation per key and generation is alive. */
  ghost predicate Unique(s: State) {
    forall c: nat, d: nat ::
      (IsLive(s, c) && IsLive(s, d) && s.channels[c].key == s.channels[d].key
       && s.channels[c].generation == s.channels[d].generation) ==> c == d
  }

  ghost predicate SingleFlight(s: State) {
    Owned(s) && Unique(s)
  }

  /** No operation that is still alive was begun under this generation number. */
  ghost predicate Unused(s: State, generation: nat) {
    forall c: nat :: IsLive(s, c) ==> s.channels[c].generation != generation
  }

  /** What a step has to meet before it renumbers the cache. */
  ghost predicate Renumbers(s: State, a: Action) {
    match a
    case DoInvalidate => Unused(s, WrappingAdd1(s.generation))
    case DoSynchronize(g) => g > s.generation ==> Unused(s, g)
    case _ => true
  }

  lemma MoveFlight(s: State, c: nat, phase: Phase, t: State)
    requires SingleFlight(s) && IsLive(s, c)
    requires t.channels == To(s.channels, c, phase) && t.generation == s.generation
    requires || t.items == s.items
             || (!Channel(s.channels[c].key, 0, 0, phase).Live() && t.items == s.items - {s.channels[c].key})
    requires s.channels[c].generation == s.generation || t.items == s.items
    ensures SingleFlight(t)
  {
    forall d: nat | IsLive(t, d)
      ensures IsLive(s, d) && t.channels[d].key == s.channels[d].key && t.channels[d].generation == s.channels[d].generation
    {
    }
    forall d: nat | IsLive(t, d) && t.channels[d].generation == t.generation
      ensures t.channels[d].key in t.items && t.items[t.channels[d].key].channel == d
    {
      assert IsLive(s, d);
    }
  }

  lemma RetainedFlight(s: State, now: int)
    requires Core(s) && SingleFlight(s)
    ensures Indexed(s.items, s.channels)
    ensures SingleFlight(s.(items := Retained(s.items, s.channels, now)))
  {
    var t := s.(items := Retained(s.items, s.channels, now));
    forall c: nat | IsLive(t, c)
      ensures IsLive(s, c)
    {
    }
  }

  lemma HitFlight(s: State, key: Identity, now: int)
    requires Core(s) && SingleFlight(s) && LookupEnabled(s, key, now, Hit)
    ensures SingleFlight(Lookup(s, key, now, Hit))
  {
    RetainedFlight(s, now);
    var u, t := s.(items := Retained(s.items, s.channels, now)), Lookup(s, key, now, Hit);
    assert forall c: nat :: IsLive(t, c) <==> IsLive(u, c);
  }

  lemma RefusedFlight(s: State, key: Identity, now: int)
    requires Core(s) && SingleFlight(s) && LookupEnabled(s, key, now, Refused)
    ensures SingleFlight(Lookup(s, key, now, Refused))
  {
    RetainedFlight(s, now);
    var u, t := s.(items := Retained(s.items, s.channels, now)), Lookup(s, key, now, Refused);
    assert forall c: nat :: IsLive(t, c) <==> IsLive(u, c);
  }

  /** A channel opened for a key that is not in the map joins the living ones, and an
      entry that is not a living operation's may go to make room for it. */
  lemma OpenFlight(u: State, t: State, key: Identity, room: Items, stamp: nat)
    requires SingleFlight(u) && key !in u.items && t.generation == u.generation
    requires forall k :: k in room ==> k in u.items && room[k] == u.items[k]
    requires forall k :: k in u.items && IsLive(u, u.items[k].channel) ==> k in room
    requires t.channels == u.channels + [Channel(key, u.generation, u.epoch, Queued)]
    requires t.items == room[key := Entry(|u.channels|, stamp)]
    ensures SingleFlight(t)
  {
    var newest := |u.channels|;
    forall c: nat | IsLive(t, c)
      ensures c == newest || (IsLive(u, c) && t.channels[c] == u.channels[c])
    {
    }
    forall c: nat | IsLive(u, c) && u.channels[c].generation == u.generation
      ensures u.channels[c].key != key && t.items[u.channels[c].key].channel == c
    {
      assert u.items[u.channels[c].key].channel == c;
    }
  }

  lemma MissFlight(s: State, key: Identity, now: int, evicted: Option<Identity>)
    requires Core(s) && SingleFlight(s) && LookupEnabled(s, key, now, Miss(evicted))
    ensures SingleFlight(Lookup(s, key, now, Miss(evicted)))
  {
    RetainedFlight(s, now);
    var kept := Retained(s.items, s.channels, now);
    var room := if evicted.Some? then kept - {evicted.value} else kept;
    var u := s.(items := kept);
    if evicted.Some? {
      assert Completed(kept, s.channels, evicted.value);
      assert !IsLive(u, kept[evicted.value].channel);
    }
    OpenFlight(u, Lookup(s, key, now, Miss(evicted)), key, room, WrappingAdd1(s.clock));
  }

  lemma WakeFlight(s: State, i: nat)
    requires Core(s) && SingleFlight(s) && Wakes(s, i)
    ensures SingleFlight(Wake(s, i))
  {
    var t := Wake(s, i);
    assert forall c: nat :: IsLive(t, c) <==> IsLive(s, c);
  }

  lemma RenumberFlight(s: State, generation: nat)
    requires Core(s) && SingleFlight(s)
    ensures SingleFlight(Renumber(s, generation)) <==> Unused(s, generation)
  {
    var t := Renumber(s, generation);
    assert forall c: nat :: IsLive(t, c) <==> IsLive(s, c);
  }

  /** A step keeps single flight if and only if, when it renumbers the cache, no living
      operation already carries the new number. */
  lemma StepFlight(s: State, a: Action, t: State)
    requires Core(s) && SingleFlight(s) && Step(s, a, t)
    ensures SingleFlight(t) <==> Renumbers(s, a)
  {
    match a
    case DoLookup(key, now, Hit) => HitFlight(s, key, now);
    case DoLookup(key, now, Refused) => RefusedFlight(s, key, now);
    case DoLookup(key, now, Miss(evicted)) => MissFlight(s, key, now, evicted);
    case DoComplete(c) => MoveFlight(s, c, t.channels[c].phase, t);
    case DoWake(i) => WakeFlight(s, i);
    case DoInvalidate => RenumberFlight(s, WrappingAdd1(s.generation));
    case DoSynchronize(g) => if g > s.generation { RenumberFlight(s, g); }
    case _ =>
      OperationMoves(s, a, t);
      MoveFlight(s, a.c, t.channels[a.c].phase, t);
  }

  // ---- Runs in which the generation never wraps ---------------------------------------

  ghost predicate Behind(s: State) {
    forall c: nat :: c < |s.channels| ==> s.channels[c].generation <= s.generation
  }

  ghost predicate NeverWraps(states: seq<State>, actions: seq<Action>) {
    forall i :: 0 <= i < |actions| && i < |states| && actions[i].DoInvalidate? ==>
      states[i].generation + 1 < 0x1_0000_0000_0000_0000
  }

  lemma StepBehind(s: State, a: Action, t: State)
    requires Core(s) && Behind(s) && Step(s, a, t) && (a.DoInvalidate? ==> s.generation + 1 < U64)
    ensures Behind(t) && Renumbers(s, a)
  {
    match a
    case DoLookup(_, _, _) =>
    case DoComplete(_) =>
    case DoWake(_) =>
    case DoInvalidate => BehindUnused(s, s.generation + 1);
    case DoSynchronize(g) => if g > s.generation { BehindUnused(s, g); }
    case _ => OperationMoves(s, a, t);
  }

  lemma BehindUnused(s: State, generation: nat)
    requires Behind(s) && s.generation < generation
    ensures Unused(s, generation)
  {
  }

  lemma FlightOn(s: State, a: Action, t: State)
    requires Core(s) && SingleFlight(s) && Behind(s) && Step(s, a, t)
    requires a.DoInvalidate? ==> s.generation + 1 < U64
    ensures SingleFlight(t) && Behind(t)
  {
    StepBehind(s, a, t);
    StepFlight(s, a, t);
  }

  lemma RunStep(states: seq<State>, actions: seq<Action>, i: nat)
    requires Run(states, actions) && NeverWraps(states, actions) && i < |actions|
    ensures Step(states[i], actions[i], states[i + 1])
    ensures actions[i].DoInvalidate? ==> states[i].generation + 1 < U64
  {
  }

  /** In every run that does not wrap the generation, every state is single flight. */
  lemma {:induction false} RunFlight(states: seq<State>, actions: seq<Action>, i: nat)
    requires Run(states, actions) && NeverWraps(states, actions) && i < |states|
    ensures SingleFlight(states[i]) && Behind(states[i])
  {
    if i > 0 {
      RunFlight(states, actions, i - 1);
      RunCore(states, actions, i - 1);
      RunStep(states, actions, i - 1);
      FlightOn(states[i - 1], actions[i - 1], states[i]);
    }
  }

  /** The cache after `n` invalidations, one wrap at most. */
  ghost function Aged(s: State, n: nat): State
    requires n <= U64
  {
    if n == 0 then s
    else s.(generation := if n < U64 then n else 0, items := map[], epoch := s.epoch + n)
  }

  lemma AgedStep(s: State, n: nat)
    requires s.generation == 0 && n < U64
    ensures Step(Aged(s, n), DoInvalidate, Aged(s, n + 1))
  {
  }

  /** The wrap is real: from a lookup and 2^64 invalidations, a second lookup of the key
      starts a second operation for it while the first, of the same generation number, is
      still alive. */
  lemma WrapBreaksSingleFlight(key: Identity, ttl: nat) returns (states: seq<State>, actions: seq<Action>)
    ensures Run(states, actions) && |states| == 0x1_0000_0000_0000_0003 && !SingleFlight(states[U64 + 2])
    ensures forall i :: 0 <= i < |actions| ==> actions[i] == DoInvalidate || actions[i] == DoLookup(key, 0, Miss(None))
    ensures IsLive(states[U64 + 2], 0) && IsLive(states[U64 + 2], 1)
    ensures var last := states[U64 + 2];
            && last.channels[0].key == last.channels[1].key == key
            && last.channels[0].generation == last.channels[1].generation == last.generation
  {
    var s0 := Initial(1, ttl);
    var look := DoLookup(key, 0, Miss(None));
    assert Retained(s0.items, s0.channels, 0) == map[];
    var s1 := Lookup(s0, key, 0, Miss(None));
    var s2 := Aged(s1, U64);
    assert Retained(s2.items, s2.channels, 0) == map[];
    var s3 := Lookup(s2, key, 0, Miss(None));
    states, actions := AgedRun(s0, s1, s3, look);
    assert IsLive(s3, 0) && IsLive(s3, 1);
  }

  /** A step, 2^64 invalidations and another step, put together as a run. */
  lemma AgedRun(s0: State, s1: State, last: State, a: Action) returns (states: seq<State>, actions: seq<Action>)
    requires Empty(s0) && s1.generation == 0 && Step(s0, a, s1) && Step(Aged(s1, U64), a, last)
    ensures Run(states, actions) && |states| == U64 + 3 && states[U64 + 2] == last
    ensures forall i :: 0 <= i < |actions| ==> actions[i] == DoInvalidate || actions[i] == a
  {
    states := seq(U64 + 3, i requires 0 <= i < U64 + 3 => AgedState(s0, s1, last, i));
    actions := seq(U64 + 2, i requires 0 <= i < U64 + 2 => if i == 0 || i == U64 + 1 then a else DoInvalidate);
    forall i | 0 <= i < U64 + 2 ensures Step(states[i], actions[i], states[i + 1]) {
      AgedStates(s0, s1, last, i);
      if 0 < i <= U64 {
        AgedStep(s1, i - 1);
      }
    }
  }

  ghost function AgedState(s0: State, s1: State, last: State, i: nat): State {
    if i == 0 then s0 else if i <= U64 + 1 then Aged(s1, i - 1) else last
  }

  lemma AgedStates(s0: State, s1: State, last: State, i: nat)
    requires i < U64 + 2
    ensures AgedState(s0, s1, last, i) == if i == 0 then s0 else Aged(s1, i - 1)
    ensures AgedState(s0, s1, last, i + 1) == if i == 0 then s1 else if i == U64 + 1 then last else Aged(s1, i)
  {
  }

  // ---- What a lookup decides -----------------------------------------------------------

  /** A hit is on a living operation, or on a Ready answer for this key that has not
      expired; a dead operation is never joined. */
  lemma HitIsFresh(s: State, key: Identity, now: int)
    requires Core(s) && LookupEnabled(s, key, now, Hit)
    ensures var t := Lookup(s, key, now, Hit);
            var c := t.calls[|s.calls|].channel.value;
            && c < |t.channels| && t.channels[c].key == key
            && t.channels[c].generation == t.generation && t.channels[c].epoch == t.epoch
            && (t.channels[c].Live() ||
                (t.channels[c].phase.Sent? && t.channels[c].phase.expiry > now && t.channels[c].phase.answer.Ready?))
  {
    RetainedOk(s, now);
  }

  /** An answer that came at `now` is served to exactly the lookups less than one time to
      live later, however large the configured one is. */
  lemma ServedForTtl(s: State, c: nat, now: int, vector: seq<real>, later: int)
    requires At(s, c, Calling) && 0 <= now && later < 0x7fff_ffff_ffff_ffff
    ensures var done := Complete(Reply(s, c, now, Some(vector)), c);
            && done.channels[c].phase.Sent? && done.channels[c].phase.answer == Ready(vector)
            && (Keeps(done.channels[c], later) <==> later < now + s.ttl)
  {
  }

  /** A lookup is refused if and only if its key is not there and every slot of the cache
      is taken by an operation in flight. */
  lemma RefusedIffAllInFlight(s: State, key: Identity, now: int)
    requires Core(s)
    ensures Indexed(s.items, s.channels)
    ensures LookupEnabled(s, key, now, Refused) <==>
            var kept := Retained(s.items, s.channels, now);
            key !in kept && |kept| == s.capacity && forall k :: k in kept ==> s.channels[kept[k].channel].Live()
  {
    RetainedOk(s, now);
    var kept := Retained(s.items, s.channels, now);
    forall k | k in kept
      ensures s.channels[kept[k].channel].Live() <==> !Completed(kept, s.channels, k)
    {
    }
  }

  /** The index of the last lookup of a key, or -1. */
  ghost function LastCall(calls: seq<Call>, key: Identity): (i: int)
    ensures -1 <= i < |calls| && (i >= 0 ==> calls[i].key == key)
  {
    if calls == [] then -1
    else if calls[|calls| - 1].key == key then |calls| - 1
    else LastCall(calls[..|calls| - 1], key)
  }

  /** Until the lookup clock wraps, the stamp of an entry is the number of the last
      lookup of its key. */
  ghost predicate Stamped(s: State) {
    |s.calls| < 0x1_0000_0000_0000_0000 ==>
      && s.clock == |s.calls|
      && forall k :: k in s.items ==> LastCall(s.calls, k) >= 0 && s.items[k].touched == LastCall(s.calls, k) + 1
  }

  lemma LastCallSnoc(calls: seq<Call>, call: Call, key: Identity)
    ensures LastCall(calls + [call], key) == if call.key == key then |calls| else LastCall(calls, key)
  {
    assert (calls + [call])[..|calls|] == calls;
  }

  lemma LookupStamped(s: State, key: Identity, now: int, o: Outcome)
    requires Stamped(s) && LookupEnabled(s, key, now, o)
    ensures Stamped(Lookup(s, key, now, o))
  {
    var t := Lookup(s, key, now, o);
    var call := t.calls[|s.calls|];
    assert t.calls == s.calls + [call] && call.key == key;
    if |t.calls| < U64 {
      forall k | k in t.items
        ensures LastCall(t.calls, k) >= 0 && t.items[k].touched == LastCall(t.calls, k) + 1
      {
        LastCallSnoc(s.calls, call, k);
      }
    }
  }

  lemma {:induction false} LastCallSame(calls: seq<Call>, others: seq<Call>, key: Identity)
    requires |calls| == |others| && forall i :: 0 <= i < |calls| ==> calls[i].key == others[i].key
    ensures LastCall(calls, key) == LastCall(others, key)
  {
    if calls != [] && calls[|calls| - 1].key != key {
      LastCallSame(calls[..|calls| - 1], others[..|calls| - 1], key);
    }
  }

  lemma WakeStamped(s: State, i: nat)
    requires Stamped(s) && Wakes(s, i)
    ensures Stamped(Wake(s, i))
  {
    var t := Wake(s, i);
    forall k | k in t.items
      ensures LastCall(t.calls, k) == LastCall(s.calls, k)
    {
      LastCallSame(s.calls, t.calls, k);
    }
  }

  lemma StepStamped(s: State, a: Action, t: State)
    requires Core(s) && Stamped(s) && Step(s, a, t)
    ensures Stamped(t)
  {
    match a
    case DoLookup(key, now, o) => LookupStamped(s, key, now, o);
    case DoWake(i) => WakeStamped(s, i);
    case DoComplete(c) =>
    case DoInvalidate =>
    case DoSynchronize(_) =>
    case _ => OperationMoves(s, a, t);
  }

  lemma {:induction false} RunStamped(states: seq<State>, actions: seq<Action>, i: nat)
    requires Run(states, actions) && i < |states|
    ensures Stamped(states[i])
  {
    if i > 0 {
      RunStamped(states, actions, i - 1);
      RunCore(states, actions, i - 1);
      assert Step(states[i - 1], actions[i - 1], states[i]);
      StepStamped(states[i - 1], actions[i - 1], states[i]);
    }
  }

  /** Eviction takes exactly the completed entry whose key was looked up longest ago,
      in any run of fewer than 2^64 lookups. */
  lemma EvictsLeastRecent(s: State, key: Identity, now: int, victim: Identity, other: Identity)
    requires Stamped(s) && |s.calls| < U64
    requires LookupEnabled(s, key, now, Miss(Some(victim)))
    requires Completed(Retained(s.items, s.channels, now), s.channels, other) && other != victim
    ensures LastCall(s.calls, victim) < LastCall(s.calls, other)
  {
    assert victim in s.items && other in s.items && s.items[victim].touched <= s.items[other].touched;
    DistinctLastCalls(s.calls, victim, other);
  }

  lemma DistinctLastCalls(calls: seq<Call>, key: Identity, other: Identity)
    requires key != other && LastCall(calls, key) >= 0
    ensures LastCall(calls, key) != LastCall(calls, other)
  {
    assert calls[LastCall(calls, key)].key == key;
  }

  // ---- Permits ------------------------------------------------------------------------

  ghost function KeysOf(channels: seq<Channel>, ids: set<nat>): set<Identity>
    requires forall d :: d in ids ==> d < |channels|
  {
    set d | d in ids :: channels[d].key
  }

  lemma {:induction false} DistinctKeys(channels: seq<Channel>, ids: set<nat>)
    requires forall d :: d in ids ==> d < |channels|
    requires forall d, e :: d in ids && e in ids && channels[d].key == channels[e].key ==> d == e
    ensures |KeysOf(channels, ids)| == |ids|
  {
    if d :| d in ids {
      DistinctKeys(channels, ids - {d});
      assert KeysOf(channels, ids) == KeysOf(channels, ids - {d}) + {channels[d].key};
    }
  }

  /** The permit bound only ever throttles across an invalidation: while every permit is
      held by an operation of the current generation, one is free for each queued
      operation of that generation. */
  lemma PermitFree(s: State, c: nat)
    requires Core(s) && SingleFlight(s) && At(s, c, Queued) && s.channels[c].generation == s.generation
    requires forall d :: d in Holders(s.channels) ==> s.channels[d].generation == s.generation
    ensures s.available > 0
  {
    var ids := Holders(s.channels) + {c};
    forall d | d in ids ensures IsLive(s, d) && s.channels[d].generation == s.generation {
      HolderLives(s.channels, d, c);
    }
    DistinctKeys(s.channels, ids);
    Shrink(KeysOf(s.channels, ids), s.items.Keys);
  }

  lemma HolderLives(channels: seq<Channel>, d: nat, c: nat)
    requires c < |channels| && channels[c].phase.Queued? && d in Holders(channels) + {c}
    ensures d < |channels| && channels[d].Live()
  {
  }

  /** Provider calls in flight, over all generations together, never exceed the capacity. */
  lemma CallingBound(s: State)
    requires Core(s)
    ensures |set c: nat | c < |s.channels| && s.channels[c].phase.Calling?| <= s.capacity
  {
    var calling := set c: nat | c < |s.channels| && s.channels[c].phase.Calling?;
    assert calling <= Holders(s.channels);
    Shrink(calling, Holders(s.channels));
  }

  // ---- The provider budget ------------------------------------------------------------

  /** When the provider calls of one token began. */
  ghost function OutboundTimes(outbound: seq<Outbound>, token: string): seq<int> {
    if outbound == [] then []
    else
      var last := outbound[|outbound| - 1];
      OutboundTimes(outbound[..|outbound| - 1], token) + (if last.token == token then [last.at] else [])
  }

  /** A provider call is charged once, to the token of the channel it is made for, by an
      operation that was queued for it. */
  ghost predicate ChargedOnce(outbound: seq<Outbound>, channels: seq<Channel>) {
    && (forall i :: 0 <= i < |outbound| ==>
          && outbound[i].channel < |channels|
          && channels[outbound[i].channel].key.token == outbound[i].token
          && !channels[outbound[i].channel].phase.Queued? && !channels[outbound[i].channel].phase.Permitted?)
    && (forall i, j :: 0 <= i < j < |outbound| ==> outbound[i].channel != outbound[j].channel)
  }

  /** The window of each token is fed by exactly its provider calls. */
  ghost predicate Ledger(s: State) {
    && ChargedOnce(s.outbound, s.channels)
    && (forall i :: 0 <= i < |s.debits| ==> s.debits[i].limit == QUERY_EMBEDDINGS_PER_MINUTE)
    && s.rate == WindowsAfter(s.debits)
    && forall token :: OutboundTimes(s.outbound, token) == Accepted(s.debits, token)
  }

  ghost function Sending(debits: seq<Request>, r: Request, outbound: seq<Outbound>, c: nat): seq<Outbound> {
    if Debited(WindowsAfter(debits), r.key, r.limit, r.now).1.Charged?
    then outbound + [Outbound(c, r.key, r.now)] else outbound
  }

  lemma RecordedTimes(debits: seq<Request>, r: Request, outbound: seq<Outbound>, c: nat, token: string)
    requires OutboundTimes(outbound, token) == Accepted(debits, token)
    ensures OutboundTimes(Sending(debits, r, outbound, c), token) == Accepted(debits + [r], token)
  {
    AcceptedSnoc(debits, r, token);
    assert (outbound + [Outbound(c, r.key, r.now)])[..|outbound|] == outbound;
  }

  lemma ChargeOnce(s: State, c: nat, now: int)
    requires ChargedOnce(s.outbound, s.channels) && At(s, c, Permitted)
    ensures ChargedOnce(Charge(s, c, now).outbound, Charge(s, c, now).channels)
  {
  }

  lemma ChargeLedger(s: State, c: nat, now: int)
    requires Ledger(s) && At(s, c, Permitted)
    ensures Ledger(Charge(s, c, now))
  {
    var t := Charge(s, c, now);
    var r := Request(s.channels[c].key.token, QUERY_EMBEDDINGS_PER_MINUTE, now);
    assert t.debits == s.debits + [r];
    ChargeOnce(s, c, now);
    WindowsSnoc(s.debits, r);
    forall token
      ensures OutboundTimes(t.outbound, token) == Accepted(t.debits, token)
    {
      RecordedTimes(s.debits, r, s.outbound, c, token);
    }
  }

  lemma SameLedger(s: State, t: State)
    requires Ledger(s) && ChargedOnce(s.outbound, t.channels)
    requires t.debits == s.debits && t.outbound == s.outbound && t.rate == s.rate
    ensures Ledger(t)
  {
  }

  /** No step but a charge touches the budget: hits, waiters, failures and invalidations
      spend nothing. */
  lemma OnlyChargesSpend(s: State, a: Action, t: State)
    requires Core(s) && Ledger(s) && Step(s, a, t) && !a.DoCharge?
    ensures t.debits == s.debits && t.outbound == s.outbound && t.rate == s.rate
    ensures ChargedOnce(s.outbound, t.channels)
  {
    SpendsNothing(s, a, t);
    PastCharging(s, a, t);
    ChargedKeeps(s.outbound, s.channels, t.channels);
  }

  ghost predicate Past(c: Channel) {
    !c.phase.Queued? && !c.phase.Permitted?
  }

  /** A channel past the charge stays past it, and stays its key's. */
  ghost predicate StaysPast(before: seq<Channel>, after: seq<Channel>) {
    && |before| <= |after|
    && forall c :: 0 <= c < |before| ==> after[c].key == before[c].key && (Past(before[c]) ==> Past(after[c]))
  }

  lemma SpendsNothing(s: State, a: Action, t: State)
    requires Step(s, a, t) && !a.DoCharge?
    ensures t.debits == s.debits && t.outbound == s.outbound && t.rate == s.rate
  {
  }

  lemma PastCharging(s: State, a: Action, t: State)
    requires Core(s) && Step(s, a, t) && !a.DoCharge?
    ensures StaysPast(s.channels, t.channels)
  {
    if a.DoTryPermit? || a.DoReply? || a.DoDie? || a.DoComplete? {
      MovesOn(s, a, t);
      MovedStaysPast(s.channels, a.c, t.channels[a.c].phase);
    }
  }

  lemma MovesOn(s: State, a: Action, t: State)
    requires Step(s, a, t) && (a.DoTryPermit? || a.DoReply? || a.DoDie? || a.DoComplete?)
    ensures a.c < |s.channels| == |t.channels| && t.channels == To(s.channels, a.c, t.channels[a.c].phase)
    ensures s.channels[a.c].phase.Queued? || Past(t.channels[a.c])
  {
  }

  lemma MovedStaysPast(channels: seq<Channel>, c: nat, phase: Phase)
    requires c < |channels| && (channels[c].phase.Queued? || (!phase.Queued? && !phase.Permitted?))
    ensures StaysPast(channels, To(channels, c, phase))
  {
  }

  lemma ChargedKeeps(outbound: seq<Outbound>, before: seq<Channel>, after: seq<Channel>)
    requires ChargedOnce(outbound, before) && StaysPast(before, after)
    ensures ChargedOnce(outbound, after)
  {
    forall i | 0 <= i < |outbound|
      ensures var c := outbound[i].channel; c < |after| && after[c].key.token == outbound[i].token && Past(after[c])
    {
      assert Past(before[outbound[i].channel]);
    }
  }

  lemma StepLedger(s: State, a: Action, t: State)
    requires Core(s) && Ledger(s) && Step(s, a, t)
    ensures Ledger(t)
  {
    match a
    case DoCharge(c, now) => ChargeLedger(s, c, now);
    case _ =>
      OnlyChargesSpend(s, a, t);
      SameLedger(s, t);
  }

  lemma EmptyLedger(s: State)
    requires Empty(s)
    ensures Ledger(s)
  {
  }

  lemma {:induction false} RunLedger(states: seq<State>, actions: seq<Action>, i: nat)
    requires Run(states, actions) && i < |states|
    ensures Ledger(states[i])
  {
    if i == 0 {
      EmptyLedger(states[0]);
    } else {
      RunLedger(states, actions, i - 1);
      RunCore(states, actions, i - 1);
      assert Step(states[i - 1], actions[i - 1], states[i]);
      StepLedger(states[i - 1], actions[i - 1], states[i]);
    }
  }

  /** In every run, whatever the lookups, failures and invalidations do, no minute less the
      lag of the clock holds more than 60 provider calls of one token. */
  lemma ProviderBudget(states: seq<State>, actions: seq<Action>, i: nat, token: string, skew: nat, from: int)
    requires Run(states, actions) && i < |states| && Lags(states[i].debits, skew)
    ensures CountIn(OutboundTimes(states[i].outbound, token), from, 60_000 - skew) <= 60
    ensures ChargedOnce(states[i].outbound, states[i].channels)
  {
    RunLedger(states, actions, i);
    NoWindowOverLimit(states[i].debits, token, QUERY_EMBEDDINGS_PER_MINUTE, skew, from);
  }

  // ---- Provenance, over whole runs -------------------------------------------------------

  /** No operation begun before an invalidation answers a lookup begun after it, and no
      failure stays cached: in every state of every run, an answered call carries the
      answer of a channel opened for its own key with no invalidation in between, and
      every completed entry is a Ready answer of the current generation and epoch. */
  lemma RunProvenance(states: seq<State>, actions: seq<Action>, i: nat)
    requires Run(states, actions) && i < |states|
    ensures CallsOk(states[i].calls, states[i].channels)
    ensures ItemsOk(states[i].items, states[i].channels, states[i].generation, states[i].epoch)
    ensures |states[i].items| <= states[i].capacity
  {
    RunCore(states, actions, i);
  }

  /** A waiter that finds its operation gone frees the slot at once: nothing in the map
      points at a dead channel that somebody has noticed. */
  lemma WakeFreesDeadSlot(s: State, i: nat, k: Identity)
    requires Core(s) && Wakes(s, i) && s.channels[s.calls[i].channel.value].phase.Dead?
    requires k in Wake(s, i).items
    ensures Wake(s, i).items[k].channel != s.calls[i].channel.value
  {
    assert CallOk(s.calls[i], s.channels);
  }

  /** What a channel once sent it says for good, so waiters that share a channel agree. */
  lemma SentIsFinal(s: State, a: Action, t: State, c: nat)
    requires Core(s) && Step(s, a, t) && c < |s.channels| && s.channels[c].phase.Sent?
    ensures c < |t.channels| && t.channels[c] == s.channels[c]
  {
    match a
    case DoLookup(_, _, _) =>
    case DoComplete(_) =>
    case DoWake(_) =>
    case DoInvalidate =>
    case DoSynchronize(_) =>
    case _ => OperationMoves(s, a, t);
  }
}
