/** What every interleaving of the query cache keeps (src/query_embeddings.rs). */
module QueryCacheSafety {
  import opened Prelude
  import opened RateWindow
  import opened QueryCacheModel

  // ---- Invariants, one per group of fields -------------------------------------------

  /** Provenance of the map: an entry's channel was opened for its key, by a lookup of
      this generation and since the last invalidation; a completed one is Ready. */
  ghost predicate ItemsOk(items: Items, channels: seq<Channel>, generation: nat, epoch: nat) {
    forall k :: k in items ==>
      && items[k].channel < |channels|
      && var ch := channels[items[k].channel];
         ch.key == k && ch.generation == generation && ch.epoch == epoch && (ch.phase.Sent? ==> ch.phase.answer.Ready?)
  }

  ghost predicate CallOk(call: Call, channels: seq<Channel>) {
    match call.channel
    case None => call.answer == Some(Throttled)
    case Some(c) =>
      && c < |channels|
      && channels[c].key == call.key
      && channels[c].generation == call.generation
      && channels[c].epoch == call.epoch
      && (call.answer.Some? ==>
            match channels[c].phase
            case Sent(_, answer) => call.answer.value == answer
            case Dead => call.answer.value == Unavailable
            case _ => false)
  }

  /** Provenance of the answers: a call is answered by its own channel, which was opened
      for its key, in its generation, with no invalidation in between. */
  ghost predicate CallsOk(calls: seq<Call>, channels: seq<Channel>) {
    forall i :: 0 <= i < |calls| ==> CallOk(calls[i], channels)
  }

  ghost predicate EpochsOk(channels: seq<Channel>, epoch: nat) {
    forall c :: 0 <= c < |channels| ==> channels[c].epoch <= epoch
  }

  ghost function Holders(channels: seq<Channel>): set<nat> {
    set c: nat | c < |channels| && channels[c].Holding()
  }

  ghost predicate Core(s: State) {
    && 0 < s.capacity
    && s.generation < U64
    && ItemsOk(s.items, s.channels, s.generation, s.epoch)
    && |s.items| <= s.capacity
    && CallsOk(s.calls, s.channels)
    && EpochsOk(s.channels, s.epoch)
    && s.available + |Holders(s.channels)| == s.capacity
  }

  lemma EmptyCore(s: State)
    requires Empty(s)
    ensures Core(s)
  {
    assert Holders([]) == {};
  }

  // ---- Steps of an operation -----------------------------------------------------------

  lemma HoldersTo(channels: seq<Channel>, c: nat, phase: Phase)
    requires c < |channels|
    ensures Holders(To(channels, c, phase)) ==
            if phase.Permitted? || phase.Calling? then Holders(channels) + {c} else Holders(channels) - {c}
    ensures channels[c].Holding() <==> c in Holders(channels)
  {
  }

  /** Moving a live channel to a phase that answers nobody keeps both provenances. */
  lemma MoveChannel(s: State, c: nat, phase: Phase)
    requires Core(s) && IsLive(s, c) && !phase.Sent?
    ensures ItemsOk(s.items, To(s.channels, c, phase), s.generation, s.epoch)
    ensures CallsOk(s.calls, To(s.channels, c, phase))
    ensures EpochsOk(To(s.channels, c, phase), s.epoch)
  {
    var channels := To(s.channels, c, phase);
    forall i | 0 <= i < |s.calls|
      ensures CallOk(s.calls[i], channels)
    {
      assert CallOk(s.calls[i], s.channels);
    }
  }

  /** The four steps that move one live channel on and adjust the permits with it. */
  lemma OperationMoves(s: State, a: Action, t: State)
    requires Core(s) && Step(s, a, t)
    requires a.DoTryPermit? || a.DoCharge? || a.DoReply? || a.DoDie?
    ensures IsLive(s, a.c) && a.c < |t.channels| && !t.channels[a.c].phase.Sent?
    ensures t.channels == To(s.channels, a.c, t.channels[a.c].phase)
    ensures t.items == s.items && t.calls == s.calls && t.generation == s.generation && t.epoch == s.epoch
    ensures t.capacity == s.capacity
    ensures t.available - s.available ==
            (if s.channels[a.c].Holding() then 1 else 0) - (if t.channels[a.c].Holding() then 1 else 0)
  {
  }

  lemma OperationCore(s: State, a: Action, t: State)
    requires Core(s) && Step(s, a, t)
    requires a.DoTryPermit? || a.DoCharge? || a.DoReply? || a.DoDie?
    ensures Core(t)
  {
    OperationMoves(s, a, t);
    MoveChannel(s, a.c, t.channels[a.c].phase);
    HoldersTo(s.channels, a.c, t.channels[a.c].phase);
  }

  lemma CompleteCore(s: State, c: nat)
    requires Core(s) && IsSettled(s, c)
    ensures Core(Complete(s, c))
  {
    var t := Complete(s, c);
    HoldersTo(s.channels, c, t.channels[c].phase);
    CompleteCalls(s, c);
    assert t.items.Keys <= s.items.Keys;
    Shrink(t.items.Keys, s.items.Keys);
    CompleteItems(s, c);
  }

  lemma CompleteItems(s: State, c: nat)
    requires ItemsOk(s.items, s.channels, s.generation, s.epoch) && IsSettled(s, c)
    ensures var t := Complete(s, c); ItemsOk(t.items, t.channels, t.generation, t.epoch)
  {
  }

  lemma CompleteCalls(s: State, c: nat)
    requires CallsOk(s.calls, s.channels) && IsSettled(s, c)
    ensures CallsOk(s.calls, Complete(s, c).channels)
  {
    forall i | 0 <= i < |s.calls|
      ensures CallOk(s.calls[i], Complete(s, c).channels)
    {
      assert CallOk(s.calls[i], s.channels);
    }
  }

  lemma Shrink<T>(small: set<T>, large: set<T>)
    requires small <= large
    ensures |small| <= |large|
  {
    assert large == small + (large - small);
  }

  // ---- Lookups, waiters, invalidations ---------------------------------------------------

  lemma RetainedOk(s: State, now: int)
    requires Core(s)
    ensures Indexed(s.items, s.channels)
    ensures var kept := Retained(s.items, s.channels, now);
            ItemsOk(kept, s.channels, s.generation, s.epoch) && |kept| <= s.capacity
  {
    var kept := Retained(s.items, s.channels, now);
    Shrink(kept.Keys, s.items.Keys);
  }

  lemma CallsGrow(calls: seq<Call>, channels: seq<Channel>, call: Call, more: seq<Channel>)
    requires CallsOk(calls, channels) && CallOk(call, channels + more)
    ensures CallsOk(calls + [call], channels + more)
  {
    forall i | 0 <= i < |calls|
      ensures CallOk(calls[i], channels + more)
    {
      assert CallOk(calls[i], channels);
    }
  }

  lemma HitItems(items: Items, channels: seq<Channel>, key: Identity, clock: nat, generation: nat, epoch: nat)
    requires ItemsOk(items, channels, generation, epoch) && key in items
    ensures var touched := items[key := Entry(items[key].channel, clock)];
            ItemsOk(touched, channels, generation, epoch) && |touched| == |items|
  {
    assert items[key := Entry(items[key].channel, clock)].Keys == items.Keys;
  }

  lemma HitCore(s: State, key: Identity, now: int)
    requires Core(s) && LookupEnabled(s, key, now, Hit)
    ensures Core(Lookup(s, key, now, Hit))
  {
    RetainedOk(s, now);
    var kept := Retained(s.items, s.channels, now);
    HitItems(kept, s.channels, key, WrappingAdd1(s.clock), s.generation, s.epoch);
    assert s.channels + [] == s.channels;
    CallsGrow(s.calls, s.channels, Call(key, s.generation, s.epoch, Some(kept[key].channel), None), []);
  }

  lemma RefusedCore(s: State, key: Identity, now: int)
    requires Core(s) && LookupEnabled(s, key, now, Refused)
    ensures Core(Lookup(s, key, now, Refused))
  {
    RetainedOk(s, now);
    var t := Lookup(s, key, now, Refused);
    assert s.channels + [] == s.channels;
    CallsGrow(s.calls, s.channels, t.calls[|s.calls|], []);
  }

  lemma InsertOk(room: Items, channels: seq<Channel>, ch: Channel, clock: nat)
    requires ItemsOk(room, channels, ch.generation, ch.epoch) && ch.phase.Queued?
    ensures ItemsOk(room[ch.key := Entry(|channels|, clock)], channels + [ch], ch.generation, ch.epoch)
  {
  }

  lemma MakeRoom(kept: Items, evicted: Option<Identity>, key: Identity, entry: Entry, capacity: nat)
    requires key !in kept && |kept| <= capacity
    requires if evicted.Some? then evicted.value in kept else |kept| < capacity
    ensures var room := if evicted.Some? then kept - {evicted.value} else kept;
            |room[key := entry]| <= capacity
  {
    var room := if evicted.Some? then kept - {evicted.value} else kept;
    assert room.Keys == if evicted.Some? then kept.Keys - {evicted.value} else kept.Keys;
    assert room[key := entry].Keys == room.Keys + {key};
  }

  lemma MissItems(s: State, key: Identity, now: int, evicted: Option<Identity>)
    requires Core(s) && LookupEnabled(s, key, now, Miss(evicted))
    ensures var t := Lookup(s, key, now, Miss(evicted));
            ItemsOk(t.items, t.channels, t.generation, t.epoch) && |t.items| <= t.capacity
  {
    RetainedOk(s, now);
    var kept := Retained(s.items, s.channels, now);
    var room := if evicted.Some? then kept - {evicted.value} else kept;
    var clock := WrappingAdd1(s.clock);
    MakeRoom(kept, evicted, key, Entry(|s.channels|, clock), s.capacity);
    InsertOk(room, s.channels, Channel(key, s.generation, s.epoch, Queued), clock);
  }

  lemma MissCalls(s: State, key: Identity, now: int, evicted: Option<Identity>)
    requires Core(s) && LookupEnabled(s, key, now, Miss(evicted))
    ensures var t := Lookup(s, key, now, Miss(evicted));
            CallsOk(t.calls, t.channels) && EpochsOk(t.channels, t.epoch)
  {
    var ch := Channel(key, s.generation, s.epoch, Queued);
    var call := Call(key, s.generation, s.epoch, Some(|s.channels|), None);
    CallsGrow(s.calls, s.channels, call, [ch]);
  }

  lemma HoldersQueued(channels: seq<Channel>, ch: Channel)
    requires ch.phase.Queued?
    ensures Holders(channels + [ch]) == Holders(channels)
  {
  }

  lemma MissCore(s: State, key: Identity, now: int, evicted: Option<Identity>)
    requires Core(s) && LookupEnabled(s, key, now, Miss(evicted))
    ensures Core(Lookup(s, key, now, Miss(evicted)))
  {
    MissItems(s, key, now, evicted);
    MissCalls(s, key, now, evicted);
    HoldersQueued(s.channels, Channel(key, s.generation, s.epoch, Queued));
  }

  lemma WakeCore(s: State, i: nat)
    requires Core(s) && Wakes(s, i)
    ensures Core(Wake(s, i))
  {
    var t := Wake(s, i);
    Shrink(t.items.Keys, s.items.Keys);
    assert CallOk(s.calls[i], s.channels);
    forall j | 0 <= j < |t.calls|
      ensures CallOk(t.calls[j], t.channels)
    {
      assert CallOk(s.calls[j], s.channels);
    }
  }

  /** Every step of every interleaving keeps the core invariant, wrapped counters or not. */
  lemma StepCore(s: State, a: Action, t: State)
    requires Core(s) && Step(s, a, t)
    ensures Core(t)
  {
    match a
    case DoLookup(key, now, Hit) => HitCore(s, key, now);
    case DoLookup(key, now, Refused) => RefusedCore(s, key, now);
    case DoLookup(key, now, Miss(evicted)) => MissCore(s, key, now, evicted);
    case DoComplete(c) => CompleteCore(s, c);
    case DoWake(i) => WakeCore(s, i);
    case DoInvalidate =>
    case DoSynchronize(_) =>
    case _ => OperationCore(s, a, t);
  }

  lemma {:induction false} RunCore(states: seq<State>, actions: seq<Action>, i: nat)
    requires Run(states, actions) && i < |states|
    ensures Core(states[i])
  {
    if i == 0 {
      EmptyCore(states[0]);
    } else {
      RunCore(states, actions, i - 1);
      StepCore(states[i - 1], actions[i - 1], states[i]);
    }
  }
}
