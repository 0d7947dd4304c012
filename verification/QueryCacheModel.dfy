/** The single-flight query cache of src/query_embeddings.rs as a state machine: one
    function per atomic step of the source. Lookups, operations, waiters and
    invalidations interleave in any order.

    Three fields are history rather than program state: `epoch` counts invalidations,
    `debits` the requests made to the rate window and `outbound` the provider calls. */
module QueryCacheModel {
  import opened Prelude
  import opened RateWindow

  const QUERY_EMBEDDINGS_PER_MINUTE := 60
  /** Generation and clock are unsigned 64-bit counters that wrap. */
  const U64 := 0x1_0000_0000_0000_0000
  const I64_MAX := 0x7fff_ffff_ffff_ffff

  function WrappingAdd1(n: nat): nat {
    if n < U64 - 1 then n + 1 else 0
  }

  /** The complete identity a lookup is keyed by, with the query already trimmed. The
      program hashes it; the model takes the hash to be free of collisions. */
  datatype Identity = Identity(fingerprint: string, credential: string, token: string, query: string)

  datatype Answer = Ready(vector: seq<real>) | Throttled | Unavailable

  /** Where the operation behind a channel stands. A channel carries a value once it is
      `Sent`, and its sender is alive until it is `Sent` or `Dead`. */
  datatype Phase =
    | Queued
    | Permitted
    | Calling
    | Settled(expiry: int, answer: Answer)
    | Sent(expiry: int, answer: Answer)
    | Dead

  datatype Channel = Channel(key: Identity, generation: nat, epoch: nat, phase: Phase) {
    predicate Live() { !phase.Sent? && !phase.Dead? }
    predicate Holding() { phase.Permitted? || phase.Calling? }
  }

  datatype Entry = Entry(channel: nat, touched: nat)

  /** One `get`: the generation it returns, the channel it waits on, and its answer. */
  datatype Call = Call(key: Identity, generation: nat, epoch: nat, channel: Option<nat>, answer: Option<Answer>)

  datatype Outbound = Outbound(channel: nat, token: string, at: int)

  type Items = map<Identity, Entry>

  datatype State = State(
    capacity: nat,
    ttl: nat,
    generation: nat,
    clock: nat,
    items: Items,
    available: nat,
    rate: Windows,
    channels: seq<Channel>,
    calls: seq<Call>,
    epoch: nat,
    debits: seq<Request>,
    outbound: seq<Outbound>)

  function Initial(capacity: nat, ttl: nat): State {
    State(capacity, ttl, 0, 0, map[], capacity, map[], [], [], 0, [], [])
  }

  ghost predicate Indexed(items: Items, channels: seq<Channel>) {
    forall k :: k in items ==> items[k].channel < |channels|
  }

  // ---- The locked lookup section --------------------------------------------------

  /** An entry survives the pass at the head of a lookup while its result is unexpired,
      or while it has none and its sender lives. */
  predicate Keeps(c: Channel, now: int) {
    if c.phase.Sent? then c.phase.expiry > now else c.Live()
  }

  function Retained(items: Items, channels: seq<Channel>, now: int): Items
    requires Indexed(items, channels)
  {
    map k | k in items && Keeps(channels[items[k].channel], now) :: items[k]
  }

  ghost predicate Completed(items: Items, channels: seq<Channel>, k: Identity)
    requires Indexed(items, channels)
  {
    k in items && channels[items[k].channel].phase.Sent?
  }

  /** The entry eviction may take: completed, and touched no later than any other. */
  ghost predicate Oldest(items: Items, channels: seq<Channel>, victim: Identity)
    requires Indexed(items, channels)
  {
    && Completed(items, channels, victim)
    && forall k :: Completed(items, channels, k) ==> items[victim].touched <= items[k].touched
  }

  datatype Outcome = Hit | Refused | Miss(evicted: Option<Identity>)

  /** What the lookup section may decide on the entries that survived its first pass. */
  ghost predicate Decides(kept: Items, channels: seq<Channel>, capacity: nat, key: Identity, o: Outcome)
    requires Indexed(kept, channels)
  {
    match o
    case Hit => key in kept
    case Refused => key !in kept && |kept| >= capacity && forall k :: !Completed(kept, channels, k)
    case Miss(None) => key !in kept && |kept| < capacity
    case Miss(Some(victim)) => key !in kept && |kept| >= capacity && Oldest(kept, channels, victim)
  }

  ghost predicate LookupEnabled(s: State, key: Identity, now: int, o: Outcome) {
    Indexed(s.items, s.channels) && Decides(Retained(s.items, s.channels, now), s.channels, s.capacity, key, o)
  }

  ghost function Lookup(s: State, key: Identity, now: int, o: Outcome): State
    requires LookupEnabled(s, key, now, o)
  {
    var kept := Retained(s.items, s.channels, now);
    var clock := WrappingAdd1(s.clock);
    match o
    case Hit =>
      s.(clock := clock,
         items := kept[key := Entry(kept[key].channel, clock)],
         calls := s.calls + [Call(key, s.generation, s.epoch, Some(kept[key].channel), None)])
    case Refused =>
      s.(clock := clock,
         items := kept,
         calls := s.calls + [Call(key, s.generation, s.epoch, None, Some(Throttled))])
    case Miss(evicted) =>
      var room := if evicted.Some? then kept - {evicted.value} else kept;
      s.(clock := clock,
         items := room[key := Entry(|s.channels|, clock)],
         channels := s.channels + [Channel(key, s.generation, s.epoch, Queued)],
         calls := s.calls + [Call(key, s.generation, s.epoch, Some(|s.channels|), None)])
  }

  // ---- The operation behind a channel ---------------------------------------------

  function Expiry(now: int, ttl: nat): int {
    var limit := if ttl < I64_MAX then ttl else I64_MAX;
    if now + limit < I64_MAX then now + limit else I64_MAX
  }

  function To(channels: seq<Channel>, c: nat, phase: Phase): seq<Channel>
    requires c < |channels|
  {
    channels[c := channels[c].(phase := phase)]
  }

  ghost predicate At(s: State, c: nat, phase: Phase) {
    c < |s.channels| && s.channels[c].phase == phase
  }

  function TryPermit(s: State, c: nat, now: int): State
    requires At(s, c, Queued)
  {
    if s.available > 0 then s.(available := s.available - 1, channels := To(s.channels, c, Permitted))
    else s.(channels := To(s.channels, c, Settled(Expiry(now, s.ttl), Throttled)))
  }

  function Charge(s: State, c: nat, now: int): State
    requires At(s, c, Permitted)
  {
    var token := s.channels[c].key.token;
    var (rate, verdict) := Debited(s.rate, token, QUERY_EMBEDDINGS_PER_MINUTE, now);
    var debits := s.debits + [Request(token, QUERY_EMBEDDINGS_PER_MINUTE, now)];
    if verdict.Charged? then
      s.(rate := rate, debits := debits, channels := To(s.channels, c, Calling),
         outbound := s.outbound + [Outbound(c, token, now)])
    else
      s.(rate := rate, debits := debits, available := s.available + 1,
         channels := To(s.channels, c, Settled(Expiry(now, s.ttl), Throttled)))
  }

  /** The provider answers, fails or times out; the permit is returned. */
  function Reply(s: State, c: nat, now: int, reply: Option<seq<real>>): State
    requires At(s, c, Calling)
  {
    var answer := if reply.Some? then Ready(reply.value) else Unavailable;
    s.(available := s.available + 1, channels := To(s.channels, c, Settled(Expiry(now, s.ttl), answer)))
  }

  ghost predicate IsSettled(s: State, c: nat) {
    c < |s.channels| && s.channels[c].phase.Settled?
  }

  /** Completion, under the entries lock: a failure of the current generation removes the
      entry of its key, and then the waiters get the answer. */
  function Complete(s: State, c: nat): State
    requires IsSettled(s, c)
  {
    var ch := s.channels[c];
    s.(items := if s.generation == ch.generation && !ch.phase.answer.Ready? then s.items - {ch.key} else s.items,
       channels := To(s.channels, c, Sent(ch.phase.expiry, ch.phase.answer)))
  }

  ghost predicate IsLive(s: State, c: nat) {
    c < |s.channels| && s.channels[c].Live()
  }

  /** The operation vanishes without an answer; a permit it held is returned. */
  function Die(s: State, c: nat): State
    requires IsLive(s, c)
  {
    s.(available := if s.channels[c].Holding() then s.available + 1 else s.available,
       channels := To(s.channels, c, Dead))
  }

  // ---- Waiters and invalidation ----------------------------------------------------

  ghost predicate Wakes(s: State, i: nat) {
    && i < |s.calls| && s.calls[i].answer.None? && s.calls[i].channel.Some?
    && s.calls[i].channel.value < |s.channels| && !s.channels[s.calls[i].channel.value].Live()
  }

  /** A waiter finds its channel's answer, or finds the sender gone; in that case it
      clears the dead entry, if it is still the one in the map. */
  function Wake(s: State, i: nat): State
    requires Wakes(s, i)
  {
    var call := s.calls[i];
    var c := call.channel.value;
    if s.channels[c].phase.Sent? then
      s.(calls := s.calls[i := call.(answer := Some(s.channels[c].phase.answer))])
    else
      s.(items := if call.key in s.items && s.items[call.key].channel == c then s.items - {call.key} else s.items,
         calls := s.calls[i := call.(answer := Some(Unavailable))])
  }

  function Renumber(s: State, generation: nat): State {
    s.(generation := generation, items := map[], epoch := s.epoch + 1)
  }

  function Invalidate(s: State): State {
    Renumber(s, WrappingAdd1(s.generation))
  }

  function Synchronize(s: State, generation: nat): State {
    if generation > s.generation then Renumber(s, generation) else s
  }

  // ---- Steps and runs ---------------------------------------------------------------

  datatype Action =
    | DoLookup(key: Identity, now: int, outcome: Outcome)
    | DoTryPermit(c: nat, now: int)
    | DoCharge(c: nat, now: int)
    | DoReply(c: nat, now: int, reply: Option<seq<real>>)
    | DoComplete(c: nat)
    | DoDie(c: nat)
    | DoWake(i: nat)
    | DoInvalidate
    | DoSynchronize(generation: nat)

  ghost predicate Step(s: State, a: Action, t: State) {
    match a
    case DoLookup(key, now, o) => LookupEnabled(s, key, now, o) && t == Lookup(s, key, now, o)
    case DoTryPermit(c, now) => At(s, c, Queued) && t == TryPermit(s, c, now)
    case DoCharge(c, now) => At(s, c, Permitted) && t == Charge(s, c, now)
    case DoReply(c, now, reply) => At(s, c, Calling) && t == Reply(s, c, now, reply)
    case DoComplete(c) => IsSettled(s, c) && t == Complete(s, c)
    case DoDie(c) => IsLive(s, c) && t == Die(s, c)
    case DoWake(i) => Wakes(s, i) && t == Wake(s, i)
    case DoInvalidate => t == Invalidate(s)
    case DoSynchronize(g) => g < U64 && t == Synchronize(s, g)
  }

  ghost predicate Empty(s: State) {
    s.capacity > 0 && s == Initial(s.capacity, s.ttl)
  }

  /** A run from the empty cache: each action takes one state to the next. */
  ghost predicate Run(states: seq<State>, actions: seq<Action>) {
    && |states| == |actions| + 1
    && Empty(states[0])
    && forall i {:trigger actions[i]} :: 0 <= i < |actions| ==> Step(states[i], actions[i], states[i + 1])
  }
}
