/** What the answers of the query cache mean (src/query_embeddings.rs): over every run they
    are told from the actions alone, that is from the lookups made, the charges tried and
    what the provider said. */
module QueryCacheAnswers {
  import opened Prelude
  import opened RateWindow
  import opened QueryCacheModel
  import opened QueryCacheSafety
  import opened QueryCacheFlight

  // ---- What the provider said --------------------------------------------------------

  /** The provider's word to the operation behind a channel, if a reply has come: a vector,
      or a failure or timeout. */
  function LastReply(actions: seq<Action>, c: nat): Option<Option<seq<real>>> {
    if actions == [] then None
    else
      var last := actions[|actions| - 1];
      if last.DoReply? && last.c == c then Some(last.reply) else LastReply(actions[..|actions| - 1], c)
  }

  lemma LastReplySnoc(actions: seq<Action>, a: Action, c: nat)
    ensures LastReply(actions + [a], c) == if a.DoReply? && a.c == c then Some(a.reply) else LastReply(actions, c)
  {
    assert (actions + [a])[..|actions|] == actions;
  }

  lemma {:induction false} LastReplyMade(actions: seq<Action>, c: nat)
    requires LastReply(actions, c).Some?
    ensures exists j :: 0 <= j < |actions| && Replies(actions[j], c, LastReply(actions, c).value)
  {
    var last := |actions| - 1;
    if actions[last].DoReply? && actions[last].c == c {
      assert Replies(actions[last], c, LastReply(actions, c).value);
    } else {
      LastReplyMade(actions[..last], c);
      var j :| 0 <= j < last && Replies(actions[..last][j], c, LastReply(actions, c).value);
      assert Replies(actions[j], c, LastReply(actions, c).value);
    }
  }

  predicate Replies(a: Action, c: nat, reply: Option<seq<real>>) {
    a.DoReply? && a.c == c && a.reply == reply
  }

  /** What an operation owes its waiters: Ready with the provider's own vector, Unavailable
      when the provider gave none, and Throttled when it was never asked. */
  function Owed(reply: Option<Option<seq<real>>>): Answer {
    match reply
    case None => Throttled
    case Some(None) => Unavailable
    case Some(Some(vector)) => Ready(vector)
  }

  /** The operation behind a channel called the provider. */
  ghost predicate Called(outbound: seq<Outbound>, c: nat) {
    exists k :: 0 <= k < |outbound| && outbound[k].channel == c
  }

  ghost predicate Told(phase: Phase, reply: Option<Option<seq<real>>>, called: bool) {
    match phase
    case Queued => reply.None? && !called
    case Permitted => reply.None? && !called
    case Calling => reply.None? && called
    case Settled(_, answer) => answer == Owed(reply) && (called <==> reply.Some?)
    case Sent(_, answer) => answer == Owed(reply) && (called <==> reply.Some?)
    case Dead => true
  }

  ghost predicate ToldAt(s: State, actions: seq<Action>, c: nat) {
    if c < |s.channels| then Told(s.channels[c].phase, LastReply(actions, c), Called(s.outbound, c))
    else LastReply(actions, c).None? && !Called(s.outbound, c)
  }

  ghost predicate AllTold(s: State, actions: seq<Action>) {
    forall c: nat :: ToldAt(s, actions, c)
  }

  lemma CalledSnoc(outbound: seq<Outbound>, o: Outbound, c: nat)
    ensures Called(outbound + [o], c) <==> Called(outbound, c) || o.channel == c
  {
    assert (outbound + [o])[|outbound|] == o;
    if Called(outbound, c) {
      var k :| 0 <= k < |outbound| && outbound[k].channel == c;
      assert (outbound + [o])[k].channel == c;
    }
  }

  /** The channel an operation's own step moves; the others keep what they were told. */
  lemma MovedTold(s: State, a: Action, t: State, actions: seq<Action>, c: nat)
    requires ToldAt(s, actions, c) && Step(s, a, t)
    requires a.DoTryPermit? || a.DoCharge? || a.DoReply? || a.DoComplete? || a.DoDie?
    ensures ToldAt(t, actions + [a], c)
  {
    LastReplySnoc(actions, a, c);
    if a.DoCharge? && t.outbound != s.outbound {
      CalledSnoc(s.outbound, Outbound(a.c, s.channels[a.c].key.token, a.now), c);
    }
  }

  lemma UnmovedTold(s: State, a: Action, t: State, actions: seq<Action>, c: nat)
    requires ToldAt(s, actions, c) && Step(s, a, t)
    requires a.DoLookup? || a.DoWake? || a.DoInvalidate? || a.DoSynchronize?
    ensures ToldAt(t, actions + [a], c)
  {
    LastReplySnoc(actions, a, c);
  }

  lemma StepTold(s: State, a: Action, t: State, actions: seq<Action>)
    requires AllTold(s, actions) && Step(s, a, t)
    ensures AllTold(t, actions + [a])
  {
    forall c: nat ensures ToldAt(t, actions + [a], c) {
      assert ToldAt(s, actions, c);
      if a.DoLookup? || a.DoWake? || a.DoInvalidate? || a.DoSynchronize? {
        UnmovedTold(s, a, t, actions, c);
      } else {
        MovedTold(s, a, t, actions, c);
      }
    }
  }

  lemma {:induction false} RunTold(states: seq<State>, actions: seq<Action>, n: nat)
    requires Run(states, actions) && n < |states|
    ensures AllTold(states[n], actions[..n])
  {
    if n == 0 {
      assert forall c: nat :: ToldAt(states[0], [], c);
    } else {
      RunTold(states, actions, n - 1);
      assert Step(states[n - 1], actions[n - 1], states[n]);
      StepTold(states[n - 1], actions[n - 1], states[n], actions[..n - 1]);
      assert actions[..n] == actions[..n - 1] + [actions[n - 1]];
    }
  }

  // ---- What operations answer ------------------------------------------------------------

  ghost predicate Holds(phase: Phase, answer: Answer) {
    (phase.Settled? || phase.Sent?) && phase.answer == answer
  }

  /** The answer of every operation of every run: it is Ready with a vector only when the
      provider replied to that very operation with it, Unavailable only when the provider
      was called and replied without one, and Throttled exactly when it was never called. */
  lemma AnswersAreTold(states: seq<State>, actions: seq<Action>, n: nat, c: nat, answer: Answer)
    requires Run(states, actions) && n < |states| && c < |states[n].channels|
    requires Holds(states[n].channels[c].phase, answer)
    ensures answer.Throttled? <==> !Called(states[n].outbound, c)
    ensures answer.Ready? ==> exists j :: 0 <= j < n && Replies(actions[j], c, Some(answer.vector))
    ensures answer.Unavailable? ==> exists j :: 0 <= j < n && Replies(actions[j], c, None)
    ensures answer.Throttled? ==> forall j, reply :: 0 <= j < n ==> !Replies(actions[j], c, reply)
  {
    RunTold(states, actions, n);
    assert ToldAt(states[n], actions[..n], c);
    if answer.Throttled? {
      NeverReplied(actions[..n], c);
      forall j, reply | 0 <= j < n ensures !Replies(actions[j], c, reply) {
        assert !Replies(actions[..n][j], c, reply);
      }
    } else {
      LastReplyMade(actions[..n], c);
      var j :| 0 <= j < n && Replies(actions[..n][j], c, LastReply(actions[..n], c).value);
      assert Replies(actions[j], c, LastReply(actions[..n], c).value);
    }
  }

  lemma {:induction false} NeverReplied(actions: seq<Action>, c: nat)
    requires LastReply(actions, c).None?
    ensures forall j, reply :: 0 <= j < |actions| ==> !Replies(actions[j], c, reply)
  {
    if actions != [] {
      var last := |actions| - 1;
      NeverReplied(actions[..last], c);
      forall j, reply | 0 <= j < |actions| ensures !Replies(actions[j], c, reply) {
        if j < last {
          assert !Replies(actions[..last][j], c, reply);
        }
      }
    }
  }

  /** So no failed, throttled or dead operation ever answers or caches Ready: a call
      answered Ready, and a completed entry of the map, hold the vector the provider gave
      to an operation opened for their own key. */
  lemma ReadyIsProviders(states: seq<State>, actions: seq<Action>, n: nat, k: nat)
    requires Run(states, actions) && n < |states| && k < |states[n].calls|
    requires states[n].calls[k].answer.Some? && states[n].calls[k].answer.value.Ready?
    ensures var call := states[n].calls[k];
            && call.channel.Some? && call.channel.value < |states[n].channels|
            && states[n].channels[call.channel.value].key == call.key
            && exists j :: 0 <= j < n && Replies(actions[j], call.channel.value, Some(call.answer.value.vector))
  {
    RunCore(states, actions, n);
    var call := states[n].calls[k];
    assert CallOk(call, states[n].channels);
    AnswersAreTold(states, actions, n, call.channel.value, call.answer.value);
  }

  lemma CachedIsProviders(states: seq<State>, actions: seq<Action>, n: nat, key: Identity)
    requires Run(states, actions) && n < |states|
    requires key in states[n].items && states[n].items[key].channel < |states[n].channels|
    requires states[n].channels[states[n].items[key].channel].phase.Sent?
    ensures var c := states[n].items[key].channel;
            var answer := states[n].channels[c].phase.answer;
            && states[n].channels[c].key == key && answer.Ready?
            && exists j :: 0 <= j < n && Replies(actions[j], c, Some(answer.vector))
  {
    RunCore(states, actions, n);
    var c := states[n].items[key].channel;
    AnswersAreTold(states, actions, n, c, states[n].channels[c].phase.answer);
  }

  // ---- When an operation is throttled -------------------------------------------------------

  /** At the permit: it goes on if and only if fewer operations hold permits than there are,
      and is throttled otherwise. */
  lemma PermitExactly(s: State, c: nat, now: int, t: State)
    requires Core(s) && Step(s, DoTryPermit(c, now), t)
    ensures c < |t.channels|
    ensures t.channels[c].phase == Permitted <==> |Holders(s.channels)| < s.capacity
    ensures t.channels[c].phase != Permitted ==> Holds(t.channels[c].phase, Throttled)
  {
  }

  /** At the charge: it calls the provider if and only if fewer than 60 calls were made for
      its token in the last minute, and is throttled otherwise. */
  lemma ChargeExactly(s: State, c: nat, now: int, t: State)
    requires Ledger(s) && Step(s, DoCharge(c, now), t)
    requires InOrder(s.debits + [Request(s.channels[c].key.token, 60, now)])
    ensures c < |t.channels|
    ensures t.channels[c].phase == Calling
       <==> CountIn(OutboundTimes(s.outbound, s.channels[c].key.token), now - 60_000, 60_000) < 60
    ensures t.channels[c].phase != Calling ==> Holds(t.channels[c].phase, Throttled)
  {
    RefusedIffFull(s.debits, Request(s.channels[c].key.token, 60, now));
  }

  // ---- When a lookup hits ----------------------------------------------------------------------

  /** A lookup hits exactly when its key has an entry whose operation still runs, or whose
      answer has not expired. */
  lemma HitExactly(s: State, key: Identity, now: int)
    requires Core(s)
    ensures LookupEnabled(s, key, now, Hit)
       <==> && key in s.items && s.items[key].channel < |s.channels|
            && var phase := s.channels[s.items[key].channel].phase;
               if phase.Sent? then now < phase.expiry else !phase.Dead?
  {
    RetainedOk(s, now);
  }

  /** An operation that owns the entry of its key and is answered by the provider serves
      exactly the lookups less than one time to live later. */
  lemma VectorIsCached(s: State, c: nat, now: int, vector: seq<real>, t: State, u: State, later: int)
    requires Core(s) && Step(s, DoReply(c, now, Some(vector)), t) && Step(t, DoComplete(c), u)
    requires s.channels[c].key in s.items && s.items[s.channels[c].key].channel == c
    requires 0 <= now && later < I64_MAX
    ensures LookupEnabled(u, s.channels[c].key, later, Hit) <==> later < now + s.ttl
    ensures Holds(u.channels[c].phase, Ready(vector))
  {
    StepCore(s, DoReply(c, now, Some(vector)), t);
    StepCore(t, DoComplete(c), u);
    HitExactly(u, s.channels[c].key, later);
  }

  /** A failure of the current generation serves its waiters and nobody after them. */
  lemma FailureIsNotCached(s: State, c: nat, now: int, t: State, u: State, later: int)
    requires Core(s) && Step(s, DoReply(c, now, None), t) && Step(t, DoComplete(c), u)
    requires s.channels[c].generation == s.generation
    ensures !LookupEnabled(u, s.channels[c].key, later, Hit)
    ensures Holds(u.channels[c].phase, Unavailable)
  {
    StepCore(s, DoReply(c, now, None), t);
    StepCore(t, DoComplete(c), u);
    HitExactly(u, s.channels[c].key, later);
  }

  /** The cache's number is the larger of its own and the one it is synchronized to, and
      only a larger one empties it. */
  lemma SynchronizeTakesLarger(s: State, g: nat, t: State)
    requires Step(s, DoSynchronize(g), t)
    ensures t.generation == Max(s.generation, g) && t.items == if g > s.generation then map[] else s.items
  {
  }

  // ---- The histories are those of the actions -----------------------------------------------------

  /** Which keys were looked up, and in which generation of the cache. */
  ghost function Lookups(states: seq<State>, actions: seq<Action>, n: nat): seq<(Identity, nat)>
    requires n <= |actions| && n < |states|
  {
    if n == 0 then []
    else
      Lookups(states, actions, n - 1)
      + if actions[n - 1].DoLookup? then [(actions[n - 1].key, states[n - 1].generation)] else []
  }

  /** Which charges were tried, for the tokens of the channels they are for. */
  ghost function Charges(states: seq<State>, actions: seq<Action>, n: nat): seq<Request>
    requires n <= |actions| && n < |states|
  {
    if n == 0 then []
    else
      Charges(states, actions, n - 1)
      + if actions[n - 1].DoCharge? && actions[n - 1].c < |states[n - 1].channels|
        then [Request(states[n - 1].channels[actions[n - 1].c].key.token, 60, actions[n - 1].now)] else []
  }

  function Asked(calls: seq<Call>): seq<(Identity, nat)> {
    seq(|calls|, i requires 0 <= i < |calls| => (calls[i].key, calls[i].generation))
  }

  lemma StepAsked(s: State, a: Action, t: State)
    requires Step(s, a, t)
    ensures Asked(t.calls) == Asked(s.calls) + if a.DoLookup? then [(a.key, s.generation)] else []
  {
  }

  lemma StepTried(s: State, a: Action, t: State)
    requires Step(s, a, t)
    ensures t.debits == s.debits
            + if a.DoCharge? && a.c < |s.channels| then [Request(s.channels[a.c].key.token, 60, a.now)] else []
  {
  }

  lemma StepRecorded(s: State, a: Action, t: State)
    requires Step(s, a, t)
    ensures Asked(t.calls) == Asked(s.calls) + if a.DoLookup? then [(a.key, s.generation)] else []
    ensures t.debits == s.debits
            + if a.DoCharge? && a.c < |s.channels| then [Request(s.channels[a.c].key.token, 60, a.now)] else []
  {
    StepAsked(s, a, t);
    StepTried(s, a, t);
  }

  /** Each lookup is one call, for its own key, returning the generation it was made in;
      and the budget was asked exactly once per charge, for the channel's own token. */
  lemma {:induction false} RunHistories(states: seq<State>, actions: seq<Action>, n: nat)
    requires Run(states, actions) && n < |states|
    ensures Asked(states[n].calls) == Lookups(states, actions, n)
    ensures states[n].debits == Charges(states, actions, n)
  {
    if n > 0 {
      RunHistories(states, actions, n - 1);
      StepRecorded(states[n - 1], actions[n - 1], states[n]);
    }
  }
}
