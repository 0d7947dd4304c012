/** The query cache as the source keeps it: the entries behind their mutex, the permit
    counter, the rate windows and the channels between operations and waiters
    (src/query_embeddings.rs). Each method is one atomic section of the source and is
    proved to take exactly the step of the state machine. */
module QueryCache {
  import opened Prelude
  import opened RateWindow
  import opened QueryCacheModel
  import opened QueryCacheSafety

  class Cache {
    const capacity: nat
    const ttl: nat
    var generation: nat
    var clock: nat
    var items: Items
    var available: nat
    var rate: Windows
    var channels: seq<Channel>
    var calls: seq<Call>
    var epoch: nat
    ghost var debits: seq<Request>
    ghost var outbound: seq<Outbound>

    ghost function Model(): State
      reads this
    {
      State(capacity, ttl, generation, clock, items, available, rate, channels, calls, epoch, debits, outbound)
    }

    ghost predicate Valid()
      reads this
    {
      Core(Model())
    }

    constructor (capacity: nat, ttl: nat)
      requires capacity > 0
      ensures Valid() && Model() == Initial(capacity, ttl)
    {
      this.capacity, this.ttl := capacity, ttl;
      generation, clock, items, available := 0, 0, map[], capacity;
      rate, channels, calls, epoch := map[], [], [], 0;
      debits, outbound := [], [];
      new;
      EmptyCore(Model());
    }

    method Invalidate()
      requires Valid()
      modifies this
      ensures Valid() && Model() == QueryCacheModel.Invalidate(old(Model()))
    {
      StepCore(Model(), DoInvalidate, QueryCacheModel.Invalidate(Model()));
      generation := WrappingAdd1(generation);
      items := map[];
      epoch := epoch + 1;
    }

    method SynchronizeGeneration(g: nat)
      requires Valid() && g < U64
      modifies this
      ensures Valid() && Model() == Synchronize(old(Model()), g)
    {
      StepCore(Model(), DoSynchronize(g), Synchronize(Model(), g));
      if g > generation {
        generation := g;
        items := map[];
        epoch := epoch + 1;
      }
    }

    method IsCurrent(g: nat) returns (current: bool)
      ensures current <==> Model().generation == g
    {
      current := generation == g;
    }

    /** The locked section at the head of every `get`. */
    method LookUp(key: Identity, now: int) returns (o: Outcome)
      requires Valid()
      modifies this
      ensures LookupEnabled(old(Model()), key, now, o)
      ensures Valid() && Model() == Lookup(old(Model()), key, now, o)
    {
      ghost var s := Model();
      RetainedOk(s, now);
      items := Retained(items, channels, now);
      clock := WrappingAdd1(clock);
      if key in items {
        o := Hit;
        StepCore(s, DoLookup(key, now, o), Lookup(s, key, now, o));
        calls := calls + [Call(key, generation, epoch, Some(items[key].channel), None)];
        items := items[key := Entry(items[key].channel, clock)];
        return;
      }
      var evicted: Option<Identity> := None;
      if |items| >= capacity {
        evicted := OldestCompleted(items, channels);
        if evicted.None? {
          o := Refused;
          StepCore(s, DoLookup(key, now, o), Lookup(s, key, now, o));
          calls := calls + [Call(key, generation, epoch, None, Some(Throttled))];
          return;
        }
        items := items - {evicted.value};
      }
      o := Miss(evicted);
      StepCore(s, DoLookup(key, now, o), Lookup(s, key, now, o));
      calls := calls + [Call(key, generation, epoch, Some(|channels|), None)];
      items := items[key := Entry(|channels|, clock)];
      channels := channels + [Channel(key, generation, epoch, Queued)];
    }

    method TryAcquire(c: nat, now: int)
      requires Valid() && At(Model(), c, Queued)
      modifies this
      ensures Valid() && Model() == TryPermit(old(Model()), c, now)
    {
      StepCore(Model(), DoTryPermit(c, now), TryPermit(Model(), c, now));
      if available > 0 {
        available := available - 1;
        channels := To(channels, c, Permitted);
      } else {
        channels := To(channels, c, Settled(Expiry(now, ttl), Throttled));
      }
    }

    method ChargeProvider(c: nat, now: int)
      requires Valid() && At(Model(), c, Permitted)
      modifies this
      ensures Valid() && Model() == Charge(old(Model()), c, now)
    {
      StepCore(Model(), DoCharge(c, now), Charge(Model(), c, now));
      var token := channels[c].key.token;
      var (windows, verdict) := Debited(rate, token, QUERY_EMBEDDINGS_PER_MINUTE, now);
      rate := windows;
      debits := debits + [Request(token, QUERY_EMBEDDINGS_PER_MINUTE, now)];
      if verdict.Charged? {
        outbound := outbound + [Outbound(c, token, now)];
        channels := To(channels, c, Calling);
      } else {
        available := available + 1;
        channels := To(channels, c, Settled(Expiry(now, ttl), Throttled));
      }
    }

    method Settle(c: nat, now: int, reply: Option<seq<real>>)
      requires Valid() && At(Model(), c, Calling)
      modifies this
      ensures Valid() && Model() == Reply(old(Model()), c, now, reply)
    {
      StepCore(Model(), DoReply(c, now, reply), Reply(Model(), c, now, reply));
      available := available + 1;
      channels := To(channels, c, Settled(Expiry(now, ttl), if reply.Some? then Ready(reply.value) else Unavailable));
    }

    method Finish(c: nat)
      requires Valid() && IsSettled(Model(), c)
      modifies this
      ensures Valid() && Model() == Complete(old(Model()), c)
    {
      StepCore(Model(), DoComplete(c), Complete(Model(), c));
      var expiry, answer := channels[c].phase.expiry, channels[c].phase.answer;
      if generation == channels[c].generation && !answer.Ready? {
        items := items - {channels[c].key};
      }
      channels := To(channels, c, Sent(expiry, answer));
    }

    method Abandon(c: nat)
      requires Valid() && IsLive(Model(), c)
      modifies this
      ensures Valid() && Model() == Die(old(Model()), c)
    {
      StepCore(Model(), DoDie(c), Die(Model(), c));
      if channels[c].Holding() {
        available := available + 1;
      }
      channels := To(channels, c, Dead);
    }

    /** One turn of the waiter loop whose channel has changed or closed. */
    method WakeUp(i: nat)
      requires Valid() && Wakes(Model(), i)
      modifies this
      ensures Valid() && Model() == Wake(old(Model()), i)
    {
      StepCore(Model(), DoWake(i), Wake(Model(), i));
      var call := calls[i];
      var c := call.channel.value;
      if channels[c].phase.Sent? {
        calls := calls[i := call.(answer := Some(channels[c].phase.answer))];
        return;
      }
      var dead := call.key in items && items[call.key].channel == c;
      if dead {
        items := items - {call.key};
      }
      calls := calls[i := call.(answer := Some(Unavailable))];
    }
  }

  /** The completed entry with the least stamp, if any entry is completed. */
  method OldestCompleted(items: Items, channels: seq<Channel>) returns (oldest: Option<Identity>)
    requires Indexed(items, channels)
    ensures oldest.Some? ==> Oldest(items, channels, oldest.value)
    ensures oldest.None? ==> forall k :: !Completed(items, channels, k)
  {
    oldest := None;
    var todo := items.Keys;
    while todo != {}
      invariant todo <= items.Keys
      invariant match oldest
                case None => forall k :: Completed(items, channels, k) ==> k in todo
                case Some(best) =>
                  && Completed(items, channels, best)
                  && forall k :: Completed(items, channels, k) && k !in todo ==> items[best].touched <= items[k].touched
    {
      var k :| k in todo;
      todo := todo - {k};
      if channels[items[k].channel].phase.Sent? && (oldest.None? || items[k].touched < items[oldest.value].touched) {
        oldest := Some(k);
      }
    }
  }
}
