# Verified model of takomo's state machines and kernels

takomo is a ticket server for people and agents. This project models, in Dafny 4.11, the
parts of it that are small state machines or arithmetic kernels, and proves what the rest of
the server relies on them for. `dafny verify dfyconfig.toml` verifies the whole project.

| file | what it models |
|---|---|
| `Fracdex.dfy` | order keys as base-62 fractions: density, order, canonicity, and exactly when the length cap is passed |
| `RateWindow.dfy` | the sliding-window budget every per-minute limit shares, against a limiter that forgets nothing; the once-a-minute touch |
| `QueryCacheModel.dfy`, `QueryCacheSafety.dfy`, `QueryCacheFlight.dfy`, `QueryCacheAnswers.dfy`, `QueryCache.dfy` | the single-flight query cache as a state machine over its atomic steps, its invariants over every run, what its answers owe to the provider, and the object whose methods take those steps |
| `Calendar.dfy`, `Zone.dfy`, `Schedule.dfy` | the Gregorian calendar, zones with clock changes, and the schedule clock on top of them |
| `EventStream.dfy` | cursor reads and the stream loop on a doorbell that stores no permit |
| `Workflow.dfy` | workflow validation by reverse reachability |
| `Markup.dfy`, `ElementHtml.dfy` | the HTML projection of a document element, read back by an independent strict reader |
| `DocOps.dfy` | validation of the operations an agent proposes for a document |
| `TreeScope.dfy` | the memoised walk of repository trees |
| `RenderCache.dfy`, `Svg.dfy` | the bounded diagram cache and the check of rendered SVG against a grammar |
| `Base64Url.dfy` | unpadded base64url (section 5 of RFC 4648) with its strict reader |
| `Prelude.dfy`, `Text.dfy` | shared datatypes and string operations |

## How the model is built

Objects the source updates in place are classes (`QueryCache.Cache`, `RateWindow.Budget`,
`RateWindow.TouchLog`, `EventStream.Doorbell`, `RenderCache.Cache`), loops are loops, and each
method is proved equal to a specification function or step about which the lemmas are then
proved. Concurrency is a run of atomic steps in any order: a step of the query cache is one
locked section, one completion or death of an operation, or one wake-up of a waiter; a step of
the event stream is one commit, one ring of the doorbell, or one uninterrupted stretch of a
stream's loop. Committing and ringing are separate steps.

Assumptions: the hash of a cache identity or diagram source has no collisions; one clock
reading serves one atomic step; sequence numbers ascend in commit order; a zone has whole-minute
offsets and changes at least two days apart; the tree reader answers the same identity the same
way. The source reads the clock before it takes the lock of the rate window, so requests can reach
the window out of order. The limit is proved for any order, as a function of how far a time may
lag an earlier one; the statements about single decisions are for times that never decrease, and
`RateWindow.SkewShares` shows what happens to them otherwise.

## Where the code and its own words differ

- `src/auth.rs:263-266` calls the refusal's number how long the caller must wait. The code
  rounds the remaining time down to whole seconds, with a minimum of one, so the wait can be up
  to 999 ms short. `RateWindow.RetryAfterWait` gives the exact condition under which a retry after
  that wait succeeds.
- `src/schedule.rs:324-326` says an occurrence is never dropped by the calendar. A clock change that
  skips more than 240 minutes past the requested time does drop it (`Zone.SkippedDayIsDropped`);
  `Zone.ResolvedIff` gives the exact condition and `Zone.SmallShiftResolves` the zones where it
  never happens.
- `src/fracdex.rs:108-112` promises ascending keys for any `n`. The 1537th key is one digit over the
  cap, and the next one starts again at the first key (`Fracdex.SeededRing`). Splitting one gap
  on its low side likewise starts over after 1280 splits (`Fracdex.SplitKey`), and two keys of 256 digits can
  have a 257-digit key between them (`Fracdex.FullKeysMintTooLong`; `Fracdex.BetweenValidIff` says exactly when).
- `src/auth.rs:263-265` speaks of a per-minute window. A request of any key whose clock reading is
  ahead sweeps every window early, so with a lag of d ms the limit holds for intervals of
  60,000 - d ms (`RateWindow.NoWindowOverLimit`) and not for one millisecond more (`RateWindow.SkewLetsThrough`).
- `src/api/docprops.rs:93-97` says that proposing a block back unchanged is recognised as a no-op. The
  text is compared with that of the first block with the id, and a merge can leave two blocks with one id
  (`web/src/lib/block-id.ts:46-50`); the second one sent back is then taken for a change of the first
  (`DocOps.SharedIdIsTaken`). `DocOps.EchoExactly` gives the exact condition.
- Single flight rests on the generation number: it is a wrapping 64-bit counter, and a run that
  wraps it onto a number still in use breaks single flight (`QueryCacheFlight.WrapBreaksSingleFlight`, by
  2^64 invalidations during one operation; the store's own number is a signed 64-bit one and cannot
  reach the wrap alone). `QueryCacheFlight.StepFlight` states exactly which steps keep it.

## Model

| member | source | states |
|---|---|---|
| Fracdex.MidpointInside | src/fracdex.rs:125-170 | The recursive midpoint lands strictly inside every gap, ends in no lowest digit and is at most one digit longer than the longer bound; termination and the absence of slicing an empty `b` come with it. |
| Fracdex.BetweenLands | src/fracdex.rs:71-101 | For any two neighbours, valid or not, ordered or not: the key is above an accepted `a`, below an accepted `b` that was above it, and valid whenever both are shorter than the cap. |
| Fracdex.MidpointLength | src/fracdex.rs:125-170 | The length of the minted key, read off its bounds. |
| Fracdex.MidpointHalves | src/fracdex.rs:125-170 | The key halves its gap: at the scale of the first digit after the shared prefix, twice the key is less than three units from the sum of the bounds, an absent upper bound being the fraction 1. |
| Fracdex.MidpointPrefix | src/fracdex.rs:126-140 | A shared prefix is kept, and the rest is the key of the rest of the gap. |
| Fracdex.MidpointDigit | src/fracdex.rs:142-170 | Without a shared prefix the key is the one digit in the middle, rounded down, where there is one between the leading digits; else it is below a longer `b` or above `a`, decided one digit further on. |
| Fracdex.AbsentNeighbours | src/fracdex.rs:76-99 | A neighbour that is not accepted, or an upper one not above the lower, counts as absent. |
| Fracdex.BetweenValidIff | src/fracdex.rs:43-51 | The minted key is accepted back if and only if that length fits the cap; it misses by exactly one digit, and only next to a neighbour that fills the cap. |
| Fracdex.FullKeysMintTooLong | src/fracdex.rs:43-51 | Two accepted 256-digit keys between which only a 257-digit one is minted. |
| Fracdex.OrderAlmostNumeric | src/fracdex.rs:12-18 | On digit strings byte order never contradicts numeric order, and two fractions tie exactly when the larger string only adds lowest digits. |
| Fracdex.OrderIsNumeric | src/fracdex.rs:12-18 | On keys byte order is exactly the order of the fractions, and distinct keys name distinct fractions. |
| Fracdex.TrailingZeroTies | src/fracdex.rs:16-18 | Without the ban on a trailing lowest digit two strings would name one fraction. |
| Fracdex.LessTotal | src/fracdex.rs:20-22 | Byte order is total and strict. |
| Fracdex.Sequence | src/fracdex.rs:113-122 | The loop appends each key after the one before it, starting with the first key. |
| Fracdex.SeededKey | src/fracdex.rs:113-122 | Closed form of every seeded key, in every round. |
| Fracdex.SeededRing | src/fracdex.rs:108-122 | All seeded keys are valid iff there are at most 1536, and strictly ascending iff at most 1537. |
| Fracdex.SplitKey | src/fracdex.rs:149-169 | Closed form and length of every low-side split of the gap between the first two keys, one digit more every five splits, starting over after 1280. |
| RateWindow.Budget.Debit | src/auth.rs:271-299 | The locked section: the shared eviction pass, the caller's window, the decision and the new map. |
| RateWindow.MapStaysSmall | src/auth.rs:279-286 | After a request every other key in the map still has a charge of the last minute at the front of its window. |
| RateWindow.DropExpired | src/auth.rs:281-286 | The retain pass keeps exactly the non-empty remainders of the windows. |
| RateWindow.PopExpired | src/auth.rs:288-290 | The front-eviction loop leaves the part after the expired front. |
| RateWindow.DecisionsMatchReference | src/auth.rs:271-299 | Over any run in clock order every decision, with the wait it reports, is that of a limiter that keeps the full log of the key. |
| RateWindow.KeysAreIndependent | src/auth.rs:281-290 | What other keys do never changes a decision, although the eviction pass is shared. |
| RateWindow.NoWindowOverLimit | src/auth.rs:263-270 | With one limit for a key, and times that never lag an earlier one by more than d ms, no interval of 60,000 - d ms holds more accepted charges of it than the limit; in clock order d is zero. |
| RateWindow.SkewLetsThrough | src/auth.rs:278-290 | For every d below a minute, a run with that lag in which an interval one millisecond longer holds more. |
| RateWindow.SkewShares | src/auth.rs:281-290 | With such a lag a request of another key changes a decision. |
| RateWindow.WindowIsEnd | src/auth.rs:281-298 | In any order of times, a window is the end of its key's accepted charges, and what it dropped had left by some request. |
| RateWindow.AcceptedIsLog | src/auth.rs:271-299 | In clock order the accepted charges are the log of the limiter that forgets nothing. |
| RateWindow.RefusedIffFull | src/auth.rs:291-298 | In clock order a request is charged if and only if the last 60,000 ms hold fewer accepted charges of its key than its limit. |
| RateWindow.WaitBound | src/auth.rs:292-295 | The wait is the one number of seconds that is at least one, ends less than a second before the oldest charge leaves the window or later, and ends no later than that charge leaves or, in the last second, one second on. |
| RateWindow.RetryAfterWait | src/auth.rs:292-295 | A retry after the reported wait is accepted iff the charges over the limit leave by then; with the window exactly full, iff the remaining time was at most one second or whole seconds, and one second later always. |
| RateWindow.ZeroLimitRefuses | src/auth.rs:292-294 | A limit of zero or less refuses everything. |
| RateWindow.TouchLog.TouchLastUsed | src/auth.rs:146-166 | The touch map after a use, and whether the use is persisted. |
| RateWindow.TouchForgets | src/auth.rs:144-149 | A use forgets exactly the other credentials last persisted an hour ago or longer, and changes no other. |
| RateWindow.EvictionNeverDecides | src/auth.rs:144-149 | In clock order, forgetting entries after an hour never changes whether a use is persisted. |
| RateWindow.PersistedOnceAMinute | src/auth.rs:153-166 | Persisted uses of one credential are a minute apart, and a use goes unpersisted only within a minute of a persisted one. |
| QueryCache.Cache.constructor | src/query_embeddings.rs:61-70 | A new cache is the empty state with every permit free. |
| QueryCache.Cache.Invalidate | src/query_embeddings.rs:71-75 | The invalidation step: next generation, wrapping, and an empty map. |
| QueryCache.Cache.SynchronizeGeneration | src/query_embeddings.rs:76-82 | Only a larger generation renumbers and empties the cache. |
| QueryCache.Cache.IsCurrent | src/query_embeddings.rs:101-103 | Whether a generation is the current one. |
| QueryCache.Cache.LookUp | src/query_embeddings.rs:123-162 | The locked lookup section takes exactly one of the enabled outcomes: hit, miss with or without an eviction, or refusal. |
| QueryCache.OldestCompleted | src/query_embeddings.rs:140-145 | The victim is a completed entry with the least stamp, and there is none only if no entry is completed. |
| QueryCache.Cache.TryAcquire | src/query_embeddings.rs:191-216 | An operation takes a free permit or settles as throttled. |
| QueryCache.Cache.ChargeProvider | src/query_embeddings.rs:193-201 | The provider call is charged to its token, or the operation settles as throttled and returns its permit. |
| QueryCache.Cache.Settle | src/query_embeddings.rs:202-219 | A reply, failure or timeout returns the permit and settles the answer with a saturated expiry. |
| QueryCache.Cache.Finish | src/query_embeddings.rs:239-244 | Completion removes the entry of a failure of the current generation and sends the answer. |
| QueryCache.Cache.Abandon | src/query_embeddings.rs:170-245 | An operation that vanishes returns its permit and leaves its waiters a dead channel. |
| QueryCache.Cache.WakeUp | src/query_embeddings.rs:247-261 | A waiter takes its channel's answer, or clears the dead entry if it is still its own. |
| QueryCacheSafety.StepCore | src/query_embeddings.rs:114-262 | Every step of every interleaving keeps provenance of entries and answers, the capacity bound and the conservation of permits, wrapped counters or not. |
| QueryCacheSafety.RunCore | src/query_embeddings.rs:114-262 | The same in every state of every run. |
| QueryCacheFlight.StepFlight | src/query_embeddings.rs:123-162 | A step keeps single flight if and only if, when it renumbers the cache, no living operation already carries the new number. |
| QueryCacheFlight.RunFlight | src/query_embeddings.rs:123-162 | In every run that does not wrap the generation, each live operation of the current generation owns the entry of its key, so at most one runs per key and generation. |
| QueryCacheFlight.WrapBreaksSingleFlight | src/query_embeddings.rs:71-75 | A run of two lookups with 2^64 invalidations between them that ends with two live operations for one key and generation. |
| QueryCacheFlight.HitIsFresh | src/query_embeddings.rs:125-137 | A hit is on a living operation, or on an unexpired Ready answer, for this key, of this generation and since the last invalidation. |
| QueryCacheFlight.ServedForTtl | src/query_embeddings.rs:218-219 | An answer is served to exactly the lookups less than one time to live after it came, while that ends within 64 bits, saturation included. |
| QueryCacheFlight.RefusedIffAllInFlight | src/query_embeddings.rs:138-151 | A lookup is refused iff its key is absent and every slot is taken by an operation in flight. |
| QueryCacheFlight.RunStamped | src/query_embeddings.rs:132-137 | Until the lookup clock wraps, an entry's stamp is the number of the last lookup of its key. |
| QueryCacheFlight.EvictsLeastRecent | src/query_embeddings.rs:139-147 | Eviction takes the completed entry whose key was looked up longest ago. |
| QueryCacheFlight.PermitFree | src/query_embeddings.rs:191-216 | While all permits are held by operations of the current generation, a queued operation of it finds one free: permits throttle only across invalidations. |
| QueryCacheFlight.CallingBound | src/query_embeddings.rs:191-216 | Provider calls in flight, over all generations, never exceed the capacity. |
| QueryCacheFlight.OnlyChargesSpend | src/query_embeddings.rs:37-42 | No step but a charge touches the budget, so hits, waiters, failures and invalidations spend nothing. |
| QueryCacheFlight.ProviderBudget | src/query_embeddings.rs:193-201 | In every run whose charges lag by at most d ms, no interval of 60,000 - d ms holds more than 60 provider calls of one token, each charged once. |
| QueryCacheFlight.RunProvenance | src/query_embeddings.rs:239-244 | In every state of every run an answered call carries the answer of a channel for its own key with no invalidation in between, and completed entries are Ready. |
| QueryCacheFlight.WakeFreesDeadSlot | src/query_embeddings.rs:251-258 | Once a waiter notices a dead operation, no entry points at it. |
| QueryCacheFlight.SentIsFinal | src/query_embeddings.rs:244-250 | What a channel once sent never changes, so its waiters agree. |
| QueryCacheAnswers.AnswersAreTold | src/query_embeddings.rs:191-217 | In every state of every run a settled channel holds Throttled iff it never called the provider, a vector only if the provider answered it with that vector, and Unavailable only if the provider failed or timed out. |
| QueryCacheAnswers.ReadyIsProviders | src/query_embeddings.rs:247-261 | A call answered Ready got a vector the provider gave for its own key. |
| QueryCacheAnswers.CachedIsProviders | src/query_embeddings.rs:239-245 | So did every completed entry of the map: no refusal, failure or death is ever cached. |
| QueryCacheAnswers.PermitExactly | src/query_embeddings.rs:191-216 | An operation gets a permit iff fewer are held than there are, and is throttled otherwise. |
| QueryCacheAnswers.ChargeExactly | src/query_embeddings.rs:193-201 | With the token's charges in clock order, the provider is called iff fewer than 60 calls were made for it in the last 60,000 ms, and the operation is throttled otherwise. |
| QueryCacheAnswers.HitExactly | src/query_embeddings.rs:125-137 | A lookup hits iff its key has an entry whose answer is unexpired or whose operation is not dead. |
| QueryCacheAnswers.VectorIsCached | src/query_embeddings.rs:218-244 | From the provider's answer to the next lookup: the vector is hit for exactly one time to live. |
| QueryCacheAnswers.FailureIsNotCached | src/query_embeddings.rs:240-242 | A provider failure of the current generation settles as Unavailable and is not hit afterwards. |
| QueryCacheAnswers.SynchronizeTakesLarger | src/query_embeddings.rs:76-82 | The number becomes the larger of the two, and the map is emptied only by a larger one. |
| QueryCacheAnswers.RunHistories | src/query_embeddings.rs:123-162 | The calls and the charges of a run are exactly its lookups and charge actions, for their own keys, generations and tokens. |
| Calendar.DaysInMonthIsLength | src/schedule.rs:366-374 | The difference of two first days is the calendar's month length, leap years included. |
| Calendar.ClampsToMonthEnd | src/schedule.rs:376-380 | A day past the end of a short month is its last day, one before its start its first; any other is itself. |
| Calendar.MonthUnique | src/schedule.rs:240-252 | A date lies in exactly one month. |
| Calendar.YmdRoundTrip | src/schedule.rs:243-244 | A year, month and day name a date that names them back. |
| Calendar.KnownDates | src/schedule.rs:243-252 | 1 January 1970 and 29 February 2000 have the day numbers and weekdays of the common calendar. |
| Calendar.WeekStartIsMonday | src/schedule.rs:360-364 | The week start is the Monday of the date's week, the same for all its seven days. |
| Zone.FirstIsLeast | src/schedule.rs:322-328 | The least instant whose wall clock has reached a requested time, in any zone. |
| Zone.OffsetInForce | src/schedule.rs:233-238 | The offset at an instant is that of the latest change up to it, or the first one before any. |
| Zone.CandidateInstant | src/schedule.rs:333-336 | Candidates below the reached wall clock do not exist, and the reached one resolves to the least instant, the earlier of two. |
| Zone.ResolveLocal | src/schedule.rs:329-340 | The minute loop finds exactly that instant, or nothing when it is more than 240 minutes past. |
| Zone.ResolvedIff | src/schedule.rs:322-340 | Exactly when a wall-clock time resolves, to what, and when to the requested time itself. |
| Zone.SmallShiftResolves | src/schedule.rs:43-46 | Where no change skips more than 240 minutes, every time resolves. |
| Zone.SkippedDayIsDropped | src/schedule.rs:324-326 | A zone that skips a whole day drops that day's occurrence. |
| Schedule.HhmmRoundTrip | src/schedule.rs:342-358 | Exactly one spelling is accepted for each minute of the day. |
| Schedule.CheckWeekdays | src/schedule.rs:163-170 | Exactly the tokens that are no weekdays are reported. |
| Schedule.CheckUnit | src/schedule.rs:155-208 | Each problem with the unit's own fields is reported iff it is there. |
| Schedule.Validate | src/schedule.rs:121-210 | Nothing is reported iff the cadence is usable, and each problem is reported iff it is there. |
| Schedule.ScanFinds | src/schedule.rs:34-41 | The day and month horizons always hold a later occurrence of a usable cadence, up to interval 52. |
| Schedule.ScanDays | src/schedule.rs:257-268 | The day scan returns the least slot after the instant, and nothing only if the range holds none. |
| Schedule.MonthSlot | src/schedule.rs:242-251 | What one month of the scan offers. |
| Schedule.ScanMonths | src/schedule.rs:239-255 | The same for the month scan. |
| Schedule.NextSlotAfter | src/schedule.rs:220-269 | The result is the least minute after the instant on which a date of the cadence falls, in the zone asked for and at the time spelled out: first instant whose wall clock has reached it, at most 240 minutes past it. None if the text spells no time, and else only if no date within the scan falls after the instant, which cannot be for a usable cadence where changes shift at most 240 minutes. |
| Schedule.KeepsPromise | src/schedule.rs:213-269 | The least slot the scans find is that answer, read without the model's own zone lookup, time parser or resolution. |
| Schedule.OccursIff | src/schedule.rs:322-340 | A date's occurrence is the first instant its wall clock reaches date, hour and minute, at most 240 minutes past, and exactly them where they exist. |
| Schedule.CadenceDateIff | src/schedule.rs:283-319 | The dates of a cadence are those whole intervals of days, Monday weeks or months from the anchor's, on a named weekday or on the day clamped to the month. |
| Schedule.NextExists | src/schedule.rs:227-228 | There is a next slot after every minute. |
| Schedule.NextMonotone | src/schedule.rs:229-269 | The next slot is monotone in the instant and constant on each half-open gap. |
| Schedule.SlotBefore | src/schedule.rs:298-319 | Slots reach back without end: being before the anchor rules out none. |
| Schedule.OwningSlot | src/schedule.rs:271-276 | Every minute belongs to exactly one slot, from the slot until it expires. |
| Schedule.DayDates | src/schedule.rs:300-303 | The dates of a day cadence are exactly whole intervals of days from the anchor. |
| Schedule.WeekDates | src/schedule.rs:304-311 | Those of a week cadence are exactly the wanted weekdays of weeks whole intervals from the anchor's. |
| Schedule.MonthDates | src/schedule.rs:316-319 | Those of a month cadence are exactly the wanted or last day of months whole intervals from the anchor's. |
| Schedule.WeekAnchor | src/schedule.rs:304-311 | Moving the anchor inside its week or by whole intervals of weeks changes no date. |
| EventStream.SelectMembers | src/store/events.rs:29-65 | The selected events are exactly the matching ones past the cursor, in order. |
| EventStream.PageThenRest | src/store/events.rs:81-82 | A page and the reads after its cursor are together what one read would give, for every page size, and the page is full unless nothing is left. |
| EventStream.Doorbell.constructor | src/api/events.rs:93-94 | An empty log with no streams. |
| EventStream.Doorbell.CommitEvents | src/server.rs:111-114 | A commit appends events whose writer has yet to ring. |
| EventStream.Doorbell.NotifyWaiters | src/server.rs:111-114 | Ringing reaches the registered waiters and stores nothing for later ones. |
| EventStream.Doorbell.Open | src/api/events.rs:89-91 | A stream starts at its resume point. |
| EventStream.Doorbell.RegisterInterest | src/api/events.rs:95-98 | Registration comes before the check. |
| EventStream.Doorbell.CheckLog | src/api/events.rs:100-119 | The check emits a batch and moves the cursor, waits, or ends the stream. |
| EventStream.Doorbell.Yield | src/api/events.rs:103-108 | Events go out one at a time, in order. |
| EventStream.Doorbell.WakeUp | src/api/events.rs:110-112 | A notified waiter starts over. |
| EventStream.StepInv | src/api/events.rs:93-121 | Every step keeps: what a stream emitted is what it read, and whatever a parked, un-notified stream still misses has its ring pending. |
| EventStream.RunInv | src/api/events.rs:93-121 | No lost wake-up and no reordering in any state of any run. |
| EventStream.EmittedIsPrefix | src/api/events.rs:93-121 | Each matching event is emitted at most once, in order. |
| EventStream.QuietMeansComplete | src/api/events.rs:93-121 | When all writers have rung, a sleeping stream has emitted exactly the matching events past its start. |
| EventStream.SettlesComplete | src/api/events.rs:93-121 | Progress: when all writers have rung, every open stream comes to wait within a bound read off what it has yet to read, and has then emitted exactly the matching events. |
| EventStream.ResumeSeamless | src/api/events.rs:74-91 | Resuming with the last received number loses and repeats nothing. |
| EventStream.RunOpened | src/api/events.rs:74-94 | In every run the streams are those the clients opened, with the filter and resume point each asked for, and the log is what was committed. |
| EventStream.RunTold | src/api/events.rs:93-121 | In every run the rings still due are those of the commits not rung for, a stream is closed iff its client left or one of its reads failed, and a waiting one is notified iff the doorbell rang since it last registered. |
| EventStream.CheckReads | src/api/events.rs:100-112 | A read hands over the first 500 events due, or all there are, and moves to the last of them; with none due the stream waits where it is. |
| EventStream.OwedIsOne | src/store/events.rs:29-65 | What a client is owed, ascending events past its resume point that pass each condition it set, is one list. |
| EventStream.RunEmits | src/api/events.rs:85-121 | In every state of every run a stream has emitted a beginning of what the client that opened it is owed of the committed events, and all of it once all writers have rung and it waits. |
| EventStream.RunResumes | src/api/events.rs:74-121 | A client that reconnects with the last number it received gets on the two streams together what one would have given it. |
| Workflow.ParseIffRendered | src/workflow.rs:69-105 | A requirement is accepted iff it is the spelling of one the server can enforce, and read as that one. |
| Workflow.RefusedSpelling | src/workflow.rs:69-105 | The spellings refused as an empty scope, as unknown, and as an unknown guard. |
| Workflow.RefusedKey | src/workflow.rs:85-98 | A link guard is refused as having no key iff its key is blank, and as spaced iff white space stands at an end of it. |
| Workflow.CheckStates | src/workflow.rs:133-158 | Each problem with a state is reported iff it is there, under its id; there is none iff ids are distinct and states fit. |
| Workflow.CheckState | src/workflow.rs:134-157 | The problems of one state. |
| Workflow.CollectIds | src/workflow.rs:160-174 | The ids and the terminal ids. |
| Workflow.CheckTransitions | src/workflow.rs:176-200 | Each problem with a transition is reported iff it is there, under its two states; there is none iff all transitions fit. |
| Workflow.CheckTransition | src/workflow.rs:177-199 | The problems of one transition. |
| Workflow.CheckRequirements | src/workflow.rs:195-199 | Exactly the requirements that do not parse are reported, with their error. |
| Workflow.Predecessors | src/workflow.rs:216-223 | The predecessor map lists exactly the edges. |
| Workflow.ReachTerminal | src/workflow.rs:224-233 | The worklist finds exactly the states with a path to a terminal one. |
| Workflow.CheckPaths | src/workflow.rs:234-241 | Exactly the non-terminal states without such a path are reported. |
| Workflow.StrandedIn | src/workflow.rs:244-250 | Exactly the states in use that are not defined any more, in the order given. |
| Workflow.Validate | src/workflow.rs:118-262 | Nothing is reported iff the workflow is acceptable, and each problem, stranding states included, is reported iff it is there. |
| Workflow.ValidateBody | src/workflow.rs:133-259 | The same for a workflow that has states. |
| Workflow.TerminalAbsorbs | src/workflow.rs:176-182 | In an accepted workflow no transition leaves a terminal state. |
| Workflow.NeverStranded | src/workflow.rs:118-121 | Every run from the initial state or a state in use stays in defined states, with a terminal state fewer than as many transitions away as there are states. |
| Markup.LexWrite | src/api/docprops.rs:178-279 | Reading back written tokens gives those tokens: no value or text can be taken for markup. |
| Text.TrimParts | src/workflow.rs:88-97 | Trimming takes white space from both ends, all of it and nothing else. |
| ElementHtml.EscapeIsCharwise | src/api/docprops.rs:171-176 | The four replacements in their order are one pass over the characters. |
| ElementHtml.RenderAttributes | src/api/docprops.rs:208-237 | The attributes of a cell or a list, escaped and in order. |
| ElementHtml.CollectWidths | src/api/docprops.rs:215-222 | The column widths: non-negative numbers only, truncated and saturated. |
| ElementHtml.RenderRun | src/api/docprops.rs:243-266 | A run inside its marks, later ones outermost, and its link outside all of them. |
| ElementHtml.OneMark | src/api/docprops.rs:243-264 | Which tag each single mark puts around the text, and none when it is off. |
| ElementHtml.EveryMark | src/api/docprops.rs:243-266 | All marks and a link together: the order of the tags from the link inwards. |
| ElementHtml.TagNameListed | src/api/docprops.rs:185-207 | Every stored name becomes a tag of the fixed list, and only breaks and rules become void tags. |
| ElementHtml.TagsStandFor | src/api/docprops.rs:185-207 | Which tag each stored name is shown as, and a plain one for any other name. |
| ElementHtml.HeadingKeepsLevel | src/api/docprops.rs:198-205 | A heading keeps a level from two to six and is of the first otherwise. |
| ElementHtml.OnlyCodeIsPre | src/api/docprops.rs:185-207 | Code blocks, and nothing else, are shown as preformatted. |
| ElementHtml.ElementShape | src/api/docprops.rs:178-279 | What each kind of element is written as around its children. |
| ElementHtml.AllTokensAppend | src/api/docprops.rs:238-271 | Children are written one after the other, none dropped or moved. |
| ElementHtml.AllTokensOne | src/api/docprops.rs:238-271 | One child is written as itself. |
| ElementHtml.CastTruncates | src/api/docprops.rs:215-222 | A cast drops what is behind the point and stops at the ends of the range. |
| ElementHtml.ParseExactly | src/api/docprops.rs:296-303 | Text is a number iff it is digits that say it behind at most one sign and it fits 64 bits. |
| ElementHtml.ParseReadsDecimal | src/api/docprops.rs:296-303 | The decimal of a 64-bit number is read back as it. |
| ElementHtml.NumbersAreRead | src/api/docprops.rs:296-303 | A whole number is the same stored as a float, an integer or text, and any other kind of value is none. |
| ElementHtml.FloatsAreCut | src/api/docprops.rs:296-303 | A float is cut to a 64-bit whole number. |
| ElementHtml.CellKeeps | src/api/docprops.rs:209-214 | A cell, header or not, keeps a positive span and no other. |
| ElementHtml.CellAligned | src/api/docprops.rs:223-229 | It keeps the three alignments and no other. |
| ElementHtml.CellWidths | src/api/docprops.rs:215-222 | It has widths iff any are left. |
| ElementHtml.ListStarts | src/api/docprops.rs:231-236 | A numbered list keeps its start, a bulleted one has none. |
| ElementHtml.WidthsAppend | src/api/docprops.rs:215-222 | Widths are read one by one, in order. |
| ElementHtml.WidthsOne | src/api/docprops.rs:215-222 | One width: cut to whole pixels, saturated, dropped when negative or no number. |
| ElementHtml.AttributesAllowed | src/api/docprops.rs:208-237 | Attributes are only those the tag may have, with only the values they may have. |
| ElementHtml.ShowsNode | src/api/docprops.rs:178-279 | For every tree: listed tags and attributes only, every closing tag closes the innermost open one, and the characters left are the tree's text in order. |
| ElementHtml.ReadsBack | src/api/docprops.rs:178-279 | The written text reads back as exactly the tree's tokens. |
| ElementHtml.RenderChildren | src/api/docprops.rs:238-271 | The body built in the loop is what the children stand for, fragments dropped. |
| ElementHtml.Render | src/api/docprops.rs:178-279 | The output of the recursive method parses, and what it parses to shows exactly the tree's text in balanced, listed tags. |
| DocOps.QuoteLines | src/api/docprops.rs:331-336 | A quote is shown as its lines, each marked, iff no line but the last still ends in a carriage return once the text is split. |
| DocOps.ListLines | src/api/docprops.rs:338-350 | A list is shown as one line an item, bulleted or numbered from one, iff no item holds a newline and none but the last ends in a carriage return. |
| DocOps.ShownText | src/api/docprops.rs:320-355 | What every kind without lines of its own is shown as, a heading behind one to six marks. |
| DocOps.ByteLengthIs | src/api/docprops.rs:518-524 | The size of a text is the length of its UTF-8 encoding. |
| DocOps.Utf8RoundTrip | src/api/docprops.rs:518-524 | That encoding of a character is one to four bytes, announced by the first, and is read back. |
| DocOps.CheckItem | src/api/docprops.rs:447-537 | The loop body's early exits agree with the ordered checks on one item. |
| DocOps.ValidateOps | src/api/docprops.rs:408-574 | The loop collects the accepted and the skipped, and answers or refuses the batch. |
| DocOps.AcceptedExactly | src/api/docprops.rs:447-537 | An item becomes an operation iff it spells one out that is known, in scope, not blank, within size and not a no-op. |
| DocOps.SkippedExactly | src/api/docprops.rs:447-537 | An item is skipped for a reason iff that is the first fault it has. |
| DocOps.OutcomeTells | src/api/docprops.rs:385-393 | Whatever the answer to a batch that is one, the operations and skipped lines in it tell every verdict. |
| DocOps.NoChangeExactly | src/api/docprops.rs:495-517 | "No change" is said exactly of a non-blank replacement whose visible text the block already has. |
| DocOps.NothingLost | src/api/docprops.rs:385-393 | Each item yields exactly one operation or one skipped line, in order: the verdicts can be told from the two lists. |
| DocOps.Revalidates | src/api/docprops.rs:395-413 | Sending the accepted operations again accepts all of them unchanged and skips none. |
| DocOps.OutcomeExactly | src/api/docprops.rs:414-573 | Each answer to a batch with the condition that brings it about. |
| DocOps.EchoExactly | src/api/docprops.rs:499-517 | When a document sent back as it was read, in any scope, is answered as unchanged and when it is taken for a change, repeated ids and blocks without one included. |
| DocOps.UniqueEchoIsNoChange | src/api/docprops.rs:91-97 | While no two blocks share an id it is never taken for a change. |
| DocOps.SharedIdIsTaken | src/api/docprops.rs:508-517 | Two paragraphs with one id and different texts: the second sent back is taken for a change of the first. |
| DocOps.SharedIdExample | web/src/lib/block-id.ts:46-50 | The smallest such document: paragraphs "a" and "b" with one id. |
| TreeScope.ReadTree | src/github_scope.rs:31-36 | A tree comes from the cache, from the reader, or is one too many. |
| TreeScope.Component | src/github_scope.rs:31-57 | One component through the cache advances as without it. |
| TreeScope.FollowPath | src/github_scope.rs:19-58 | The inner loop walks one path as without the cache. |
| TreeScope.VerifyPaths | src/github_scope.rs:12-61 | The answer is the uncached walk's unless that reads more than 16 different trees; the reader is asked for the first 16 of them, each once, in order. |
| TreeScope.PartsJoin | src/github_scope.rs:19-24 | A path has at least one component, components hold no slash, and joined they give the path back. |
| TreeScope.FindEntryFirst | src/github_scope.rs:44-45 | The entry used is the first with the name. |
| TreeScope.RefusedFor | src/github_scope.rs:38-56 | What one component is refused for, first fault first. |
| TreeScope.MalformedRefused | src/github_scope.rs:26-30 | Nothing is looked up under an identity that is not forty hexadecimal digits. |
| TreeScope.LinksRefused | src/github_scope.rs:46-51 | Symbolic links and submodules are refused, last or not. |
| TreeScope.DotIsRoot | src/github_scope.rs:20-21 | The whole repository is in scope without a read. |
| TreeScope.WalkResolves | src/github_scope.rs:25-58 | The walk of a path ends well iff a chain of complete listings leads along its components to a regular file or folder. |
| TreeScope.AcceptedIffAllExist | src/github_scope.rs:12-61 | The check passes iff every path exists and at most 16 different trees are needed. |
| RenderCache.EvictsLeast | src/diagrams.rs:171-177 | What is left after eviction is the longest suffix with room for the new output. |
| RenderCache.StoreKeeps | src/diagrams.rs:168-180 | Storing keeps keys unique and both caps, and a key already present keeps its output. |
| RenderCache.RunBounded | src/diagrams.rs:8-17 | The same over any run; nothing is in the cache that was not stored. |
| RenderCache.HitWasStored | src/diagrams.rs:97-107 | A hit returns an output that was stored under that very key. |
| RenderCache.Retained | src/diagrams.rs:168-180 | An entry outlives further stores as long as they, it and the entries behind it keep within both caps. |
| RenderCache.Cache.constructor | src/diagrams.rs:12-16 | An empty cache. |
| RenderCache.Cache.Lookup | src/diagrams.rs:97-107 | The first entry with the key. |
| RenderCache.Cache.Store | src/diagrams.rs:168-180 | The eviction loop ends, leaves that suffix with the new output behind it, and the byte count stays the sum of the stored lengths. |
| RenderCache.ReadBody | src/diagrams.rs:149-155 | A body is refused iff its chunks are together over the limit, however they are cut. |
| RenderCache.JoinedAppend | src/diagrams.rs:149-155 | The body is its parts in the order they came. |
| RenderCache.JoinedOne | src/diagrams.rs:149-155 | One chunk is its own body. |
| Svg.CheckAttributes | src/diagrams.rs:203-216 | The first faulty attribute decides. |
| Svg.FirstFault | src/diagrams.rs:203-216 | The first attribute at fault decides: an external image if it can be read. |
| Svg.LocalNameIs | src/diagrams.rs:203-216 | A name has one local part, behind its first colon. |
| Svg.ExternalHasTag | src/diagrams.rs:203-216 | External images are only spoken of in D2 diagrams, and for a tag with a faulty attribute. |
| Svg.ValidateSvg | src/diagrams.rs:187-246 | A document passes iff it belongs to the grammar. |
| Svg.AcceptsDocuments | src/diagrams.rs:187-246 | One pass with a depth counter accepts exactly: one element called svg, well nested, with only blank text, comments and the like beside it. |
| Base64Url.DecodesExactly | src/ids.rs:226-247 | A strict reader accepts exactly the encodings and reads each as its bytes, so no two byte strings share one. |
| Base64Url.EncodedLength | src/ids.rs:230-247 | The length is 4n/3 rounded up, in the alphabet only. |
| Base64Url.EncodeChunk | src/ids.rs:234-244 | The accumulator and its six-bit slices give the groups of the format, short chunks included. |
| Base64Url.EncodeBytes | src/ids.rs:230-247 | The nested loops produce that encoding. |

## Left out

- The persistent half of the query cache (`get_persistent`): only lookups without a store are modelled.
- Machine integers: the 64-bit wrap of the generation and the lookup clock and the saturation of expiries and casts are modelled; times, limits and counts elsewhere are unbounded integers.
- The hash that makes a cache identity or a diagram source into a key, and the bytes of stored vectors.
- QueryCache.Cache.LookUp: does not model the clock being read once per entry inside the pass; one reading serves the whole step.
- RateWindow.DecisionsMatchReference: is stated for times handed over in order, because the source reads the clock before it takes the lock; out of order a window can be swept early.
- RateWindow.KeysAreIndependent: is stated for times handed over in order, for the same reason; `RateWindow.SkewShares` is the counterexample.
- RateWindow.RefusedIffFull: is stated for times handed over in order, for the same reason.
- Schedule.NextSlotAfter: does not model the first and last date of the date library, at which a scan would stop early; dates are unbounded.
- Zone.ResolveLocal: does not model offsets with seconds or two clock changes within two days.
- Cadence parsing, the cron hint and the template placeholders of a schedule, and the prose of all validation messages; problems are tags.
- The HTTP side of the event stream: headers, keep-alive and the long poll of `list`, whose read is the same cursor read.
- The store behind the event log beyond `events_since`, and every other store operation.
- `Workflow::state`, `transitions_from` and the shipped workflows: one-line lookups and data.
- ElementHtml.Render: takes the text a section reference resolves to as part of the tree; the resolution is store code. A non-string `align` is taken to be absent, which its text could never match.
- `read_blocks`, `annotate`, proposals and their acceptance: they read and write a shared document that is not modelled.
- TreeScope.VerifyPaths: does not model a reader that answers the same identity differently on a second request.
- The renderer's transport, its permit limit and the choice of engines; XML tokenising, so an SVG is the events a reader yields for it.
- Tokens, scopes, random identifiers, SHA-256 and the PKCE comparison around the encoding.
