/** The event log's cursor reads and the doorbell stream on top of them (`stream` and
    `list` in src/api/events.rs, `AppState::wake` in src/server.rs).

    Writers commit events and ring the doorbell in two separate steps. The doorbell wakes
    the waiters registered at that moment and remembers nothing for later ones. */
module EventStream {
  import opened Prelude

  const BATCH := 500

  datatype Event = Event(seqno: int, ticket: Option<string>, project: string, kind: string)

  datatype Filter = Filter(project: Option<string>, ticket: Option<string>, kinds: seq<string>, allowed: Option<seq<string>>)

  predicate Matches(e: Event, f: Filter) {
    && (f.project.Some? ==> e.project == f.project.value)
    && (f.ticket.Some? ==> e.ticket == f.ticket)
    && (f.kinds != [] ==> e.kind in f.kinds)
    && (f.allowed.Some? ==> e.project in f.allowed.value)
  }

  type Log = seq<Event>

  /** Sequence numbers are handed out in commit order. */
  ghost predicate Ascending(log: Log) {
    forall i, j :: 0 <= i < j < |log| ==> log[i].seqno < log[j].seqno
  }

  // ---- Cursor reads -----------------------------------------------------------------

  /** The matching events past a cursor, oldest first. */
  function Select(log: Log, since: int, f: Filter): seq<Event> {
    if log == [] then []
    else Picked(log[0], since, f) + Select(log[1..], since, f)
  }

  function Picked(e: Event, since: int, f: Filter): seq<Event> {
    if e.seqno > since && Matches(e, f) then [e] else []
  }

  /** The natural contract of the store's read: at most `limit` matching events past the
      cursor, oldest first, and the sequence number of the last one as the new cursor. */
  function EventsSince(log: Log, since: int, f: Filter, limit: nat): (r: (seq<Event>, int)) {
    var all := Select(log, since, f);
    var events := if |all| <= limit then all else all[..limit];
    (events, if events == [] then since else events[|events| - 1].seqno)
  }

  lemma {:induction false} SelectMembers(log: Log, since: int, f: Filter)
    requires Ascending(log)
    ensures Ascending(Select(log, since, f))
    ensures forall e :: e in Select(log, since, f) <==> e in log && e.seqno > since && Matches(e, f)
  {
    if log != [] {
      SelectMembers(log[1..], since, f);
      assert log == [log[0]] + log[1..];
      forall e | e in log[1..]
        ensures log[0].seqno < e.seqno
      {
      }
    }
  }

  lemma Associate(a: seq<Event>, b: seq<Event>, c: seq<Event>)
    ensures a + (b + c) == a + b + c
  {
  }

  lemma {:induction false} SelectAppend(log: Log, more: Log, since: int, f: Filter)
    ensures Select(log + more, since, f) == Select(log, since, f) + Select(more, since, f)
  {
    if log == [] {
      assert log + more == more;
    } else {
      SelectAppend(log[1..], more, since, f);
      assert (log + more)[0] == log[0] && (log + more)[1..] == log[1..] + more;
      Associate(Picked(log[0], since, f), Select(log[1..], since, f), Select(more, since, f));
    }
  }

  lemma {:induction false} SelectAll(log: Log, since: int, mid: int, f: Filter)
    requires Ascending(log) && since <= mid && (log != [] ==> log[0].seqno > mid)
    ensures Select(log, since, f) == Select(log, mid, f)
  {
    if log != [] {
      SelectAll(log[1..], since, mid, f);
    }
  }

  lemma SelectPast(log: Log, since: int, f: Filter, k: nat)
    requires Ascending(log) && k < |Select(log, since, f)|
    ensures Select(log, since, f)[k].seqno > since && Select(log, since, f)[k] in log
  {
    SelectMembers(log, since, f);
    assert Select(log, since, f)[k] in Select(log, since, f);
  }

  lemma SelectStep(log: Log, since: int, f: Filter, cursor: int)
    requires Ascending(log) && log != [] && since < cursor
    requires log[0].seqno <= cursor || !Matches(log[0], f)
    ensures Ascending(log[1..]) && Select(log, cursor, f) == Select(log[1..], cursor, f)
  {
  }

  /** Reading on from the number of a selected event selects exactly what follows it. */
  lemma {:induction false} SelectFrom(log: Log, since: int, f: Filter, k: nat)
    requires Ascending(log) && 0 < k <= |Select(log, since, f)|
    ensures Select(log, Select(log, since, f)[k - 1].seqno, f) == Select(log, since, f)[k..]
  {
    var all, rest := Select(log, since, f), Select(log[1..], since, f);
    var cursor := all[k - 1].seqno;
    SelectPast(log, since, f, k - 1);
    if log[0].seqno > since && Matches(log[0], f) {
      assert all == [log[0]] + rest;
      assert all[k..] == rest[k - 1..];
      SelectStep(log, since, f, cursor);
      if k == 1 {
        SelectAll(log[1..], since, cursor, f);
      } else {
        assert all[k - 1] == rest[k - 2];
        SelectFrom(log[1..], since, f, k - 1);
      }
    } else {
      assert all == rest;
      SelectStep(log, since, f, cursor);
      SelectFrom(log[1..], since, f, k);
    }
  }

  /** The cursor after the first `k` of the selected events. */
  function CursorAfter(all: seq<Event>, since: int, k: nat): int
    requires k <= |all|
  {
    if k == 0 then since else all[k - 1].seqno
  }

  lemma ReadOn(log: Log, since: int, f: Filter, all: seq<Event>, k: nat)
    requires Ascending(log) && all == Select(log, since, f) && k <= |all|
    ensures all == all[..k] + Select(log, CursorAfter(all, since, k), f)
    ensures since <= CursorAfter(all, since, k) && (k > 0 <==> since < CursorAfter(all, since, k))
  {
    if k > 0 {
      SelectFrom(log, since, f, k);
      SelectPast(log, since, f, k - 1);
      assert all == all[..k] + all[k..];
    } else {
      assert all[..0] + all == all;
    }
  }

  lemma PageIs(log: Log, since: int, f: Filter, limit: nat, all: seq<Event>) returns (k: nat)
    requires all == Select(log, since, f)
    ensures k <= |all| && EventsSince(log, since, f, limit) == (all[..k], CursorAfter(all, since, k))
    ensures k == if |all| <= limit then |all| else limit
  {
    k := if |all| <= limit then |all| else limit;
    assert all[..|all|] == all;
  }

  /** Following the cursor page by page reads every matching event once, in order, and
      skips none, whatever the page size. */
  lemma PageThenRest(log: Log, since: int, f: Filter, limit: nat)
    requires Ascending(log)
    ensures var (events, cursor) := EventsSince(log, since, f, limit);
            && Select(log, since, f) == events + Select(log, cursor, f)
            && since <= cursor && (events != [] <==> since < cursor)
            && |events| == (if |Select(log, since, f)| <= limit then |Select(log, since, f)| else limit)
  {
    var all := Select(log, since, f);
    var k := PageIs(log, since, f, limit, all);
    ReadOn(log, since, f, all, k);
  }

  // ---- The stream loop ----------------------------------------------------------------

  /** Where the loop of one stream stands. A registration lives while the stream is
      `Armed` or `Parked`, and remembers whether the doorbell rang since it was made. */
  datatype Phase =
    | Top
    | Armed(notified: bool)
    | Emitting(rest: seq<Event>)
    | Parked(notified: bool)
    | Closed

  datatype Stream = Stream(filter: Filter, start: int, cursor: int, phase: Phase, emitted: seq<Event>)

  /** `pending` holds the numbers of committed events whose writer has yet to ring. */
  datatype State = State(log: Log, pending: set<int>, streams: seq<Stream>)

  datatype Action =
    | Commit(batch: Log)
    | Wake(done: set<int>)
    | Connect(filter: Filter, start: int)
    | Register(i: nat)
    | Check(i: nat, fails: bool)
    | Emit(i: nat)
    | Resume(i: nat)
    | Leave(i: nat)

  predicate Enabled(s: State, a: Action) {
    match a
    case Commit(batch) => (forall i, j :: 0 <= i < j < |batch| ==> batch[i].seqno < batch[j].seqno)
                          && (forall e, n :: e in s.log && n in batch ==> e.seqno < n.seqno)
    case Wake(done) => done <= s.pending
    case Connect(_, _) => true
    case Register(i) => i < |s.streams| && s.streams[i].phase.Top?
    case Check(i, _) => i < |s.streams| && s.streams[i].phase.Armed?
    case Emit(i) => i < |s.streams| && s.streams[i].phase.Emitting?
    case Resume(i) => i < |s.streams| && s.streams[i].phase == Parked(true)
    case Leave(i) => i < |s.streams| && !s.streams[i].phase.Closed?
  }

  function Rung(st: Stream): Stream {
    match st.phase
    case Armed(_) => st.(phase := Armed(true))
    case Parked(_) => st.(phase := Parked(true))
    case _ => st
  }

  function Checked(log: Log, st: Stream, fails: bool): Stream
    requires st.phase.Armed?
  {
    if fails then st.(phase := Closed)
    else
      var (events, cursor) := EventsSince(log, st.cursor, st.filter, BATCH);
      if events != [] then st.(cursor := cursor, phase := Emitting(events))
      else st.(phase := Parked(st.phase.notified))
  }

  function EmittedOne(st: Stream): Stream
    requires st.phase.Emitting?
  {
    if st.phase.rest == [] then st.(phase := Top)
    else st.(phase := Emitting(st.phase.rest[1..]), emitted := st.emitted + [st.phase.rest[0]])
  }

  function Next(s: State, a: Action): State
    requires Enabled(s, a)
  {
    match a
    case Commit(batch) =>
      s.(log := s.log + batch, pending := s.pending + set e | e in batch :: e.seqno)
    case Wake(done) =>
      s.(pending := s.pending - done, streams := seq(|s.streams|, i requires 0 <= i < |s.streams| => Rung(s.streams[i])))
    case Connect(filter, start) => s.(streams := s.streams + [Stream(filter, start, start, Top, [])])
    case Register(i) => s.(streams := s.streams[i := s.streams[i].(phase := Armed(false))])
    case Check(i, fails) => s.(streams := s.streams[i := Checked(s.log, s.streams[i], fails)])
    case Emit(i) => s.(streams := s.streams[i := EmittedOne(s.streams[i])])
    case Resume(i) => s.(streams := s.streams[i := s.streams[i].(phase := Top)])
    case Leave(i) => s.(streams := s.streams[i := s.streams[i].(phase := Closed)])
  }

  // ---- What every interleaving keeps ------------------------------------------------------

  /** What a stream has read: exactly the matching events between its start and its
      cursor, in order; what it has yet to hand out of them is at the end. */
  ghost predicate InOrder(log: Log, st: Stream) {
    && st.start <= st.cursor
    && (st.start < st.cursor ==> exists e :: e in log && e.seqno == st.cursor)
    && match st.phase
       case Emitting(rest) => Select(log, st.start, st.filter) == st.emitted + rest + Select(log, st.cursor, st.filter)
       case Closed => st.emitted <= Select(log, st.start, st.filter)
       case _ => Select(log, st.start, st.filter) == st.emitted + Select(log, st.cursor, st.filter)
  }

  /** No lost wake-up: whatever a parked stream that has not been notified would still
      have to emit, its writer has yet to ring for. */
  ghost predicate Covered(s: State, st: Stream) {
    st.phase == Parked(false) ==>
      forall e :: e in s.log && e.seqno > st.cursor && Matches(e, st.filter) ==> e.seqno in s.pending
  }

  ghost predicate Inv(s: State) {
    && Ascending(s.log)
    && forall i :: 0 <= i < |s.streams| ==> InOrder(s.log, s.streams[i]) && Covered(s, s.streams[i])
  }

  lemma CursorSeen(log: Log, batch: Log, st: Stream)
    requires Ascending(log + batch) && InOrder(log, st)
    ensures Ascending(batch) && (st.start < st.cursor && batch != [] ==> batch[0].seqno > st.cursor)
    ensures st.start < st.cursor ==> exists e :: e in log + batch && e.seqno == st.cursor
  {
    assert batch == (log + batch)[|log|..];
    if st.start < st.cursor {
      var e :| e in log && e.seqno == st.cursor;
      var i :| 0 <= i < |log| && log[i] == e;
      assert (log + batch)[i] == e;
      assert batch != [] ==> (log + batch)[|log|] == batch[0];
    }
  }

  lemma CommitOrder(log: Log, batch: Log, st: Stream)
    requires Ascending(log + batch) && InOrder(log, st)
    ensures InOrder(log + batch, st)
  {
    CursorSeen(log, batch, st);
    SelectAppend(log, batch, st.start, st.filter);
    SelectAppend(log, batch, st.cursor, st.filter);
    if st.start < st.cursor {
      SelectAll(batch, st.start, st.cursor, st.filter);
    }
    var old', more := Select(log, st.cursor, st.filter), Select(batch, st.cursor, st.filter);
    var done := if st.phase.Emitting? then st.emitted + st.phase.rest else st.emitted;
    assert (done + old') + more == done + (old' + more);
  }

  lemma AppendAscends(log: Log, batch: Log)
    requires Ascending(log) && Ascending(batch)
    requires forall e, n :: e in log && n in batch ==> e.seqno < n.seqno
    ensures Ascending(log + batch)
  {
  }

  lemma CommitInv(s: State, batch: Log)
    requires Inv(s) && Enabled(s, Commit(batch))
    ensures Inv(Next(s, Commit(batch)))
  {
    var t := Next(s, Commit(batch));
    AppendAscends(s.log, batch);
    forall i | 0 <= i < |t.streams|
      ensures InOrder(t.log, t.streams[i]) && Covered(t, t.streams[i])
    {
      CommitOrder(s.log, batch, s.streams[i]);
    }
  }

  lemma CheckOrder(log: Log, st: Stream)
    requires Ascending(log) && InOrder(log, st) && st.phase.Armed?
    ensures InOrder(log, Checked(log, st, false))
    ensures Checked(log, st, false).phase.Parked? ==> Select(log, st.cursor, st.filter) == []
  {
    var (events, cursor) := EventsSince(log, st.cursor, st.filter, BATCH);
    PageThenRest(log, st.cursor, st.filter, BATCH);
    if events != [] {
      LastReadSeen(log, st, events, cursor);
      var rest := Select(log, cursor, st.filter);
      assert st.emitted + (events + rest) == st.emitted + events + rest;
    }
  }

  /** The new cursor after a batch is the number of an event of the log. */
  lemma LastReadSeen(log: Log, st: Stream, events: seq<Event>, cursor: int)
    requires Ascending(log) && (events, cursor) == EventsSince(log, st.cursor, st.filter, BATCH) && events != []
    ensures exists e :: e in log && e.seqno == cursor
  {
    SelectMembers(log, st.cursor, st.filter);
    assert events[|events| - 1] in Select(log, st.cursor, st.filter);
  }

  /** One stream's own steps keep its order and its cover. */
  lemma OwnStep(s: State, a: Action, i: nat)
    requires Inv(s) && Enabled(s, a) && i < |s.streams|
    requires a == Register(i) || (a.Check? && a.i == i) || a == Emit(i) || a == Resume(i) || a == Leave(i)
    ensures InOrder(s.log, Next(s, a).streams[i]) && Covered(s, Next(s, a).streams[i])
  {
    var st := s.streams[i];
    match a
    case Check(_, fails) =>
      if !fails {
        CheckOrder(s.log, st);
        SelectMembers(s.log, st.cursor, st.filter);
      }
    case Emit(_) =>
      if st.phase.rest != [] {
        assert st.emitted + st.phase.rest == st.emitted + [st.phase.rest[0]] + st.phase.rest[1..];
      } else {
        assert st.emitted + st.phase.rest == st.emitted;
      }
    case _ =>
  }

  lemma WakeInv(s: State, done: set<int>)
    requires Inv(s) && Enabled(s, Wake(done))
    ensures Inv(Next(s, Wake(done)))
  {
    var t := Next(s, Wake(done));
    forall i | 0 <= i < |t.streams|
      ensures InOrder(t.log, t.streams[i]) && Covered(t, t.streams[i])
    {
      RungKeeps(s.log, s.streams[i]);
    }
  }

  lemma RungKeeps(log: Log, st: Stream)
    requires InOrder(log, st)
    ensures InOrder(log, Rung(st)) && Rung(st).phase != Parked(false)
  {
  }

  lemma ConnectInv(s: State, filter: Filter, start: int)
    requires Inv(s)
    ensures Inv(Next(s, Connect(filter, start)))
  {
    var t := Next(s, Connect(filter, start));
    assert [] + Select(s.log, start, filter) == Select(s.log, start, filter);
    forall i | 0 <= i < |t.streams|
      ensures InOrder(t.log, t.streams[i]) && Covered(t, t.streams[i])
    {
      assert i < |s.streams| ==> t.streams[i] == s.streams[i];
    }
  }

  lemma StepInv(s: State, a: Action)
    requires Inv(s) && Enabled(s, a)
    ensures Inv(Next(s, a))
  {
    match a
    case Commit(batch) => CommitInv(s, batch);
    case Wake(done) => WakeInv(s, done);
    case Connect(filter, start) => ConnectInv(s, filter, start);
    case Register(i) => OwnStep(s, a, i);
    case Check(i, _) => OwnStep(s, a, i);
    case Emit(i) => OwnStep(s, a, i);
    case Resume(i) => OwnStep(s, a, i);
    case Leave(i) => OwnStep(s, a, i);
  }

  const EMPTY := State([], {}, [])

  ghost predicate Run(states: seq<State>, actions: seq<Action>) {
    && |states| == |actions| + 1 && states[0] == EMPTY
    && forall i {:trigger actions[i]} :: 0 <= i < |actions| ==>
         Enabled(states[i], actions[i]) && states[i + 1] == Next(states[i], actions[i])
  }

  /** No lost wake-up and no reordering, in every state of every run. */
  lemma {:induction false} RunInv(states: seq<State>, actions: seq<Action>, n: nat)
    requires Run(states, actions) && n < |states|
    ensures Inv(states[n])
  {
    if n > 0 {
      RunInv(states, actions, n - 1);
      assert states[n] == Next(states[n - 1], actions[n - 1]);
      StepInv(states[n - 1], actions[n - 1]);
    }
  }

  /** Each matching event is emitted at most once, in the order of the log: what a stream
      has emitted is always a prefix of the matching events past its start. */
  lemma EmittedIsPrefix(s: State, i: nat)
    requires Inv(s) && i < |s.streams|
    ensures var st := s.streams[i];
            st.emitted <= Select(s.log, st.start, st.filter) && Ascending(st.emitted)
  {
    var st := s.streams[i];
    var all := Select(s.log, st.start, st.filter);
    assert st.phase.Emitting? ==>
             st.emitted + st.phase.rest + Select(s.log, st.cursor, st.filter)
             == st.emitted + (st.phase.rest + Select(s.log, st.cursor, st.filter));
    SelectMembers(s.log, st.start, st.filter);
    assert forall k :: 0 <= k < |st.emitted| ==> st.emitted[k] == all[k];
  }

  lemma FirstIn(events: seq<Event>)
    requires events != []
    ensures exists e :: e in events
  {
    assert events[0] in events;
  }

  /** Once every writer has rung, a stream that sleeps has emitted every matching event
      past its start exactly once, and nothing else. */
  lemma QuietMeansComplete(s: State, i: nat)
    requires Inv(s) && i < |s.streams| && s.streams[i].phase == Parked(false) && s.pending == {}
    ensures s.streams[i].emitted == Select(s.log, s.streams[i].start, s.streams[i].filter)
  {
    var st := s.streams[i];
    SelectMembers(s.log, st.cursor, st.filter);
    var rest := Select(s.log, st.cursor, st.filter);
    if rest != [] {
      FirstIn(rest);
    }
    assert st.emitted + [] == st.emitted;
  }

  // ---- Progress -----------------------------------------------------------------------------

  /** The one step the loop of a stream takes next, when the store does not fail; none once
      it waits un-notified or is closed. */
  function OwnAction(st: Stream, i: nat): Option<Action> {
    match st.phase
    case Top => Some(Register(i))
    case Armed(_) => Some(Check(i, false))
    case Emitting(_) => Some(Emit(i))
    case Parked(notified) => if notified then Some(Resume(i)) else None
    case Closed => None
  }

  /** The state after a stream has taken up to `n` of its own steps. */
  function OwnSteps(s: State, i: nat, n: nat): State
    requires i < |s.streams|
    decreases n
  {
    if n == 0 || OwnAction(s.streams[i], i).None? then s
    else OwnSteps(Next(s, OwnAction(s.streams[i], i).value), i, n - 1)
  }

  /** A bound on the steps a stream still takes, read off what it has yet to read and emit. */
  function Fuel(log: Log, st: Stream): nat {
    var left := 4 * |Select(log, st.cursor, st.filter)|;
    match st.phase
    case Top => left + 2
    case Armed(notified) => left + if notified then 4 else 1
    case Emitting(rest) => |rest| + left + 3
    case Parked(notified) => if notified then left + 3 else 0
    case Closed => 0
  }

  lemma CheckBurns(log: Log, st: Stream)
    requires Ascending(log) && st.phase.Armed?
    ensures Fuel(log, Checked(log, st, false)) < Fuel(log, st)
  {
    PageThenRest(log, st.cursor, st.filter, BATCH);
  }

  /** What that step makes of the stream. */
  function OwnNext(log: Log, st: Stream): Stream {
    match st.phase
    case Top => st.(phase := Armed(false))
    case Armed(_) => Checked(log, st, false)
    case Emitting(_) => EmittedOne(st)
    case Parked(_) => st.(phase := Top)
    case Closed => st
  }

  lemma OwnNextBurns(log: Log, st: Stream, i: nat)
    requires Ascending(log) && OwnAction(st, i).Some?
    ensures Fuel(log, OwnNext(log, st)) < Fuel(log, st) && !OwnNext(log, st).phase.Closed?
    ensures OwnNext(log, st).start == st.start && OwnNext(log, st).filter == st.filter
  {
    if st.phase.Armed? {
      CheckBurns(log, st);
    }
  }

  lemma OwnStepBurns(s: State, i: nat)
    requires Inv(s) && i < |s.streams| && OwnAction(s.streams[i], i).Some?
    ensures Next(s, OwnAction(s.streams[i], i).value)
         == s.(streams := s.streams[i := OwnNext(s.log, s.streams[i])])
    ensures Fuel(s.log, OwnNext(s.log, s.streams[i])) < Fuel(s.log, s.streams[i])
    ensures !OwnNext(s.log, s.streams[i]).phase.Closed?
    ensures OwnNext(s.log, s.streams[i]).start == s.streams[i].start
    ensures OwnNext(s.log, s.streams[i]).filter == s.streams[i].filter
  {
    OwnNextBurns(s.log, s.streams[i], i);
  }

  /** Progress: every open stream, left to itself once all writers have rung, comes to wait
      within the bound, and has then emitted exactly the matching events past its start. */
  lemma {:induction false} SettlesComplete(s: State, i: nat, n: nat)
    requires Inv(s) && i < |s.streams| && !s.streams[i].phase.Closed? && s.pending == {}
    requires n >= Fuel(s.log, s.streams[i])
    ensures IsComplete(s.log, s.streams[i], OwnSteps(s, i, n), i)
    decreases n
  {
    var a := OwnAction(s.streams[i], i);
    if a.None? {
      QuietMeansComplete(s, i);
    } else {
      var t := Next(s, a.value);
      OwnStepBurns(s, i);
      StepInv(s, a.value);
      SettlesComplete(t, i, n - 1);
      assert IsComplete(s.log, s.streams[i], OwnSteps(t, i, n - 1), i);
    }
  }

  /** A stream that waits un-notified and has emitted exactly what `st` was to emit. */
  predicate IsComplete(log: Log, st: Stream, t: State, i: nat) {
    && t.log == log && i < |t.streams| && t.streams[i].phase == Parked(false)
    && t.streams[i].emitted == Select(log, st.start, st.filter)
  }

  /** Resuming with the number of the last event received loses nothing and repeats
      nothing: what the two streams emit is together what one would have. */
  lemma ResumeSeamless(log: Log, start: int, f: Filter, received: seq<Event>)
    requires Ascending(log) && received != [] && received <= Select(log, start, f)
    ensures Select(log, start, f) == received + Select(log, received[|received| - 1].seqno, f)
  {
    PageThenRest(log, start, f, |received|);
    var all := Select(log, start, f);
    assert EventsSince(log, start, f, |received|).0 == received;
  }

  // ---- From the actions alone -----------------------------------------------------------------

  datatype Opening = Opening(filter: Filter, start: int)

  /** What the clients asked for, in the order they connected. */
  function Openings(actions: seq<Action>): seq<Opening> {
    if actions == [] then []
    else
      var last := actions[|actions| - 1];
      Openings(actions[..|actions| - 1]) + if last.Connect? then [Opening(last.filter, last.start)] else []
  }

  /** What the writers committed. */
  function Committed(actions: seq<Action>): Log {
    if actions == [] then []
    else
      var last := actions[|actions| - 1];
      Committed(actions[..|actions| - 1]) + if last.Commit? then last.batch else []
  }

  /** What the clients asked for is what their streams are for. */
  ghost predicate Opened(streams: seq<Stream>, openings: seq<Opening>) {
    && |streams| == |openings|
    && forall i :: 0 <= i < |streams| ==> streams[i].filter == openings[i].filter && streams[i].start == openings[i].start
  }

  lemma StepOpened(s: State, a: Action, openings: seq<Opening>)
    requires Enabled(s, a) && Opened(s.streams, openings)
    ensures Opened(Next(s, a).streams, openings + if a.Connect? then [Opening(a.filter, a.start)] else [])
    ensures Next(s, a).log == s.log + if a.Commit? then a.batch else []
  {
  }

  lemma {:induction false} RunOpened(states: seq<State>, actions: seq<Action>, n: nat)
    requires Run(states, actions) && n < |states|
    ensures Opened(states[n].streams, Openings(actions[..n])) && states[n].log == Committed(actions[..n])
  {
    if n > 0 {
      RunOpened(states, actions, n - 1);
      assert states[n] == Next(states[n - 1], actions[n - 1]);
      StepOpened(states[n - 1], actions[n - 1], Openings(actions[..n - 1]));
      assert actions[..n][..n - 1] == actions[..n - 1] && actions[..n][n - 1] == actions[n - 1];
    }
  }

  /** The numbers of the events whose writer has yet to ring. */
  function Unrung(actions: seq<Action>): set<int> {
    if actions == [] then {}
    else
      var before := Unrung(actions[..|actions| - 1]);
      match actions[|actions| - 1]
      case Commit(batch) => before + set e | e in batch :: e.seqno
      case Wake(done) => before - done
      case _ => before
  }

  /** Whether the client of a stream left or one of its reads failed. */
  ghost predicate Ended(actions: seq<Action>, i: nat) {
    Leave(i) in actions || Check(i, true) in actions
  }

  /** Whether the doorbell rang since the stream last registered. */
  predicate RungSince(actions: seq<Action>, i: nat) {
    actions != []
    && (actions[|actions| - 1].Wake?
        || (actions[|actions| - 1] != Register(i) && RungSince(actions[..|actions| - 1], i)))
  }

  ghost predicate Told(s: State, actions: seq<Action>, i: nat) {
    && s.pending == Unrung(actions)
    && (Ended(actions, i) <==> i < |s.streams| && s.streams[i].phase.Closed?)
    && (i < |s.streams| && (s.streams[i].phase.Armed? || s.streams[i].phase.Parked?)
        ==> s.streams[i].phase.notified == RungSince(actions, i))
  }

  lemma StepTold(s: State, a: Action, actions: seq<Action>, i: nat)
    requires Enabled(s, a) && Told(s, actions, i)
    ensures Told(Next(s, a), actions + [a], i)
  {
    assert (actions + [a])[..|actions|] == actions;
    var t := Next(s, a);
    assert (i < |s.streams| && a != Register(i) && a != Check(i, true) && a != Check(i, false) && a != Emit(i)
            && a != Resume(i) && a != Leave(i) && !a.Wake?) ==> t.streams[i] == s.streams[i];
  }

  /** In every state of every run the rings still due are those of the commits not rung for,
      a stream is closed exactly when its client left or one of its reads failed, and a
      waiting stream is notified exactly when the doorbell rang since it last registered. */
  lemma {:induction false} RunTold(states: seq<State>, actions: seq<Action>, n: nat, i: nat)
    requires Run(states, actions) && n < |states|
    ensures Told(states[n], actions[..n], i)
  {
    if n > 0 {
      RunTold(states, actions, n - 1, i);
      assert states[n] == Next(states[n - 1], actions[n - 1]);
      StepTold(states[n - 1], actions[n - 1], actions[..n - 1], i);
      assert actions[..n] == actions[..n - 1] + [actions[n - 1]];
    }
  }

  /** A read that succeeds hands over the first 500 events due, or all there are, and goes
      to the last of them; with nothing due the stream waits where it is. */
  lemma CheckReads(s: State, i: nat)
    requires Inv(s) && Enabled(s, Check(i, false))
    ensures var st, next := s.streams[i], Next(s, Check(i, false)).streams[i];
            var due := Select(s.log, st.cursor, st.filter);
            if due == [] then next.phase.Parked? && next.cursor == st.cursor
            else && next.phase.Emitting? && next.phase.rest <= due
                 && |next.phase.rest| == (if |due| < 500 then |due| else 500)
                 && next.cursor == next.phase.rest[|next.phase.rest| - 1].seqno
  {
    var st := s.streams[i];
    PageThenRest(s.log, st.cursor, st.filter, 500);
  }

  /** What a client that connected with `o` is owed of the events `log`: exactly those past
      its start, of its project and ticket, of one of its kinds and in one of its allowed
      projects, each where it is asked for; and those in the order of their numbers. */
  ghost predicate Owed(log: Log, o: Opening, events: seq<Event>) {
    && Ascending(events)
    && forall e :: e in events <==>
         && e in log && e.seqno > o.start
         && (o.filter.project == None || o.filter.project == Some(e.project))
         && (o.filter.ticket == None || o.filter.ticket == e.ticket)
         && (o.filter.kinds == [] || e.kind in o.filter.kinds)
         && (o.filter.allowed == None || (o.filter.allowed.Some? && e.project in o.filter.allowed.value))
  }

  lemma SelectIsOwed(log: Log, o: Opening)
    requires Ascending(log)
    ensures Owed(log, o, Select(log, o.start, o.filter))
  {
    SelectMembers(log, o.start, o.filter);
  }

  /** Only one list of events is owed. */
  lemma {:induction false} OwedIsOne(log: Log, o: Opening, events: seq<Event>, others: seq<Event>)
    requires Owed(log, o, events) && Owed(log, o, others)
    ensures events == others
  {
    AscendingSame(events, others);
  }

  lemma {:induction false} AscendingSame(a: seq<Event>, b: seq<Event>)
    requires Ascending(a) && Ascending(b) && forall e :: e in a <==> e in b
    ensures a == b
  {
    if a == [] {
      if b != [] {
        FirstIn(b);
      }
    } else {
      assert a[0] in b && b != [];
      assert b[0] in a;
      var i :| 0 <= i < |b| && b[i] == a[0];
      var j :| 0 <= j < |a| && a[j] == b[0];
      assert i == 0 && j == 0;
      forall e ensures e in a[1..] <==> e in b[1..] {
        TailMembers(a, e);
        TailMembers(b, e);
      }
      AscendingSame(a[1..], b[1..]);
      assert a == [a[0]] + a[1..] && b == [b[0]] + b[1..];
    }
  }

  lemma TailMembers(a: seq<Event>, e: Event)
    requires Ascending(a) && a != []
    ensures e in a[1..] <==> e in a && e != a[0]
  {
    assert a == [a[0]] + a[1..];
    assert forall i :: 0 <= i < |a[1..]| ==> a[1..][i] == a[i + 1];
  }

  /** In every state of every run a stream has emitted a beginning of what the client that
      opened it is owed of the committed events, and all of it once all writers have rung
      and the stream waits. */
  lemma RunEmits(states: seq<State>, actions: seq<Action>, n: nat, i: nat, owed: seq<Event>)
    requires Run(states, actions) && n < |states| && i < |Openings(actions[..n])|
    requires Owed(Committed(actions[..n]), Openings(actions[..n])[i], owed)
    ensures i < |states[n].streams| && states[n].streams[i].emitted <= owed
    ensures states[n].pending == {} && states[n].streams[i].phase == Parked(false)
            ==> states[n].streams[i].emitted == owed
  {
    RunInv(states, actions, n);
    RunOpened(states, actions, n);
    var s, o := states[n], Openings(actions[..n])[i];
    SelectIsOwed(s.log, o);
    OwedIsOne(s.log, o, owed, Select(s.log, o.start, o.filter));
    EmittedIsPrefix(s, i);
    if s.pending == {} && s.streams[i].phase == Parked(false) {
      QuietMeansComplete(s, i);
    }
  }

  /** A client that reconnects with the number of the last event it received gets, on the
      two streams together, exactly what one would have given it. */
  lemma RunResumes(states: seq<State>, actions: seq<Action>, n: nat, i: nat, j: nat, received: seq<Event>, owed: seq<Event>)
    requires Run(states, actions) && n < |states| && i < |Openings(actions[..n])| && j < |Openings(actions[..n])|
    requires Owed(Committed(actions[..n]), Openings(actions[..n])[i], owed)
    requires i < |states[n].streams| && received != [] && received <= states[n].streams[i].emitted
    requires Openings(actions[..n])[j] == Opening(Openings(actions[..n])[i].filter, received[|received| - 1].seqno)
    ensures j < |states[n].streams| && received + states[n].streams[j].emitted <= owed
    ensures states[n].pending == {} && states[n].streams[j].phase == Parked(false)
            ==> received + states[n].streams[j].emitted == owed
  {
    RunInv(states, actions, n);
    RunOpened(states, actions, n);
    var s, o, p := states[n], Openings(actions[..n])[i], Openings(actions[..n])[j];
    RunEmits(states, actions, n, i, owed);
    PrefixOf(received, s.streams[i].emitted, owed);
    RestIsOwed(s.log, o, p, received, owed);
    var rest := owed[|received|..];
    RunEmits(states, actions, n, j, rest);
    Continues(received, s.streams[j].emitted, rest, owed);
  }

  /** What is owed past the last event received is what is left of what was owed. */
  lemma RestIsOwed(log: Log, o: Opening, p: Opening, received: seq<Event>, owed: seq<Event>)
    requires Ascending(log) && Owed(log, o, owed) && received != [] && received <= owed
    requires p == Opening(o.filter, received[|received| - 1].seqno)
    ensures Owed(log, p, owed[|received|..])
  {
    SelectIsOwed(log, o);
    OwedIsOne(log, o, owed, Select(log, o.start, o.filter));
    ResumeSeamless(log, o.start, o.filter, received);
    SelectIsOwed(log, p);
    assert Select(log, p.start, p.filter) == owed[|received|..];
  }

  lemma PrefixOf(a: seq<Event>, b: seq<Event>, c: seq<Event>)
    requires a <= b <= c
    ensures a <= c
  {
  }

  lemma Continues(received: seq<Event>, emitted: seq<Event>, rest: seq<Event>, owed: seq<Event>)
    requires received <= owed && rest == owed[|received|..] && emitted <= rest
    ensures received + emitted <= owed
    ensures emitted == rest ==> received + emitted == owed
  {
    assert owed == received + rest;
  }

  // ---- The objects of the source --------------------------------------------------------------

  /** The log, the doorbell and the streams; each method is one uninterrupted stretch. */
  class Doorbell {
    var log: Log
    ghost var pending: set<int>
    var streams: seq<Stream>

    ghost function Model(): State
      reads this
    {
      State(log, pending, streams)
    }

    ghost predicate Valid()
      reads this
    {
      Inv(Model())
    }

    constructor ()
      ensures Valid() && Model() == EMPTY
    {
      log, pending, streams := [], {}, [];
    }

    method CommitEvents(batch: Log)
      requires Valid() && Enabled(Model(), Commit(batch))
      modifies this
      ensures Valid() && Model() == Next(old(Model()), Commit(batch))
    {
      StepInv(Model(), Commit(batch));
      log := log + batch;
      pending := pending + set e | e in batch :: e.seqno;
    }

    /** Ring for the waiters registered now; there is no permit left for later ones. */
    method NotifyWaiters(ghost done: set<int>)
      requires Valid() && done <= pending
      modifies this
      ensures Valid() && Model() == Next(old(Model()), Wake(done))
    {
      StepInv(Model(), Wake(done));
      pending := pending - done;
      var i := 0;
      ghost var before := streams;
      while i < |streams|
        invariant 0 <= i <= |streams| == |before|
        invariant log == old(log) && pending == old(pending) - done
        invariant forall j :: 0 <= j < |before| ==> streams[j] == if j < i then Rung(before[j]) else before[j]
      {
        streams := streams[i := Rung(streams[i])];
        i := i + 1;
      }
      assert streams == seq(|before|, j requires 0 <= j < |before| => Rung(before[j]));
    }

    method Open(filter: Filter, start: int) returns (i: nat)
      requires Valid()
      modifies this
      ensures Valid() && Model() == Next(old(Model()), Connect(filter, start))
      ensures i == |old(streams)|
    {
      StepInv(Model(), Connect(filter, start));
      i := |streams|;
      streams := streams + [Stream(filter, start, start, Top, [])];
    }

    method RegisterInterest(i: nat)
      requires Valid() && Enabled(Model(), Register(i))
      modifies this
      ensures Valid() && Model() == Next(old(Model()), Register(i))
    {
      StepInv(Model(), Register(i));
      streams := streams[i := streams[i].(phase := Armed(false))];
    }

    method CheckLog(i: nat, fails: bool)
      requires Valid() && Enabled(Model(), Check(i, fails))
      modifies this
      ensures Valid() && Model() == Next(old(Model()), Check(i, fails))
    {
      StepInv(Model(), Check(i, fails));
      var st := streams[i];
      if fails {
        streams := streams[i := st.(phase := Closed)];
        return;
      }
      var (events, cursor) := EventsSince(log, st.cursor, st.filter, BATCH);
      if events != [] {
        streams := streams[i := st.(cursor := cursor, phase := Emitting(events))];
      } else {
        streams := streams[i := st.(phase := Parked(st.phase.notified))];
      }
    }

    method Yield(i: nat) returns (e: Option<Event>)
      requires Valid() && Enabled(Model(), Emit(i))
      modifies this
      ensures Valid() && Model() == Next(old(Model()), Emit(i))
      ensures streams[i].emitted == old(streams[i].emitted) + (if e.Some? then [e.value] else [])
    {
      StepInv(Model(), Emit(i));
      var st := streams[i];
      if st.phase.rest == [] {
        e := None;
        streams := streams[i := st.(phase := Top)];
      } else {
        e := Some(st.phase.rest[0]);
        streams := streams[i := st.(phase := Emitting(st.phase.rest[1..]), emitted := st.emitted + [st.phase.rest[0]])];
      }
    }

    method WakeUp(i: nat)
      requires Valid() && Enabled(Model(), Resume(i))
      modifies this
      ensures Valid() && Model() == Next(old(Model()), Resume(i))
    {
      StepInv(Model(), Resume(i));
      streams := streams[i := streams[i].(phase := Top)];
    }
  }
}
