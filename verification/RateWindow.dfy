/** The sliding-window budget of src/auth.rs (`debit_window`), shared by every
    per-minute budget of the source, and the once-a-minute touch throttle beside it.

    Times are unix milliseconds. The source reads the clock before it takes the lock,
    so two callers can reach the window out of clock order; the statements about whole
    runs are for runs in which the time handed over never decreases. */
module RateWindow {
  import opened Prelude

  const WINDOW := 60_000

  type Windows = map<string, seq<int>>

  datatype Decision = Charged | Wait(secs: int)

  function Get<V>(m: map<string, seq<V>>, key: string): seq<V> {
    if key in m then m[key] else []
  }

  /** What is left of a window once its front no longer holds expired charges. */
  function Evict(window: seq<int>, cutoff: int): (r: seq<int>)
    ensures r != [] ==> r[0] > cutoff
  {
    if window != [] && window[0] <= cutoff then Evict(window[1..], cutoff) else window
  }

  /** The eviction pass over the whole map: emptied windows are dropped. */
  function Sweep(ws: Windows, cutoff: int): Windows {
    map key | key in ws && Evict(ws[key], cutoff) != [] :: Evict(ws[key], cutoff)
  }

  function Verdict(window: seq<int>, limit: int, now: int): Decision {
    if |window| < limit then Charged
    else
      var oldest := if window == [] then now else window[0];
      Wait(Max((oldest + WINDOW - now) / 1000, 1))
  }

  function Debited(ws: Windows, key: string, limit: int, now: int): (Windows, Decision) {
    var swept := Sweep(ws, now - WINDOW);
    var window := Get(swept, key);
    var verdict := Verdict(window, limit, now);
    (swept[key := if verdict.Charged? then window + [now] else window], verdict)
  }

  /** The map behind the source's mutex; one call of `Debit` is one locked section. */
  class Budget {
    var windows: Windows

    constructor ()
      ensures windows == map[]
    {
      windows := map[];
    }

    method Debit(key: string, limit: int, now: int) returns (d: Decision)
      modifies this
      ensures (windows, d) == Debited(old(windows), key, limit, now)
    {
      var cutoff := now - WINDOW;
      var swept := DropExpired(windows, cutoff);
      var window := PopExpired(Get(swept, key), cutoff);
      windows := swept[key := window];
      if |window| >= limit {
        var oldest := if window == [] then now else window[0];
        return Wait(Max((oldest + WINDOW - now) / 1000, 1));
      }
      windows := windows[key := window + [now]];
      assert windows == swept[key := window + [now]];
      return Charged;
    }
  }

  method DropExpired(ws: Windows, cutoff: int) returns (swept: Windows)
    ensures swept == Sweep(ws, cutoff)
  {
    swept := map[];
    var todo := ws.Keys;
    while todo != {}
      invariant todo <= ws.Keys
      invariant forall k :: k in swept <==> k in ws && k !in todo && Evict(ws[k], cutoff) != []
      invariant forall k :: k in swept ==> swept[k] == Evict(ws[k], cutoff)
    {
      var k :| k in todo;
      todo := todo - {k};
      var kept := PopExpired(ws[k], cutoff);
      if kept != [] {
        swept := swept[k := kept];
      }
    }
  }

  method PopExpired(window: seq<int>, cutoff: int) returns (kept: seq<int>)
    ensures kept == Evict(window, cutoff)
  {
    kept := window;
    while kept != [] && kept[0] <= cutoff
      invariant Evict(kept, cutoff) == Evict(window, cutoff)
    {
      kept := kept[1..];
    }
  }

  /** The map does not grow with every key ever charged: after a request only its own key
      can have an empty window, and every other key still has a charge of the last minute
      at its front. */
  lemma MapStaysSmall(ws: Windows, key: string, limit: int, now: int, other: string)
    requires other in Debited(ws, key, limit, now).0 && other != key
    ensures var window := Debited(ws, key, limit, now).0[other];
            window != [] && window[0] > now - 60_000 && other in ws
  {
  }

  // ---- The reference: the full log of every key ------------------------------

  /** The entries of a log above a cutoff. */
  function Recent(log: seq<int>, cutoff: int): seq<int> {
    if log == [] then []
    else (if log[0] > cutoff then [log[0]] else []) + Recent(log[1..], cutoff)
  }

  datatype Request = Request(key: string, limit: int, now: int)

  type Logs = map<string, seq<int>>

  /** A limiter that forgets nothing: it looks at one key's own log and at nothing else. */
  function Reference(log: seq<int>, limit: int, now: int): Decision {
    Verdict(Recent(log, now - WINDOW), limit, now)
  }

  function Record(logs: Logs, r: Request): Logs {
    if Reference(Get(logs, r.key), r.limit, r.now).Charged?
    then logs[r.key := Get(logs, r.key) + [r.now]] else logs
  }

  function WindowsAfter(run: seq<Request>): Windows {
    if run == [] then map[]
    else var r := run[|run| - 1]; Debited(WindowsAfter(run[..|run| - 1]), r.key, r.limit, r.now).0
  }

  /** The accepted charges of every key after a run, by the reference limiter. */
  function LogsAfter(run: seq<Request>): Logs {
    if run == [] then map[] else Record(LogsAfter(run[..|run| - 1]), run[|run| - 1])
  }

  ghost predicate Sorted(log: seq<int>) {
    forall i, j :: 0 <= i < j < |log| ==> log[i] <= log[j]
  }

  ghost predicate InOrder(run: seq<Request>) {
    forall i, j :: 0 <= i < j < |run| ==> run[i].now <= run[j].now
  }

  ghost predicate Upto(log: seq<int>, now: int) {
    forall i :: 0 <= i < |log| ==> log[i] <= now
  }

  lemma {:induction false} EvictRecent(log: seq<int>, c: int, c': int)
    requires Sorted(log) && c <= c'
    ensures Evict(Recent(log, c), c') == Recent(log, c')
  {
    if log != [] {
      EvictRecent(log[1..], c, c');
      if log[0] > c' {
        RecentAll(log, c);
        RecentAll(log, c');
      } else {
        assert Recent(log, c') == Recent(log[1..], c');
        assert Recent(log, c) == if log[0] > c then [log[0]] + Recent(log[1..], c) else Recent(log[1..], c);
      }
    }
  }

  lemma {:induction false} RecentAll(log: seq<int>, c: int)
    requires Sorted(log) && (log != [] ==> log[0] > c)
    ensures Recent(log, c) == log
  {
    if log != [] {
      RecentAll(log[1..], c);
    }
  }

  lemma {:induction false} RecentSnoc(log: seq<int>, t: int, c: int)
    ensures Recent(log + [t], c) == Recent(log, c) + (if t > c then [t] else [])
  {
    if log == [] {
      assert [] + [t] == [t];
    } else {
      RecentSnoc(log[1..], t, c);
      assert (log + [t])[1..] == log[1..] + [t];
    }
  }

  /** Between calls the map holds, for every key, exactly the part of the full log the
      last eviction pass would leave. */
  ghost predicate TracksKey(window: seq<int>, log: seq<int>, last: int) {
    Sorted(log) && Upto(log, last) && window == Recent(log, last - WINDOW)
  }

  ghost predicate Tracks(ws: Windows, logs: Logs, last: int) {
    forall key :: TracksKey(Get(ws, key), Get(logs, key), last)
  }

  lemma SweepTracks(ws: Windows, logs: Logs, last: int, now: int)
    requires Tracks(ws, logs, last) && last <= now
    ensures Tracks(Sweep(ws, now - WINDOW), logs, now)
  {
    forall key
      ensures TracksKey(Get(Sweep(ws, now - WINDOW), key), Get(logs, key), now)
    {
      assert TracksKey(Get(ws, key), Get(logs, key), last);
      EvictRecent(Get(logs, key), last - WINDOW, now - WINDOW);
    }
  }

  lemma TrackSame(ws: Windows, logs: Logs, now: int, key: string)
    requires Tracks(ws, logs, now)
    ensures Tracks(ws[key := Get(ws, key)], logs, now)
  {
    var ws' := ws[key := Get(ws, key)];
    forall k
      ensures TracksKey(Get(ws', k), Get(logs, k), now)
    {
      assert TracksKey(Get(ws, k), Get(logs, k), now);
    }
  }

  lemma TrackCharge(window: seq<int>, log: seq<int>, now: int)
    requires TracksKey(window, log, now)
    ensures TracksKey(window + [now], log + [now], now)
  {
    RecentSnoc(log, now, now - WINDOW);
  }

  lemma TrackOneMore(ws: Windows, logs: Logs, now: int, key: string, window: seq<int>, log: seq<int>)
    requires Tracks(ws, logs, now) && window == Get(ws, key) + [now] && log == Get(logs, key) + [now]
    ensures Tracks(ws[key := window], logs[key := log], now)
  {
    assert TracksKey(window, log, now) by {
      assert TracksKey(Get(ws, key), Get(logs, key), now);
      TrackCharge(Get(ws, key), Get(logs, key), now);
    }
    var ws', logs' := ws[key := window], logs[key := log];
    forall k
      ensures TracksKey(Get(ws', k), Get(logs', k), now)
    {
      if k != key {
        assert TracksKey(Get(ws, k), Get(logs, k), now);
        assert Get(ws', k) == Get(ws, k) && Get(logs', k) == Get(logs, k);
      }
    }
  }

  lemma DebitTracks(ws: Windows, logs: Logs, last: int, r: Request)
    requires Tracks(ws, logs, last) && last <= r.now
    ensures Tracks(Debited(ws, r.key, r.limit, r.now).0, Record(logs, r), r.now)
    ensures Debited(ws, r.key, r.limit, r.now).1 == Reference(Get(logs, r.key), r.limit, r.now)
  {
    SweepTracks(ws, logs, last, r.now);
    var swept := Sweep(ws, r.now - WINDOW);
    assert TracksKey(Get(swept, r.key), Get(logs, r.key), r.now);
    TrackSame(swept, logs, r.now, r.key);
    TrackOneMore(swept, logs, r.now, r.key, Get(swept, r.key) + [r.now], Get(logs, r.key) + [r.now]);
  }

  lemma OrderSplit(run: seq<Request>, r: Request)
    requires InOrder(run + [r])
    ensures InOrder(run) && forall i :: 0 <= i < |run| ==> run[i].now <= r.now
  {
    assert forall i :: 0 <= i < |run| ==> (run + [r])[i] == run[i];
    assert (run + [r])[|run|] == r;
  }

  lemma {:induction false} RunTracks(run: seq<Request>, last: int)
    requires InOrder(run) && (run != [] ==> run[|run| - 1].now <= last)
    ensures run != [] ==> Tracks(WindowsAfter(run), LogsAfter(run), run[|run| - 1].now)
    ensures run == [] ==> Tracks(WindowsAfter(run), LogsAfter(run), last)
  {
    if run != [] {
      var before, r := run[..|run| - 1], run[|run| - 1];
      RunTracks(before, r.now);
      DebitTracks(WindowsAfter(before), LogsAfter(before), if before == [] then r.now else before[|before| - 1].now, r);
    }
  }

  /** Over any run in clock order, every decision is the one of the limiter that keeps
      the full log, down to the wait it reports. */
  lemma DecisionsMatchReference(run: seq<Request>, r: Request)
    requires InOrder(run + [r])
    ensures Debited(WindowsAfter(run), r.key, r.limit, r.now).1 ==
            Reference(Get(LogsAfter(run), r.key), r.limit, r.now)
  {
    OrderSplit(run, r);
    RunTracks(run, r.now);
    DebitTracks(WindowsAfter(run), LogsAfter(run), if run == [] then r.now else run[|run| - 1].now, r);
  }

  // ---- Keys do not share a budget ----------------------------------------------

  /** The requests of one key. */
  function Only(run: seq<Request>, key: string): seq<Request> {
    if run == [] then []
    else Only(run[..|run| - 1], key) + (if run[|run| - 1].key == key then [run[|run| - 1]] else [])
  }

  lemma {:induction false} LogOfOnly(run: seq<Request>, key: string)
    ensures Get(LogsAfter(Only(run, key)), key) == Get(LogsAfter(run), key)
  {
    if run != [] {
      var before, r := run[..|run| - 1], run[|run| - 1];
      LogOfOnly(before, key);
      if r.key == key {
        assert Only(run, key)[..|Only(run, key)| - 1] == Only(before, key);
      } else {
        assert Only(run, key) == Only(before, key);
      }
    }
  }

  lemma {:induction false} OnlyInOrder(run: seq<Request>, key: string, last: int)
    requires InOrder(run) && forall i :: 0 <= i < |run| ==> run[i].now <= last
    ensures InOrder(Only(run, key))
    ensures forall i :: 0 <= i < |Only(run, key)| ==> Only(run, key)[i].now <= last
  {
    if run != [] {
      OnlyInOrder(run[..|run| - 1], key, run[|run| - 1].now);
    }
  }

  /** The eviction pass is shared, the budget is not: what other keys do never changes
      a decision about this one. */
  lemma KeysAreIndependent(run: seq<Request>, r: Request)
    requires InOrder(run + [r])
    ensures Debited(WindowsAfter(run), r.key, r.limit, r.now).1 ==
            Debited(WindowsAfter(Only(run, r.key)), r.key, r.limit, r.now).1
  {
    OrderSplit(run, r);
    OnlyInOrder(run, r.key, r.now);
    DecisionsMatchReference(run, r);
    DecisionsMatchReference(Only(run, r.key), r);
    LogOfOnly(run, r.key);
  }

  // ---- The charges the window accepts ----------------------------------------------

  /** Whether a request is charged after a run. */
  predicate Takes(run: seq<Request>, r: Request) {
    Debited(WindowsAfter(run), r.key, r.limit, r.now).1.Charged?
  }

  /** The times of a key's accepted charges, in the order they were made. */
  function Accepted(run: seq<Request>, key: string): seq<int> {
    if run == [] then []
    else
      var before, r := run[..|run| - 1], run[|run| - 1];
      Accepted(before, key)
      + (if r.key == key && Takes(before, r) then [r.now] else [])
  }

  lemma AcceptedSnoc(run: seq<Request>, r: Request, key: string)
    ensures Accepted(run + [r], key) == Accepted(run, key)
            + (if r.key == key && Takes(run, r) then [r.now] else [])
  {
    assert (run + [r])[..|run|] == run;
  }

  /** In clock order these are exactly the log of the limiter that forgets nothing. */
  lemma {:induction false} AcceptedIsLog(run: seq<Request>, key: string)
    requires InOrder(run)
    ensures Accepted(run, key) == Get(LogsAfter(run), key)
  {
    if run != [] {
      var before, r := run[..|run| - 1], run[|run| - 1];
      AcceptedIsLog(before, key);
      assert before + [r] == run;
      DecisionsMatchReference(before, r);
    }
  }

  // ---- The limit over every window -----------------------------------------------

  /** How many entries of a log fall in the interval (from, from + length]. */
  function CountIn(log: seq<int>, from: int, length: int): nat {
    if log == [] then 0
    else CountIn(log[..|log| - 1], from, length) + (if from < log[|log| - 1] <= from + length then 1 else 0)
  }

  /** No time lags an earlier one by more than `skew`. */
  ghost predicate Lags(run: seq<Request>, skew: int) {
    forall i, j :: 0 <= i < j < |run| ==> run[i].now <= run[j].now + skew
  }

  /** Some request of the run came at `t` or later. */
  ghost predicate Reached(run: seq<Request>, t: int) {
    exists i :: 0 <= i < |run| && t <= run[i].now
  }

  lemma ReachedMore(run: seq<Request>, r: Request, t: int)
    requires Reached(run, t) || t <= r.now
    ensures Reached(run + [r], t)
  {
    if Reached(run, t) {
      var i :| 0 <= i < |run| && t <= run[i].now;
      assert (run + [r])[i] == run[i];
    } else {
      assert (run + [r])[|run|] == r;
    }
  }

  lemma {:induction false} EvictSuffix(window: seq<int>, cutoff: int)
    ensures var kept := Evict(window, cutoff);
            && |kept| <= |window| && kept == window[|window| - |kept|..]
            && forall i :: 0 <= i < |window| - |kept| ==> window[i] <= cutoff
  {
    if window != [] && window[0] <= cutoff {
      EvictSuffix(window[1..], cutoff);
      assert window == [window[0]] + window[1..];
    }
  }

  /** `window` is the end of `log`, and what it no longer holds had left by some request. */
  ghost predicate EndOf(window: seq<int>, log: seq<int>, run: seq<Request>) {
    && |window| <= |log| && window == log[|log| - |window|..]
    && forall i :: 0 <= i < |log| - |window| ==> Reached(run, log[i] + WINDOW)
  }

  lemma EvictEndOf(window: seq<int>, log: seq<int>, run: seq<Request>, r: Request)
    requires EndOf(window, log, run)
    ensures EndOf(Evict(window, r.now - WINDOW), log, run + [r])
  {
    var kept := Evict(window, r.now - WINDOW);
    EvictSuffix(window, r.now - WINDOW);
    forall i | 0 <= i < |log| - |kept| ensures Reached(run + [r], log[i] + WINDOW) {
      if i >= |log| - |window| {
        assert log[i] == window[i - (|log| - |window|)];
      }
      ReachedMore(run, r, log[i] + WINDOW);
    }
  }

  lemma ChargeEndOf(window: seq<int>, log: seq<int>, run: seq<Request>, now: int)
    requires EndOf(window, log, run)
    ensures EndOf(window + [now], log + [now], run)
  {
  }

  lemma SweptWindow(ws: Windows, key: string, cutoff: int)
    ensures Get(Sweep(ws, cutoff), key) == Evict(Get(ws, key), cutoff)
  {
  }

  lemma WindowsSnoc(run: seq<Request>, r: Request)
    ensures WindowsAfter(run + [r]) == Debited(WindowsAfter(run), r.key, r.limit, r.now).0
  {
    assert (run + [r])[..|run|] == run;
  }

  lemma DebitedWindow(ws: Windows, r: Request, key: string)
    ensures Get(Debited(ws, r.key, r.limit, r.now).0, key)
         == Evict(Get(ws, key), r.now - WINDOW)
            + (if r.key == key && Debited(ws, r.key, r.limit, r.now).1.Charged? then [r.now] else [])
  {
    SweptWindow(ws, key, r.now - WINDOW);
  }

  /** Whatever order the times come in, a window is the end of its key's accepted charges. */
  lemma {:induction false} WindowIsEnd(run: seq<Request>, key: string)
    ensures EndOf(Get(WindowsAfter(run), key), Accepted(run, key), run)
  {
    if run != [] {
      var before, r := run[..|run| - 1], run[|run| - 1];
      WindowIsEnd(before, key);
      assert before + [r] == run;
      EndStep(before, r, key);
    }
  }

  lemma EndStep(run: seq<Request>, r: Request, key: string)
    requires EndOf(Get(WindowsAfter(run), key), Accepted(run, key), run)
    ensures EndOf(Get(WindowsAfter(run + [r]), key), Accepted(run + [r], key), run + [r])
  {
    WindowsSnoc(run, r);
    DebitedWindow(WindowsAfter(run), r, key);
    AcceptedSnoc(run, r, key);
    var window, log := Evict(Get(WindowsAfter(run), key), r.now - WINDOW), Accepted(run, key);
    EvictEndOf(Get(WindowsAfter(run), key), log, run, r);
    ChargeEndOf(window, log, run + [r], r.now);
    assert window + [] == window && log + [] == log;
  }

  /** Charges `limit` places apart in the order they were made. */
  ghost predicate Spread(log: seq<int>, limit: nat, skew: int) {
    forall i, j :: 0 <= i && i + limit <= j < |log| ==> log[i] + WINDOW <= log[j] + skew
  }

  lemma SpreadMore(run: seq<Request>, r: Request, limit: nat, skew: nat, window: seq<int>, log: seq<int>)
    requires Lags(run + [r], skew) && EndOf(window, log, run + [r]) && |window| < limit
    requires Spread(log, limit, skew)
    ensures Spread(log + [r.now], limit, skew)
  {
    forall i | 0 <= i && i + limit <= |log| ensures log[i] + WINDOW <= r.now + skew {
      assert Reached(run + [r], log[i] + WINDOW);
      var k :| 0 <= k < |run + [r]| && log[i] + WINDOW <= (run + [r])[k].now;
      assert (run + [r])[|run|] == r;
    }
  }

  lemma LagsBefore(run: seq<Request>, r: Request, skew: int)
    requires Lags(run + [r], skew)
    ensures Lags(run, skew)
  {
    assert forall i :: 0 <= i < |run| ==> (run + [r])[i] == run[i];
  }

  ghost predicate OneLimit(run: seq<Request>, key: string, limit: nat) {
    forall i :: 0 <= i < |run| && run[i].key == key ==> run[i].limit == limit
  }

  lemma {:induction false} RunSpread(run: seq<Request>, key: string, limit: nat, skew: nat)
    requires Lags(run, skew) && OneLimit(run, key, limit)
    ensures Spread(Accepted(run, key), limit, skew)
  {
    if run != [] {
      var before, r := run[..|run| - 1], run[|run| - 1];
      assert before + [r] == run;
      LagsBefore(before, r, skew);
      RunSpread(before, key, limit, skew);
      SpreadStep(before, r, key, limit, skew);
    }
  }

  lemma SpreadStep(run: seq<Request>, r: Request, key: string, limit: nat, skew: nat)
    requires Lags(run + [r], skew) && Spread(Accepted(run, key), limit, skew)
    requires r.key == key ==> r.limit == limit
    ensures Spread(Accepted(run + [r], key), limit, skew)
  {
    AcceptedSnoc(run, r, key);
    if r.key == key && Takes(run, r) {
      RoomLeft(run, r);
      WindowIsEnd(run, key);
      EvictEndOf(Get(WindowsAfter(run), key), Accepted(run, key), run, r);
      SpreadMore(run, r, limit, skew, Evict(Get(WindowsAfter(run), key), r.now - WINDOW), Accepted(run, key));
    } else {
      assert Accepted(run, key) + [] == Accepted(run, key);
    }
  }

  lemma RoomLeft(run: seq<Request>, r: Request)
    ensures Takes(run, r) <==> |Evict(Get(WindowsAfter(run), r.key), r.now - WINDOW)| < r.limit
  {
    DebitedVerdict(WindowsAfter(run), r);
  }

  lemma DebitedVerdict(ws: Windows, r: Request)
    ensures Debited(ws, r.key, r.limit, r.now).1 == Verdict(Evict(Get(ws, r.key), r.now - WINDOW), r.limit, r.now)
  {
    SweptWindow(ws, r.key, r.now - WINDOW);
  }

  lemma {:induction false} CountTail(log: seq<int>, from: int, length: int, m: nat)
    requires m <= |log| && forall i :: 0 <= i < m ==> log[i] <= from
    ensures CountIn(log, from, length) <= |log| - m
  {
    if log != [] {
      CountTail(log[..|log| - 1], from, length, if m < |log| then m else m - 1);
    }
  }

  lemma {:induction false} SpreadCount(log: seq<int>, limit: nat, skew: int, from: int)
    requires Spread(log, limit, skew)
    ensures CountIn(log, from, WINDOW - skew) <= limit
  {
    if log != [] {
      var last := |log| - 1;
      if from < log[last] <= from + WINDOW - skew {
        CountTail(log, from, WINDOW - skew, if limit <= last then last + 1 - limit else 0);
      } else {
        SpreadCount(log[..last], limit, skew, from);
      }
    }
  }

  /** The budget itself: with one limit for a key, and times that never lag an earlier one
      by more than `skew`, no interval of 60,000 ms less `skew`, wherever it starts, holds
      more accepted charges of that key than the limit. In clock order `skew` is zero. */
  lemma NoWindowOverLimit(run: seq<Request>, key: string, limit: nat, skew: nat, from: int)
    requires Lags(run, skew) && OneLimit(run, key, limit)
    ensures CountIn(Accepted(run, key), from, 60_000 - skew) <= limit
  {
    RunSpread(run, key, limit, skew);
    SpreadCount(Accepted(run, key), limit, skew, from);
  }

  /** A request of another key that is ahead by `skew` sweeps the window of `key` early, and
      a charge is accepted that the same requests of `key` alone would see refused. */
  lemma SkewShares(key: string, other: string, skew: nat)
    requires key != other && 0 < skew < WINDOW
    ensures var run, now := [Request(key, 1, 0), Request(other, 1, WINDOW)], WINDOW - skew;
            && Debited(WindowsAfter(run), key, 1, now).1.Charged?
            && Debited(WindowsAfter(Only(run, key)), key, 1, now).1.Wait?
            && Accepted(run, key) == [0]
  {
    var a, b := Request(key, 1, 0), Request(other, 1, WINDOW);
    var one := [a];
    var two := one + [b];
    FirstCharge(a);
    WindowsSnoc(one, b);
    DebitedWindow(WindowsAfter(one), b, key);
    SweptWindow(WindowsAfter(two), key, 0 - skew);
    SweptWindow(WindowsAfter(one), key, 0 - skew);
    AcceptedSnoc(one, b, key);
    assert two == [a, b] && two[..1] == one;
    assert Only(two, key) == one;
  }

  lemma SkewAccepts(key: string, other: string, skew: nat, two: seq<Request>, c: Request)
    requires key != other && 0 < skew < WINDOW
    requires two == [Request(key, 1, 0), Request(other, 1, WINDOW)] && c == Request(key, 1, WINDOW - skew)
    ensures Accepted(two + [c], key) == [0, WINDOW - skew]
  {
    SkewShares(key, other, skew);
    AcceptedSnoc(two, c, key);
  }

  lemma SkewLags(key: string, other: string, skew: nat)
    requires key != other && 0 < skew < WINDOW
    ensures var run := [Request(key, 1, 0), Request(other, 1, WINDOW), Request(key, 1, WINDOW - skew)];
            Lags(run, skew) && OneLimit(run, key, 1)
  {
  }

  /** The loss is real, to the millisecond: one millisecond more than the interval above
      can hold two charges under a limit of one. */
  lemma SkewLetsThrough(key: string, other: string, skew: nat)
    requires key != other && 0 < skew < WINDOW
    ensures var run := [Request(key, 1, 0), Request(other, 1, WINDOW), Request(key, 1, WINDOW - skew)];
            Lags(run, skew) && OneLimit(run, key, 1) && CountIn(Accepted(run, key), -1, WINDOW - skew + 1) == 2
  {
    var two, c := [Request(key, 1, 0), Request(other, 1, WINDOW)], Request(key, 1, WINDOW - skew);
    SkewLags(key, other, skew);
    SkewAccepts(key, other, skew, two, c);
    CountTwo(0, WINDOW - skew, -1, WINDOW - skew + 1);
    assert two + [c] == [Request(key, 1, 0), Request(other, 1, WINDOW), c];
  }

  lemma FirstCharge(r: Request)
    requires r.limit > 0
    ensures Get(WindowsAfter([r]), r.key) == [r.now] && Accepted([r], r.key) == [r.now]
    ensures Only([r], r.key) == [r]
  {
    var none: seq<Request> := [];
    var empty: Windows := map[];
    assert none + [r] == [r] && [r][..0] == none;
    WindowsSnoc(none, r);
    AcceptedSnoc(none, r, r.key);
    DebitedWindow(empty, r, r.key);
    SweptWindow(empty, r.key, r.now - WINDOW);
  }

  lemma CountTwo(x: int, y: int, from: int, length: int)
    requires from < x <= from + length && from < y <= from + length
    ensures CountIn([x, y], from, length) == 2
  {
    var none: seq<int> := [];
    assert none + [x] == [x] && [x] + [y] == [x, y];
    CountSnoc(none, x, from, length);
    CountSnoc([x], y, from, length);
  }

  lemma CountSnoc(log: seq<int>, t: int, from: int, length: int)
    ensures CountIn(log + [t], from, length) == CountIn(log, from, length) + (if from < t <= from + length then 1 else 0)
  {
    assert (log + [t])[..|log|] == log;
  }

  lemma {:induction false} RecentCount(log: seq<int>, from: int)
    requires Upto(log, from + WINDOW)
    ensures |Recent(log, from)| == CountIn(log, from, WINDOW)
  {
    if log != [] {
      var init, t := log[..|log| - 1], log[|log| - 1];
      RecentCount(init, from);
      RecentSnoc(init, t, from);
      assert init + [t] == log;
    }
  }

  lemma ReferenceFull(log: seq<int>, limit: int, now: int)
    requires Upto(log, now)
    ensures Reference(log, limit, now).Wait? <==> CountIn(log, now - WINDOW, WINDOW) >= limit
  {
    RecentCount(log, now - WINDOW);
  }

  lemma LogUpto(run: seq<Request>, key: string, now: int)
    requires InOrder(run) && (run != [] ==> run[|run| - 1].now <= now)
    ensures Upto(Get(LogsAfter(run), key), now)
  {
    RunTracks(run, now);
    assert TracksKey(Get(WindowsAfter(run), key), Get(LogsAfter(run), key),
                     if run == [] then now else run[|run| - 1].now);
  }

  /** A request is refused exactly when the last 60,000 ms already hold as many accepted
      charges of its own key as its limit allows. */
  lemma RefusedIffFull(run: seq<Request>, r: Request)
    requires InOrder(run + [r])
    ensures Takes(run, r) <==> CountIn(Accepted(run, r.key), r.now - 60_000, 60_000) < r.limit
  {
    TakesByReference(run, r);
    AcceptedUpto(run, r);
    RoomByReference(Accepted(run, r.key), r, Takes(run, r));
  }

  lemma RoomByReference(log: seq<int>, r: Request, taken: bool)
    requires Upto(log, r.now) && (taken <==> Reference(log, r.limit, r.now).Charged?)
    ensures taken <==> CountIn(log, r.now - WINDOW, WINDOW) < r.limit
  {
    ReferenceFull(log, r.limit, r.now);
  }

  lemma AcceptedUpto(run: seq<Request>, r: Request)
    requires InOrder(run + [r])
    ensures Upto(Accepted(run, r.key), r.now)
  {
    OrderSplit(run, r);
    AcceptedIsLog(run, r.key);
    LogUpto(run, r.key, r.now);
  }

  lemma TakesByReference(run: seq<Request>, r: Request)
    requires InOrder(run + [r])
    ensures Takes(run, r) <==> Reference(Accepted(run, r.key), r.limit, r.now).Charged?
  {
    OrderSplit(run, r);
    AcceptedIsLog(run, r.key);
    DecisionsMatchReference(run, r);
  }

  // ---- The wait a refusal reports --------------------------------------------------

  /** A refusal names a wait of at least one second that ends no more than 999 ms before the
      oldest charge leaves the window and not after it, except that inside the last second
      it is exactly one. These bounds leave room for one number only. */
  lemma WaitBound(window: seq<int>, limit: int, now: int)
    requires Evict(window, now - WINDOW) == window && |window| >= limit
    ensures Verdict(window, limit, now).Wait?
    ensures var secs := Verdict(window, limit, now).secs;
            var due := (if window == [] then now else window[0]) + WINDOW;
            && secs >= 1 && due - 999 <= now + 1000 * secs <= Max(due, now + 1000)
            && forall other :: other >= 1 && due - 999 <= now + 1000 * other <= Max(due, now + 1000) ==> other == secs
  {
  }

  /** Retrying after exactly the reported wait, with nobody charging in between, is accepted
      if and only if as many of the oldest charges as are over the limit leave by then. With
      the window exactly full that is one charge, and it leaves in time exactly when the
      remaining milliseconds were whole seconds or at most one second; one second more is
      then always enough. */
  lemma RetryAfterWait(window: seq<int>, limit: int, now: int)
    requires Evict(window, now - WINDOW) == window
    requires 0 < limit <= |window|
    ensures Accepts(window, limit, RetryAt(window, limit, now))
       <==> forall i :: 0 <= i <= |window| - limit ==> window[i] + WINDOW <= RetryAt(window, limit, now)
    ensures |window| == limit ==>
              var rest := window[0] + WINDOW - now;
              && (Accepts(window, limit, RetryAt(window, limit, now)) <==> rest <= 1000 || rest % 1000 == 0)
              && Accepts(window, limit, RetryAt(window, limit, now) + 1000)
  {
    EvictLength(window, RetryAt(window, limit, now) - WINDOW, limit);
    EvictLength(window, RetryAt(window, limit, now) + 1000 - WINDOW, limit);
  }

  /** The moment a refusal at `now` tells its caller to come back. */
  function RetryAt(window: seq<int>, limit: int, now: int): int
    requires limit <= |window|
  {
    now + 1000 * Verdict(window, limit, now).secs
  }

  /** Whether a request at `now` is accepted by a window that has stood since. */
  predicate Accepts(window: seq<int>, limit: int, now: int) {
    Verdict(Evict(window, now - WINDOW), limit, now).Charged?
  }

  lemma {:induction false} EvictLength(window: seq<int>, cutoff: int, limit: int)
    requires 0 < limit <= |window|
    ensures |Evict(window, cutoff)| < limit <==> forall i :: 0 <= i <= |window| - limit ==> window[i] <= cutoff
  {
    if window[0] <= cutoff && limit < |window| {
      EvictLength(window[1..], cutoff, limit);
      assert window == [window[0]] + window[1..];
    }
    EvictSuffix(window, cutoff);
  }

  /** A limit of zero or less refuses every request for good. */
  lemma ZeroLimitRefuses(ws: Windows, key: string, limit: int, now: int)
    requires limit <= 0
    ensures Debited(ws, key, limit, now).1.Wait?
  {
  }

  // ---- The once-a-minute touch -------------------------------------------------------

  const TOUCH_EVERY := 60_000
  const TOUCH_KEPT := 3_600_000

  type Touches = map<string, int>

  function EvictStale(touched: Touches, now: int): Touches {
    map id | id in touched && now - touched[id] < TOUCH_KEPT :: touched[id]
  }

  predicate Due(touched: Touches, id: string, now: int) {
    id in touched ==> now - touched[id] >= TOUCH_EVERY
  }

  function Touch(touched: Touches, id: string, now: int): Touches {
    var kept := EvictStale(touched, now);
    if Due(kept, id, now) then kept[id := now] else kept
  }

  class TouchLog {
    var touched: Touches

    method TouchLastUsed(id: string, now: int) returns (persisted: bool)
      modifies this
      ensures touched == Touch(old(touched), id, now)
      ensures persisted <==> Due(old(touched), id, now)
    {
      touched := EvictStale(touched, now);
      persisted := if id in touched then now - touched[id] >= TOUCH_EVERY else true;
      if persisted {
        touched := touched[id := now];
      }
    }
  }

  /** What the throttle remembers after a use is no older than an hour, and it forgets
      nothing younger. */
  lemma TouchForgets(touched: Touches, id: string, now: int, other: string)
    requires other != id
    ensures other in Touch(touched, id, now) <==> other in touched && now - touched[other] < 3_600_000
    ensures other in Touch(touched, id, now) ==> Touch(touched, id, now)[other] == touched[other]
  {
  }

  datatype Use = Use(id: string, now: int)

  function TouchesAfter(run: seq<Use>): Touches {
    if run == [] then map[]
    else Touch(TouchesAfter(run[..|run| - 1]), run[|run| - 1].id, run[|run| - 1].now)
  }

  /** The same run on a map that is never evicted. */
  function KeptAfter(run: seq<Use>): Touches {
    if run == [] then map[]
    else
      var kept, use := KeptAfter(run[..|run| - 1]), run[|run| - 1];
      if Due(kept, use.id, use.now) then kept[use.id := use.now] else kept
  }

  ghost predicate UsesInOrder(run: seq<Use>) {
    forall i, j :: 0 <= i < j < |run| ==> run[i].now <= run[j].now
  }

  ghost predicate SameTouches(touched: Touches, kept: Touches, now: int) {
    && (forall id :: id in touched ==> id in kept && touched[id] == kept[id])
    && (forall id :: id in kept ==> kept[id] <= now && (id in touched || now - kept[id] >= TOUCH_KEPT))
  }

  lemma {:induction false} TouchRun(run: seq<Use>, now: int)
    requires UsesInOrder(run) && (run != [] ==> run[|run| - 1].now <= now)
    ensures SameTouches(TouchesAfter(run), KeptAfter(run), now)
  {
    if run != [] {
      var before, use := run[..|run| - 1], run[|run| - 1];
      TouchRun(before, use.now);
    }
  }

  /** In any run in clock order, dropping entries after an hour never changes whether a
      use is persisted. */
  lemma EvictionNeverDecides(run: seq<Use>, use: Use)
    requires UsesInOrder(run + [use])
    ensures Due(TouchesAfter(run), use.id, use.now) <==> Due(KeptAfter(run), use.id, use.now)
  {
    assert forall i :: 0 <= i < |run| ==> (run + [use])[i] == run[i];
    assert (run + [use])[|run|] == use;
    TouchRun(run, use.now);
  }

  /** The times at which uses of one credential were persisted. */
  function Persisted(run: seq<Use>, id: string): seq<int> {
    if run == [] then []
    else
      var before, use := run[..|run| - 1], run[|run| - 1];
      Persisted(before, id) +
      (if use.id == id && Due(TouchesAfter(before), id, use.now) then [use.now] else [])
  }

  ghost predicate MinuteApart(times: seq<int>) {
    forall i :: 0 < i < |times| ==> times[i] - times[i - 1] >= 60_000
  }

  lemma PersistedStep(run: seq<Use>, id: string)
    requires UsesInOrder(run) && run != []
    ensures var before, use := run[..|run| - 1], run[|run| - 1];
            Persisted(run, id) == Persisted(before, id) +
            (if use.id == id && Due(KeptAfter(before), id, use.now) then [use.now] else [])
  {
    var before, use := run[..|run| - 1], run[|run| - 1];
    assert before + [use] == run;
    EvictionNeverDecides(before, use);
  }

  lemma {:induction false} LastPersisted(run: seq<Use>, id: string)
    requires UsesInOrder(run)
    ensures var times := Persisted(run, id);
            if times == [] then id !in KeptAfter(run)
            else id in KeptAfter(run) && KeptAfter(run)[id] == times[|times| - 1]
  {
    if run != [] {
      LastPersisted(run[..|run| - 1], id);
      PersistedStep(run, id);
    }
  }

  /** A credential is persisted at most once a minute, and a use goes unpersisted only
      when a persisted one lies less than a minute back. */
  lemma {:induction false} PersistedOnceAMinute(run: seq<Use>, id: string)
    requires UsesInOrder(run)
    ensures MinuteApart(Persisted(run, id))
    ensures run != [] && run[|run| - 1].id == id ==>
            var times := Persisted(run, id);
            times != [] && run[|run| - 1].now - times[|times| - 1] < 60_000
  {
    if run != [] {
      PersistedOnceAMinute(run[..|run| - 1], id);
      PersistedStep(run, id);
      LastPersisted(run[..|run| - 1], id);
    }
  }
}
