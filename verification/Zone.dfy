/** Zones and the resolution of local wall-clock times (`resolve_local` of
    src/schedule.rs). Instants and wall clocks count whole minutes from the midnight that
    starts day number 0.

    A zone is what its database entry holds: an offset and the instants at which another
    offset takes over. Offsets are whole minutes, changes are at least two days apart,
    and how far one change may shift the clock is a parameter of each statement. */
module Zone {
  import opened Prelude

  const DAY := 1440
  const MAX_GAP_MINUTES := 240
  const APART := 2 * DAY

  datatype Change = Change(at: int, offset: int)

  datatype Zone = Zone(first: int, changes: seq<Change>) {
    function Last(): Change
      requires changes != []
    {
      changes[|changes| - 1]
    }

    function Earlier(): Zone
      requires changes != []
    {
      Zone(first, changes[..|changes| - 1])
    }

    /** The offset in force once every change has happened. */
    function Final(): int {
      if changes == [] then first else Last().offset
    }
  }

  const UTC := Zone(0, [])

  /** Changes two days apart, each shifting the clock by at most `shift` minutes. */
  ghost predicate Sparse(z: Zone, shift: int)
    decreases |z.changes|
  {
    z.changes != [] ==>
      && Sparse(z.Earlier(), shift)
      && -shift <= z.Last().offset - z.Earlier().Final() <= shift
      && (z.Earlier().changes != [] ==> z.Earlier().Last().at + APART <= z.Last().at)
  }

  function OffsetAt(z: Zone, t: int): int
    decreases |z.changes|
  {
    if z.changes == [] then z.first
    else if z.Last().at <= t then z.Last().offset
    else OffsetAt(z.Earlier(), t)
  }

  /** The wall clock at an instant. */
  function Local(z: Zone, t: int): int {
    t + OffsetAt(z, t)
  }

  /** The offset in force is that of the latest change, or the first one before any. */
  lemma {:induction false} OffsetInForce(z: Zone, t: int)
    requires Sparse(z, DAY)
    ensures (z.changes == [] || t < z.changes[0].at) ==> OffsetAt(z, t) == z.first
    ensures forall i :: InForce(z, i, t) ==> OffsetAt(z, t) == z.changes[i].offset
    decreases |z.changes|
  {
    if z.changes != [] {
      var e := z.Earlier();
      OffsetInForce(e, t);
      forall i | InForce(z, i, t) ensures OffsetAt(z, t) == z.changes[i].offset {
        if i < |e.changes| {
          ChangesAscend(z, DAY, i);
          assert e.changes[i] == z.changes[i];
          LatestBefore(z, i, t);
          assert InForce(e, i, t);
        }
      }
      if |z.changes| > 1 && t < z.changes[0].at {
        ChangesAscend(z, DAY, 0);
        assert e.changes[0] == z.changes[0];
      }
    }
  }

  ghost predicate InForce(z: Zone, i: int, t: int) {
    && 0 <= i < |z.changes| && z.changes[i].at <= t
    && (i + 1 < |z.changes| ==> t < z.changes[i + 1].at)
  }

  lemma LatestBefore(z: Zone, i: nat, t: int)
    requires Sparse(z, DAY) && InForce(z, i, t) && i + 1 < |z.changes|
    ensures t < z.Last().at
  {
    ChangesAscend(z, DAY, i + 1);
  }

  // ---- From a wall clock back to instants --------------------------------------------

  datatype LocalResult = Single(t: int) | Ambiguous(earlier: int, later: int) | Nonexistent

  /** The instants before `limit` that show a wall clock, in order. */
  function Showing(z: Zone, l: int, limit: Option<int>): seq<int>
    decreases |z.changes|
  {
    var t := l - z.Final();
    var last := if limit.Some? && limit.value <= t then [] else [t];
    if z.changes == [] then last
    else Showing(z.Earlier(), l, Some(z.Last().at)) + (if z.Last().at <= t then last else [])
  }

  function FromLocal(z: Zone, l: int): LocalResult {
    var ts := Showing(z, l, None);
    if ts == [] then Nonexistent
    else if |ts| == 1 then Single(ts[0])
    else Ambiguous(ts[0], ts[|ts| - 1])
  }

  ghost predicate Ordered(z: Zone, limit: Option<int>) {
    z.changes != [] && limit.Some? ==> z.Last().at < limit.value
  }

  lemma {:induction false} ShowingComplete(z: Zone, l: int, limit: Option<int>, t: int)
    requires Sparse(z, DAY) && Ordered(z, limit)
    ensures t in Showing(z, l, limit) <==> Local(z, t) == l && (limit.Some? ==> t < limit.value)
    decreases |z.changes|
  {
    if z.changes != [] {
      ShowingComplete(z.Earlier(), l, Some(z.Last().at), t);
    }
  }

  lemma {:induction false} ShowingAscends(z: Zone, l: int, limit: Option<int>)
    requires Sparse(z, DAY) && Ordered(z, limit)
    ensures forall i, j :: 0 <= i < j < |Showing(z, l, limit)| ==> Showing(z, l, limit)[i] < Showing(z, l, limit)[j]
    decreases |z.changes|
  {
    if z.changes != [] {
      var limit', before := Some(z.Last().at), Showing(z.Earlier(), l, Some(z.Last().at));
      ShowingAscends(z.Earlier(), l, limit');
      forall i | 0 <= i < |before|
        ensures before[i] < z.Last().at
      {
        ShowingComplete(z.Earlier(), l, limit', before[i]);
      }
    }
  }

  // ---- The least instant that has reached a wall clock --------------------------------

  /** The least instant whose wall clock has reached `w`. */
  function First(z: Zone, w: int): int
    decreases |z.changes|
  {
    if z.changes == [] then w - z.first
    else
      var t := First(z.Earlier(), w);
      if t < z.Last().at then t else Max(z.Last().at, w - z.Last().offset)
  }

  lemma {:induction false} FirstIsLeast(z: Zone, w: int, t: int)
    ensures Local(z, First(z, w)) >= w
    ensures t < First(z, w) ==> Local(z, t) < w
    decreases |z.changes|
  {
    if z.changes != [] {
      FirstIsLeast(z.Earlier(), w, t);
      FirstIsLeast(z.Earlier(), w, z.Last().at - 1);
    }
  }

  lemma FirstMonotone(z: Zone, w: int, w': int)
    requires w <= w'
    ensures First(z, w) <= First(z, w')
  {
    FirstIsLeast(z, w, First(z, w'));
    FirstIsLeast(z, w', First(z, w));
  }

  /** One minute moves the wall clock by one minute, up to the shift of a change. */
  lemma {:induction false} LocalStep(z: Zone, shift: int, t: int)
    requires Sparse(z, shift) && 0 <= shift
    ensures Local(z, t) - Local(z, t - 1) <= 1 + shift
    ensures Local(z, t) - Local(z, t - 1) != 1 ==> exists i :: 0 <= i < |z.changes| && z.changes[i].at == t
    decreases |z.changes|
  {
    if z.changes != [] {
      LocalStep(z.Earlier(), shift, t);
      if t == z.Last().at {
        OffsetAfterAll(z.Earlier(), t - 1);
        assert z.changes[|z.changes| - 1].at == t;
      } else if t < z.Last().at {
        if Local(z, t) - Local(z, t - 1) != 1 {
          var i :| 0 <= i < |z.Earlier().changes| && z.Earlier().changes[i].at == t;
          assert z.changes[i].at == t;
        }
      }
    }
  }

  lemma OffsetAfterAll(z: Zone, t: int)
    requires z.changes == [] || z.Last().at <= t
    ensures OffsetAt(z, t) == z.Final()
  {
  }

  /** From the instant of a change on, the wall clock runs at least half as fast as time:
      two days have to pass before it can be set back by one. */
  lemma {:induction false} HalfSpeed(z: Zone, i: nat, t: int)
    requires Sparse(z, DAY) && i < |z.changes| && z.changes[i].at <= t
    ensures 2 * (Local(z, t) - Local(z, z.changes[i].at)) >= t - z.changes[i].at
    decreases |z.changes|
  {
    var f := z.changes[i].at;
    ChangesAscend(z, DAY, i);
    if i < |z.changes| - 1 {
      var e := z.Earlier();
      assert e.changes[i] == z.changes[i];
      if t < z.Last().at {
        HalfSpeed(e, i, t);
      } else {
        ChangesAscend(e, DAY, i);
        HalfSpeed(e, i, e.Last().at);
        assert Local(z, f) == Local(e, f);
      }
    }
  }

  lemma {:induction false} ChangesAscend(z: Zone, shift: int, i: nat)
    requires Sparse(z, shift) && i < |z.changes|
    ensures i < |z.changes| - 1 ==> z.changes[i].at + APART <= z.Last().at
    decreases |z.changes|
  {
    if i < |z.changes| - 1 {
      assert z.Earlier().changes[i] == z.changes[i];
      ChangesAscend(z.Earlier(), shift, i);
    }
  }

  /** Past the instant that first reaches a wall clock, the clock never shows one of the
      minutes that were jumped over to reach it. */
  lemma NoReturnIntoGap(z: Zone, w: int, t: int)
    requires Sparse(z, DAY) && First(z, w) <= t && w <= Local(z, t)
    ensures Local(z, First(z, w)) <= Local(z, t) || Local(z, First(z, w)) == w
  {
    var f := First(z, w);
    FirstIsLeast(z, w, f - 1);
    LocalStep(z, DAY, f);
    if Local(z, f) > w {
      var i :| 0 <= i < |z.changes| && z.changes[i].at == f;
      HalfSpeed(z, i, t);
    }
  }

  // ---- Resolution -----------------------------------------------------------------------

  /** What resolution yields for a wall clock: the least instant that has reached it,
      unless that instant is more than the searched gap past it. */
  function Resolved(z: Zone, w: int): Option<int> {
    var t := First(z, w);
    if Local(z, t) - w <= MAX_GAP_MINUTES then Some(t) else None
  }

  /** Which instant a candidate minute yields: the earlier one if there are two. */
  lemma CandidateInstant(z: Zone, w: int, l: int)
    requires Sparse(z, DAY) && w <= l <= Local(z, First(z, w))
    ensures l < Local(z, First(z, w)) ==> FromLocal(z, l).Nonexistent?
    ensures l == Local(z, First(z, w)) ==>
              var r := FromLocal(z, l);
              !r.Nonexistent? && First(z, w) == if r.Single? then r.t else r.earlier
  {
    var f, ts := First(z, w), Showing(z, l, None);
    ShowingAscends(z, l, None);
    if ts != [] {
      ShowingComplete(z, l, None, ts[0]);
      FirstIsLeast(z, w, ts[0]);
      NoReturnIntoGap(z, w, ts[0]);
    }
    ShowingComplete(z, l, None, f);
  }

  method ResolveLocal(z: Zone, date: int, hh: nat, mm: nat) returns (r: Option<int>)
    requires Sparse(z, DAY)
    ensures r == Resolved(z, DAY * date + 60 * hh + mm)
  {
    var wanted := DAY * date + 60 * hh + mm;
    FirstIsLeast(z, wanted, wanted);
    for minutes := 0 to MAX_GAP_MINUTES + 1
      invariant wanted + minutes <= Local(z, First(z, wanted))
    {
      CandidateInstant(z, wanted, wanted + minutes);
      match FromLocal(z, wanted + minutes)
      case Single(t) => return Some(t);
      case Ambiguous(earlier, _) => return Some(earlier);
      case Nonexistent =>
    }
    return None;
  }

  /** The rule for both clock anomalies, for every zone: an occurrence is resolved if and
      only if the wall clock is at most 240 minutes past the requested time when it first
      reaches it; it then resolves to the least such instant, and to the requested wall
      clock itself exactly when that exists at all. */
  lemma ResolvedIff(z: Zone, w: int)
    requires Sparse(z, DAY)
    ensures Resolved(z, w).Some? <==> exists t :: w <= Local(z, t) <= w + MAX_GAP_MINUTES
    ensures Resolved(z, w).Some? ==>
              var t := Resolved(z, w).value;
              && Local(z, t) >= w && (forall u :: u < t ==> Local(z, u) < w)
              && (Local(z, t) == w <==> exists u :: Local(z, u) == w)
  {
    var f := First(z, w);
    FirstIsLeast(z, w, f);
    forall u | u < f
      ensures Local(z, u) < w
    {
      FirstIsLeast(z, w, u);
    }
    forall u | w <= Local(z, u)
      ensures Local(z, f) <= Local(z, u) || Local(z, f) == w
    {
      FirstIsLeast(z, w, u);
      NoReturnIntoGap(z, w, u);
    }
  }

  /** A change that skips at most 240 minutes never drops an occurrence. */
  lemma SmallShiftResolves(z: Zone, w: int)
    requires Sparse(z, MAX_GAP_MINUTES)
    ensures Resolved(z, w).Some?
  {
    FirstIsLeast(z, w, First(z, w) - 1);
    LocalStep(z, MAX_GAP_MINUTES, First(z, w));
  }

  /** A zone that skips a whole calendar day drops that day's occurrence. */
  lemma SkippedDayIsDropped(date: int)
    ensures var z := Zone(-600, [Change(DAY * date + 600, 840)]);
            Sparse(z, DAY) && Resolved(z, DAY * date + 540).None?
  {
    var z := Zone(-600, [Change(DAY * date + 600, 840)]);
    assert z.Earlier() == Zone(-600, []);
    assert First(z.Earlier(), DAY * date + 540) == DAY * date + 1140;
    assert First(z, DAY * date + 540) == z.Last().at;
  }

  /** The wall clock at an instant is at most one shift ahead of any later one. */
  lemma {:induction false} LocalDrop(z: Zone, shift: int, t: int, u: int)
    requires Sparse(z, shift) && 0 <= shift <= DAY && t <= u
    ensures Local(z, t) <= Local(z, u) + shift
    decreases |z.changes|
  {
    if z.changes != [] && z.Last().at <= u {
      var e := z.Earlier();
      if t < z.Last().at {
        if e.changes != [] && t < e.Last().at {
          LocalDrop(e, shift, t, e.Last().at);
        } else {
          OffsetAfterAll(e, t);
        }
      }
    } else if z.changes != [] {
      LocalDrop(z.Earlier(), shift, t, u);
    }
  }
}
