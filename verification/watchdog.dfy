/**
  The tunnel watchdog's rebuildState: when a silent tunnel is rebuilt, and when a failed build is
  tried again. Times are monotonic readings; a handshake is the opaque wall-clock value WireGuard
  reports, with 0 for the zero time.
 */
module Watchdog {
  import opened Wrappers

  type Handshake = int
  const NoHandshake: Handshake := 0

  /** The fields of rebuildState; `None` stands for the zero time. */
  datatype Rebuild = Rebuild(
    after: int, backoffMax: int, wait: int,
    lastHandshake: Handshake, observedAt: Option<int>,
    retryAt: Option<int>, retryWait: int)

  /** The longest interval either backoff reaches. */
  function Ceiling(s: Rebuild): int {
    Max(s.backoffMax, s.after)
  }

  function EffectiveWait(s: Rebuild): int {
    if s.after <= 0 then 0 else Max(s.wait, s.after)
  }

  /** What one reading of the handshake leaves behind. */
  function Observe(s: Rebuild, now: int, handshake: Handshake): Rebuild {
    if handshake == s.lastHandshake then s
    else s.(lastHandshake := handshake, observedAt := Some(now),
            wait := if handshake != NoHandshake then s.after else s.wait)
  }

  /** The later of the last observed change and the tunnel's start. */
  function Since(s: Rebuild, start: int): int {
    if s.observedAt.None? then start else Max(s.observedAt.value, start)
  }

  predicate RebuildDue(s: Rebuild, now: int, start: int) {
    s.after > 0 && now - Since(s, start) >= EffectiveWait(s)
  }

  function AfterStep(s: Rebuild, now: int, start: int, handshake: Handshake): Rebuild {
    var o := Observe(s, now, handshake);
    if RebuildDue(o, now, start) then o.(wait := Min(2 * EffectiveWait(o), Ceiling(o))) else o
  }

  function AfterFailedBuild(s: Rebuild, now: int): Rebuild {
    if s.retryAt.None? then s.(retryAt := Some(now), retryWait := s.after)
    else s.(retryAt := Some(now + s.retryWait), retryWait := Min(2 * s.retryWait, Ceiling(s)))
  }

  function Cleared(s: Rebuild): Rebuild {
    s.(retryAt := None, retryWait := 0)
  }

  class RebuildState {
    const after: int
    const backoffMax: int
    var wait: int
    var lastHandshake: Handshake
    var observedAt: Option<int>
    var retryAt: Option<int>
    var retryWait: int

    ghost function View(): Rebuild
      reads this
    {
      Rebuild(after, backoffMax, wait, lastHandshake, observedAt, retryAt, retryWait)
    }

    constructor (after: int, backoffMax: int)
      ensures View() == Rebuild(after, backoffMax, 0, NoHandshake, None, None, 0)
    {
      this.after, this.backoffMax := after, backoffMax;
      wait, lastHandshake, observedAt := 0, NoHandshake, None;
      retryAt, retryWait := None, 0;
    }

    method Step(now: int, start: int, handshake: Handshake) returns (idle: int, rebuild: bool)
      modifies this
      ensures View() == AfterStep(old(View()), now, start, handshake)
      ensures rebuild == RebuildDue(Observe(old(View()), now, handshake), now, start)
      ensures after > 0 ==> idle == now - Since(View(), start)
    {
      if handshake != lastHandshake {
        lastHandshake, observedAt := handshake, Some(now);
        if handshake != NoHandshake {
          wait := after;
        }
      }
      if after <= 0 {
        return 0, false;
      }
      var since := start;
      if observedAt.Some? && start <= observedAt.value {
        since := observedAt.value;
      }
      idle := now - since;
      var w := Max(wait, after);
      if idle < w {
        return idle, false;
      }
      wait := Min(2 * w, Max(backoffMax, after));
      return idle, true;
    }

    method FailedBuild(now: int)
      modifies this
      ensures View() == AfterFailedBuild(old(View()), now)
    {
      if retryAt.None? {
        retryAt, retryWait := Some(now), after;
        return;
      }
      retryAt := Some(now + retryWait);
      retryWait := Min(2 * retryWait, Max(backoffMax, after));
    }

    method ClearRetry()
      modifies this
      ensures View() == Cleared(old(View()))
    {
      retryAt, retryWait := None, 0;
    }
  }

  // ----- Runs of checks -----

  /**
    One periodic check: its time, the handshake it reads, and the start time of the tunnel it
    builds if it rebuilds.
   */
  datatype Check = Check(now: int, handshake: Handshake, restart: int)

  /** One rebuild: when it happened and when the tunnel it replaced was started. */
  datatype Fired = Fired(at: int, start: int)

  function StartAfter(s: Rebuild, start: int, c: Check): int {
    if RebuildDue(Observe(s, c.now, c.handshake), c.now, start) then c.restart else start
  }

  /** The rebuilds of a run of checks, in order. */
  function Rebuilds(s: Rebuild, start: int, cs: seq<Check>): seq<Fired>
    decreases |cs|
  {
    if cs == [] then []
    else
      var c := cs[0];
      (if RebuildDue(Observe(s, c.now, c.handshake), c.now, start) then [Fired(c.now, start)] else [])
      + Rebuilds(AfterStep(s, c.now, start, c.handshake), StartAfter(s, start, c), cs[1..])
  }

  /** Every check reads either no handshake or the value the check before it read. */
  predicate NoNewHandshake(last: Handshake, cs: seq<Check>)
    decreases |cs|
  {
    cs == [] || ((cs[0].handshake == NoHandshake || cs[0].handshake == last)
                 && NoNewHandshake(cs[0].handshake, cs[1..]))
  }

  predicate RestartsLater(cs: seq<Check>) {
    forall c <- cs :: c.now <= c.restart
  }

  /** min(2^i * after, max(backoffMax, after)) */
  function Interval(after: int, ceiling: int, i: nat): int {
    Min(Pow2(i) * after, ceiling)
  }

  lemma IntervalZero(after: int, ceiling: int)
    requires after <= ceiling
    ensures Interval(after, ceiling, 0) == after
  {
    assert Pow2(0) * after == after;
  }

  lemma PowDoubles(i: nat, after: int)
    ensures Pow2(i + 1) * after == 2 * (Pow2(i) * after)
  {
  }

  lemma NextInterval(after: int, ceiling: int, i: nat)
    requires 0 <= after <= ceiling
    ensures Interval(after, ceiling, i + 1) == Min(2 * Interval(after, ceiling, i), ceiling)
  {
    PowDoubles(i, after);
  }

  lemma IntervalDoubles(after: int, ceiling: int, i: nat, w: int)
    requires 0 < after <= ceiling
    requires w >= Interval(after, ceiling, i)
    ensures Min(2 * w, ceiling) >= Interval(after, ceiling, i + 1)
  {
    var p := Pow2(i) * after;
    assert Pow2(i + 1) * after == 2 * p;
  }

  /**
    Without a new handshake the i-th rebuild (counted from `i`) leaves the tunnel it replaces at
    least min(2^i * after, max(backoffMax, after)) to recover.
   */
  lemma {:induction false} RebuildsBackOffFrom(s: Rebuild, start: int, cs: seq<Check>, i: nat, k: nat)
    requires s.after > 0
    requires NoNewHandshake(s.lastHandshake, cs)
    requires EffectiveWait(s) >= Interval(s.after, Ceiling(s), i)
    requires k < |Rebuilds(s, start, cs)|
    ensures var f := Rebuilds(s, start, cs)[k];
            f.at - f.start >= Interval(s.after, Ceiling(s), i + k)
    decreases |cs|
  {
    var c := cs[0];
    var o := Observe(s, c.now, c.handshake);
    var s', start' := AfterStep(s, c.now, start, c.handshake), StartAfter(s, start, c);
    assert o.wait == s.wait;
    if RebuildDue(o, c.now, start) {
      if k > 0 {
        IntervalDoubles(s.after, Ceiling(s), i, EffectiveWait(o));
        RebuildsBackOffFrom(s', start', cs[1..], i + 1, k - 1);
      }
    } else {
      RebuildsBackOffFrom(s', start', cs[1..], i, k);
    }
  }

  /** Consecutive rebuilds: the tunnel the later one replaces was started after the earlier one. */
  lemma {:induction false} RebuildsChain(s: Rebuild, start: int, cs: seq<Check>, k: nat)
    requires RestartsLater(cs)
    requires 0 < k < |Rebuilds(s, start, cs)|
    ensures Rebuilds(s, start, cs)[k - 1].at <= Rebuilds(s, start, cs)[k].start
    decreases |cs|
  {
    var c := cs[0];
    var s', start' := AfterStep(s, c.now, start, c.handshake), StartAfter(s, start, c);
    var tail := Rebuilds(s', start', cs[1..]);
    if RebuildDue(Observe(s, c.now, c.handshake), c.now, start) {
      if k == 1 {
        FirstRebuildStart(s', start', cs[1..]);
      } else {
        RebuildsChain(s', start', cs[1..], k - 1);
      }
    } else {
      RebuildsChain(s', start', cs[1..], k);
    }
  }

  lemma {:induction false} FirstRebuildStart(s: Rebuild, start: int, cs: seq<Check>)
    requires Rebuilds(s, start, cs) != []
    ensures Rebuilds(s, start, cs)[0].start == start
    decreases |cs|
  {
    var c := cs[0];
    if !RebuildDue(Observe(s, c.now, c.handshake), c.now, start) {
      FirstRebuildStart(AfterStep(s, c.now, start, c.handshake), start, cs[1..]);
    }
  }

  /**
    While no new handshake is read, rebuild k comes at least min(2^k * after,
    max(backoffMax, after)) after rebuild k - 1; the first comes at least `after` after the tunnel's
    start.
   */
  lemma RebuildsBackOff(s: Rebuild, start: int, cs: seq<Check>, k: nat)
    requires s.after > 0 && NoNewHandshake(s.lastHandshake, cs) && RestartsLater(cs)
    requires k < |Rebuilds(s, start, cs)|
    ensures var fired := Rebuilds(s, start, cs);
            var before := if k == 0 then start else fired[k - 1].at;
            fired[k].at - before >= Interval(s.after, Ceiling(s), k)
  {
    assert Pow2(0) * s.after == s.after;
    RebuildsBackOffFrom(s, start, cs, 0, k);
    if k == 0 {
      FirstRebuildStart(s, start, cs);
    } else {
      RebuildsChain(s, start, cs, k);
    }
  }

  /** The watchdog and the tunnel's start after a run of checks. */
  function After(s: Rebuild, start: int, cs: seq<Check>): (Rebuild, int)
    decreases |cs|
  {
    if cs == [] then (s, start)
    else After(AfterStep(s, cs[0].now, start, cs[0].handshake), StartAfter(s, start, cs[0]), cs[1..])
  }

  /**
    The backoff is exact: without a new handshake the interval in force counts the rebuilds so far,
    so the next rebuild comes at the first check that far after the tunnel's start.
   */
  lemma {:induction false} WaitCountsRebuilds(s: Rebuild, start: int, cs: seq<Check>, i: nat)
    requires s.after > 0 && NoNewHandshake(s.lastHandshake, cs)
    requires EffectiveWait(s) == Interval(s.after, Ceiling(s), i)
    ensures EffectiveWait(After(s, start, cs).0)
            == Interval(s.after, Ceiling(s), i + |Rebuilds(s, start, cs)|)
    decreases |cs|
  {
    if cs != [] {
      var c := cs[0];
      var s', start' := AfterStep(s, c.now, start, c.handshake), StartAfter(s, start, c);
      if RebuildDue(Observe(s, c.now, c.handshake), c.now, start) {
        assert Pow2(i + 1) * s.after == 2 * (Pow2(i) * s.after);
        WaitCountsRebuilds(s', start', cs[1..], i + 1);
      } else {
        WaitCountsRebuilds(s', start', cs[1..], i);
      }
    }
  }

  /** Check `j` reads a value other than the one read just before it. */
  predicate ChangesAt(last: Handshake, cs: seq<Check>, j: nat)
    requires j < |cs|
  {
    cs[j].handshake != if j == 0 then last else cs[j - 1].handshake
  }

  /** At check `i` the value was seen to change, or the tunnel started, less than `after` ago. */
  predicate Recent(s: Rebuild, start: int, cs: seq<Check>, i: nat)
    requires i < |cs|
  {
    || cs[i].now - Since(s, start) < s.after
    || exists j: nat | j <= i :: ChangesAt(s.lastHandshake, cs, j) && cs[i].now - cs[j].now < s.after
  }

  predicate SeenToChange(s: Rebuild, start: int, cs: seq<Check>) {
    forall i: nat | i < |cs| :: Recent(s, start, cs, i)
  }

  /** The checks follow each other and the observation `s` already holds. */
  predicate InOrder(s: Rebuild, cs: seq<Check>) {
    && (forall i, j | 0 <= i <= j < |cs| :: cs[i].now <= cs[j].now)
    && (s.observedAt.Some? ==> forall c <- cs :: s.observedAt.value <= c.now)
  }

  lemma {:induction false} RecentAfterStep(s: Rebuild, start: int, cs: seq<Check>, i: nat)
    requires i + 1 < |cs| && InOrder(s, cs) && Recent(s, start, cs, i + 1)
    requires !RebuildDue(Observe(s, cs[0].now, cs[0].handshake), cs[0].now, start)
    ensures Recent(AfterStep(s, cs[0].now, start, cs[0].handshake), start, cs[1..], i)
  {
    var s', rest := AfterStep(s, cs[0].now, start, cs[0].handshake), cs[1..];
    assert cs[0] in cs && rest[i] == cs[i + 1];
    if cs[i + 1].now - Since(s, start) >= s.after {
      var j: nat :| j <= i + 1 && ChangesAt(s.lastHandshake, cs, j) && cs[i + 1].now - cs[j].now < s.after;
      if j > 0 {
        assert rest[j - 1] == cs[j] && ChangesAt(s'.lastHandshake, rest, j - 1);
      }
    }
  }

  /** A tunnel whose handshake is seen to change in every window shorter than `after` is never rebuilt. */
  lemma {:induction false} HealthyTunnelIsNeverRebuilt(s: Rebuild, start: int, cs: seq<Check>)
    requires InOrder(s, cs) && SeenToChange(s, start, cs)
    ensures Rebuilds(s, start, cs) == []
    decreases |cs|
  {
    if cs != [] {
      var s', rest := AfterStep(s, cs[0].now, start, cs[0].handshake), cs[1..];
      assert Recent(s, start, cs, 0) && cs[0] in cs;
      assert !RebuildDue(Observe(s, cs[0].now, cs[0].handshake), cs[0].now, start);
      forall i: nat | i < |rest| ensures Recent(s', start, rest, i) {
        assert Recent(s, start, cs, i + 1);
        RecentAfterStep(s, start, cs, i);
      }
      HealthyTunnelIsNeverRebuilt(s', start, rest);
    }
  }

  // ----- Exactly when a check rebuilds -----

  /** A watchdog that has seen nothing yet. */
  function Fresh(after: int, backoffMax: int): Rebuild {
    Rebuild(after, backoffMax, 0, NoHandshake, None, None, 0)
  }

  /** Whether each check of a run rebuilds. */
  function Decisions(s: Rebuild, start: int, cs: seq<Check>): (ds: seq<bool>)
    ensures |ds| == |cs|
    decreases |cs|
  {
    if cs == [] then []
    else
      var c := cs[0];
      [RebuildDue(Observe(s, c.now, c.handshake), c.now, start)]
      + Decisions(AfterStep(s, c.now, start, c.handshake), StartAfter(s, start, c), cs[1..])
  }

  /** The start of the tunnel that check i reads: of the last one a check before it rebuilt. */
  function StartBefore(start: int, cs: seq<Check>, ds: seq<bool>, i: nat): int
    requires i <= |cs| == |ds|
  {
    if i == 0 then start else if ds[i - 1] then cs[i - 1].restart else StartBefore(start, cs, ds, i - 1)
  }

  /** When the value last changed, up to and including check i. */
  function LastChange(cs: seq<Check>, i: nat): Option<int>
    requires i < |cs|
  {
    if ChangesAt(NoHandshake, cs, i) then Some(cs[i].now) else if i == 0 then None else LastChange(cs, i - 1)
  }

  /** How many checks have rebuilt since the one, up to and including i, that last read a new handshake. */
  function RebuildsSince(cs: seq<Check>, ds: seq<bool>, i: nat): nat
    requires i < |cs| == |ds|
  {
    if i == 0 || (ChangesAt(NoHandshake, cs, i) && cs[i].handshake != NoHandshake) then 0
    else RebuildsSince(cs, ds, i - 1) + if ds[i - 1] then 1 else 0
  }

  /** The later of the tunnel's start and a change, if there was one. */
  function Later(start: int, change: Option<int>): int {
    if change.None? then start else Max(start, change.value)
  }

  /** Each decision is the one the watchdog takes in the state and on the tunnel that the checks before left. */
  lemma {:induction false} DecisionAt(s: Rebuild, start: int, cs: seq<Check>, i: nat)
    requires i < |cs|
    ensures var (t, started) := After(s, start, cs[..i]); var c := cs[i];
            && Decisions(s, start, cs)[i] == RebuildDue(Observe(t, c.now, c.handshake), c.now, started)
            && After(s, start, cs[..i + 1]) ==
               (AfterStep(t, c.now, started, c.handshake), StartAfter(t, started, c))
    decreases i
  {
    hide AfterStep, RebuildDue, Observe;
    if i == 0 {
      assert cs[..0] == [] && cs[..1][1..] == [];
    } else {
      var c := cs[0];
      DecisionAt(AfterStep(s, c.now, start, c.handshake), StartAfter(s, start, c), cs[1..], i - 1);
      assert cs[..i][1..] == cs[1..][..i - 1] && cs[..i + 1][1..] == cs[1..][..i];
    }
  }

  /** What the watchdog knows before check i, from the checks alone. */
  lemma {:induction false} KnownBefore(after: int, backoffMax: int, start: int, cs: seq<Check>, i: nat)
    requires i <= |cs|
    ensures var s, ds := Fresh(after, backoffMax), Decisions(Fresh(after, backoffMax), start, cs);
            var (t, started) := After(s, start, cs[..i]);
            && t.after == after && t.backoffMax == backoffMax && started == StartBefore(start, cs, ds, i)
            && t.lastHandshake == (if i == 0 then NoHandshake else cs[i - 1].handshake)
            && t.observedAt == (if i == 0 then None else LastChange(cs, i - 1))
            && (after > 0 ==>
                  EffectiveWait(t) == Interval(after, Max(backoffMax, after),
                    if i == 0 then 0 else RebuildsSince(cs, ds, i - 1) + if ds[i - 1] then 1 else 0))
    decreases i
  {
    hide Interval, After, Decisions;
    IntervalZero(after, Max(backoffMax, after));
    if i == 0 {
      assert cs[..0] == [] && After(Fresh(after, backoffMax), start, []) == (Fresh(after, backoffMax), start) by {
        EmptyRun(Fresh(after, backoffMax), start);
      }
    } else {
      KnownBefore(after, backoffMax, start, cs, i - 1);
      DecisionAt(Fresh(after, backoffMax), start, cs, i - 1);
      if after > 0 {
        NextInterval(after, Max(backoffMax, after),
                     RebuildsSince(cs, Decisions(Fresh(after, backoffMax), start, cs), i - 1));
      }
    }
  }

  lemma EmptyRun(s: Rebuild, start: int)
    ensures After(s, start, []) == (s, start)
  {
  }

  /**
    Check i rebuilds if and only if the later of the tunnel's start and the last change is at least
    min(2^k * after, max(backoffMax, after)) ago, where k counts the rebuilds since the last new handshake.
   */
  lemma RebuildsExactly(after: int, backoffMax: int, start: int, cs: seq<Check>, i: nat)
    requires i < |cs|
    ensures var ds := Decisions(Fresh(after, backoffMax), start, cs);
            ds[i] <==>
            && after > 0
            && cs[i].now - Later(StartBefore(start, cs, ds, i), LastChange(cs, i))
               >= Interval(after, Max(backoffMax, after), RebuildsSince(cs, ds, i))
  {
    hide Interval, After, Decisions;
    IntervalZero(after, Max(backoffMax, after));
    KnownBefore(after, backoffMax, start, cs, i);
    DecisionAt(Fresh(after, backoffMax), start, cs, i);
  }
}
