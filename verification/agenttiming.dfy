/** The watchdog's timing over runs of the whole agent, where applies, retries and rotate-key also build tunnels. */
module AgentTiming {
  import opened Wrappers
  import opened RuleTypes
  import opened Watchdog
  import opened Agent
  import opened AgentRuns

  // ----- Rebuilds back off -----

  /** The event reads the handshake of a built tunnel. */
  predicate Reads(a: Runtime, ev: Event) {
    !a.over && ev.CheckTunnel? && a.built && a.last.Some?
  }

  /** The event finds the tunnel silent for too long and rebuilds it. */
  predicate Fires(a: Runtime, ev: Event) {
    Reads(a, ev) && RebuildDue(Observe(a.rebuild, ev.env.now, ev.handshake), ev.env.now, a.tunStart)
  }

  /** The times at which the watchdog rebuilds in a run. */
  function FireTimes(a: Runtime, evs: seq<Event>): seq<int>
    decreases |evs|
  {
    if evs == [] then []
    else (if Fires(a, evs[0]) then [evs[0].env.now] else []) + FireTimes(Step(a, evs[0]), evs[1..])
  }

  /** No reading of the run sees a new handshake. */
  predicate Quiet(a: Runtime, evs: seq<Event>)
    decreases |evs|
  {
    evs == [] || (
      && (Reads(a, evs[0]) ==> evs[0].handshake == NoHandshake || evs[0].handshake == a.rebuild.lastHandshake)
      && Quiet(Step(a, evs[0]), evs[1..]))
  }

  /** The events come in order from t on, and a tunnel starts no earlier than the event that builds it. */
  predicate Timed(t: int, evs: seq<Event>)
    decreases |evs|
  {
    evs == [] ||
    if evs[0].Close? then Timed(t, evs[1..])
    else t <= evs[0].env.now <= evs[0].env.clk && Timed(evs[0].env.now, evs[1..])
  }

  /** The interval in force after the event. */
  function WaitAfter(a: Runtime, ev: Event): int {
    if Reads(a, ev) then AfterStep(a.rebuild, ev.env.now, a.tunStart, ev.handshake).wait else a.rebuild.wait
  }

  lemma BuildWait(a: Runtime, st: State, applied: bool, e: Env)
    ensures var b := AfterBuild(a, st, applied, e);
            b.rebuild.wait == a.rebuild.wait && b.tunStart == e.clk
  {
  }

  lemma ApplyWait(a: Runtime, st: State, e: Env)
    ensures var b := AfterApply(a, st, e);
            b.rebuild.wait == a.rebuild.wait && (b.tunStart == a.tunStart || b.tunStart == e.clk)
  {
    hide AfterBuild, AfterFinish;
    var c := AfterCheckWG(a, st, e);
    BuildWait(c, st, false, e);
    FinishSchedules(c, st, e);
    FinishStart(c, st, e);
  }

  lemma FinishStart(a: Runtime, st: State, e: Env)
    ensures AfterFinish(a, st, e).tunStart == a.tunStart
  {
  }

  lemma CheckWait(a: Runtime, h: Handshake, e: Env)
    requires !a.over
    ensures var b, ev := AfterCheckTunnel(a, h, e), CheckTunnel(h, e);
            && b.rebuild.wait == WaitAfter(a, ev)
            && (b.tunStart == a.tunStart || b.tunStart == e.clk) && (Fires(a, ev) ==> b.tunStart == e.clk)
  {
    hide AfterBuild;
    if RetryDue(a, e.now) {
      BuildWait(a, a.retrySt.value, false, e);
    }
    if a.last.Some? {
      BuildWait(AfterReading(a, h, e), a.last.value, true, e);
    }
  }

  /** Only readings move the interval in force, and only builds move the tunnel's start. */
  lemma StepWait(a: Runtime, ev: Event)
    ensures var b := Step(a, ev);
            && b.rebuild.wait == WaitAfter(a, ev)
            && (b.tunStart == a.tunStart || (!ev.Close? && b.tunStart == ev.env.clk))
            && (Fires(a, ev) ==> b.tunStart == ev.env.clk)
  {
    hide AfterApply, AfterCheckTunnel;
    if !a.over {
      match ev
      case Apply(st, e) => ApplyWait(a, st, e);
      case Rotate(e) => if a.last.Some? { ApplyWait(AfterClose(a), a.last.value, e); }
      case Reapply(found, e) => if found.Some? { ApplyWait(a, found.value, e); }
      case Close =>
      case CheckTunnel(h, e) => CheckWait(a, h, e);
      case RetryPublish(e) => if a.pending.Some? { ApplyWait(a, a.pending.value, e); }
    }
  }

  /** Without a new handshake a rebuild comes EffectiveWait after the tunnel's start, and doubles it. */
  lemma QuietStep(a: Runtime, ev: Event, i: nat)
    requires a.rebuild.after > 0 && EffectiveWait(a.rebuild) >= Interval(a.rebuild.after, Ceiling(a.rebuild), i)
    requires Reads(a, ev) ==> ev.handshake == NoHandshake || ev.handshake == a.rebuild.lastHandshake
    ensures var b, r := Step(a, ev).rebuild, a.rebuild;
            && b.after == r.after && b.backoffMax == r.backoffMax
            && (Fires(a, ev) ==> ev.env.now - a.tunStart >= Interval(r.after, Ceiling(r), i))
            && EffectiveWait(b) >= Interval(r.after, Ceiling(r), if Fires(a, ev) then i + 1 else i)
  {
    hide Step, Interval;
    StepExtends(a, ev);
    StepWait(a, ev);
    var r := a.rebuild;
    if Reads(a, ev) {
      var o := Observe(r, ev.env.now, ev.handshake);
      assert o.wait == r.wait;
      IntervalDoubles(r.after, Ceiling(r), i, EffectiveWait(o));
    }
  }

  lemma {:induction false} RebuildsBackOffFrom(a: Runtime, evs: seq<Event>, i: nat, k: nat, since: int, t: int)
    requires a.rebuild.after > 0 && EffectiveWait(a.rebuild) >= Interval(a.rebuild.after, Ceiling(a.rebuild), i)
    requires Quiet(a, evs) && Timed(t, evs) && since <= t && since <= a.tunStart
    requires k < |FireTimes(a, evs)|
    ensures var times := FireTimes(a, evs);
            times[k] - (if k == 0 then since else times[k - 1]) >= Interval(a.rebuild.after, Ceiling(a.rebuild), i + k)
    decreases |evs|
  {
    hide Step, Fires, Interval, EffectiveWait, Reads;
    var ev, b := evs[0], Step(a, evs[0]);
    FiringIsCheck(a, ev);
    QuietStep(a, ev, i);
    StepWait(a, ev);
    var t' := if ev.Close? then t else ev.env.now;
    if !Fires(a, ev) {
      RebuildsBackOffFrom(b, evs[1..], i, k, since, t');
    } else if k > 0 {
      RebuildsBackOffFrom(b, evs[1..], i + 1, k - 1, ev.env.now, t');
    }
  }

  lemma FiringIsCheck(a: Runtime, ev: Event)
    ensures Reads(a, ev) || Fires(a, ev) ==> ev.CheckTunnel?
  {
  }

  /**
    In every run of the agent that sees no new handshake, whatever else builds tunnels in between, the
    k-th rebuild by the watchdog comes at least min(2^k * after, max(backoffMax, after)) after the one
    before, and the first at least `after` after the tunnel's start.
   */
  lemma RunRebuildsBackOff(a: Runtime, evs: seq<Event>, k: nat)
    requires a.rebuild.after > 0 && Quiet(a, evs) && Timed(a.tunStart, evs) && k < |FireTimes(a, evs)|
    ensures var times := FireTimes(a, evs);
            times[k] - (if k == 0 then a.tunStart else times[k - 1]) >= Interval(a.rebuild.after, Ceiling(a.rebuild), k)
  {
    hide FireTimes, Quiet, Timed;
    IntervalZero(a.rebuild.after, Ceiling(a.rebuild));
    RebuildsBackOffFrom(a, evs, 0, k, a.tunStart, a.tunStart);
  }

  // ----- A healthy tunnel is never rebuilt -----

  lemma {:induction false} RunOneMore(a: Runtime, evs: seq<Event>, i: nat)
    requires i < |evs|
    ensures Run(a, evs[..i + 1]) == Step(Run(a, evs[..i]), evs[i])
    decreases i
  {
    hide Step;
    if i == 0 {
      assert evs[..1][1..] == [];
    } else {
      RunOneMore(Step(a, evs[0]), evs[1..], i - 1);
      assert evs[..i + 1][1..] == evs[1..][..i] && evs[..i][1..] == evs[1..][..i - 1];
    }
  }

  /** The runtime before event i of a run. */
  function At(a: Runtime, evs: seq<Event>, i: nat): Runtime
    requires i <= |evs|
  {
    Run(a, evs[..i])
  }

  /** Event i reads another handshake than the last one read before it. */
  predicate SeesChange(a: Runtime, evs: seq<Event>, i: nat)
    requires i < |evs|
  {
    Reads(At(a, evs, i), evs[i]) && evs[i].handshake != At(a, evs, i).rebuild.lastHandshake
  }

  /** Event i comes less than `after` after the tunnel's start, a change in the run, or the last one before it. */
  predicate Recent(a: Runtime, evs: seq<Event>, i: nat)
    requires i < |evs| && !evs[i].Close?
  {
    var now, after := evs[i].env.now, a.rebuild.after;
    || now - At(a, evs, i).tunStart < after
    || (a.rebuild.observedAt.Some? && now - a.rebuild.observedAt.value < after)
    || exists j: nat | j <= i :: SeesChange(a, evs, j) && now - evs[j].env.now < after
  }

  /** Every reading of the run is recent. */
  predicate SeenToChange(a: Runtime, evs: seq<Event>) {
    forall i: nat | i < |evs| && Reads(At(a, evs, i), evs[i]) :: Recent(a, evs, i)
  }

  /** The events come in order, none before the last change already seen. */
  predicate InOrder(a: Runtime, evs: seq<Event>) {
    && (forall i, j | 0 <= i <= j < |evs| && !evs[i].Close? && !evs[j].Close? :: evs[i].env.now <= evs[j].env.now)
    && (a.rebuild.observedAt.Some? ==>
          forall i | 0 <= i < |evs| && !evs[i].Close? :: a.rebuild.observedAt.value <= evs[i].env.now)
  }

  lemma BuildObserved(a: Runtime, st: State, applied: bool, e: Env)
    ensures AfterBuild(a, st, applied, e).rebuild.observedAt == a.rebuild.observedAt
  {
    hide AfterBuild;
    BuildSchedules(a, st, applied, e);
  }

  lemma ApplyObserved(a: Runtime, st: State, e: Env)
    ensures AfterApply(a, st, e).rebuild.observedAt == a.rebuild.observedAt
  {
    hide AfterBuild, AfterFinish;
    BuildObserved(AfterCheckWG(a, st, e), st, false, e);
    FinishSchedules(AfterCheckWG(a, st, e), st, e);
  }

  lemma CheckObserved(a: Runtime, h: Handshake, e: Env)
    requires !a.over
    ensures AfterCheckTunnel(a, h, e).rebuild.observedAt ==
            if Reads(a, CheckTunnel(h, e)) && h != a.rebuild.lastHandshake then Some(e.now) else a.rebuild.observedAt
  {
    hide AfterBuild;
    if RetryDue(a, e.now) {
      BuildObserved(a, a.retrySt.value, false, e);
    }
    if a.last.Some? {
      BuildObserved(AfterReading(a, h, e), a.last.value, true, e);
    }
  }

  /** Only a reading that sees a change moves the time of the last change. */
  lemma StepObserved(a: Runtime, ev: Event)
    ensures Step(a, ev).rebuild.observedAt ==
            if Reads(a, ev) && ev.handshake != a.rebuild.lastHandshake then Some(ev.env.now) else a.rebuild.observedAt
  {
    hide AfterApply, AfterCheckTunnel;
    if !a.over {
      match ev
      case Apply(st, e) => ApplyObserved(a, st, e);
      case Rotate(e) => if a.last.Some? { ApplyObserved(AfterClose(a), a.last.value, e); }
      case Reapply(found, e) => if found.Some? { ApplyObserved(a, found.value, e); }
      case Close =>
      case CheckTunnel(h, e) => CheckObserved(a, h, e);
      case RetryPublish(e) => if a.pending.Some? { ApplyObserved(a, a.pending.value, e); }
    }
  }

  predicate NotBefore(t: Option<int>, at: int) {
    t.Some? && t.value >= at
  }

  /** The last change the watchdog knows before event i is no earlier than any change of the run before it. */
  lemma {:induction false} ChangesAreKept(a: Runtime, evs: seq<Event>, i: nat)
    requires i <= |evs| && InOrder(a, evs)
    ensures var seen := At(a, evs, i).rebuild.observedAt;
            && (a.rebuild.observedAt.Some? ==> NotBefore(seen, a.rebuild.observedAt.value))
            && forall j: nat | j < i && SeesChange(a, evs, j) :: NotBefore(seen, evs[j].env.now)
    decreases i
  {
    hide Step;
    if i == 0 {
      assert evs[..0] == [];
    } else {
      ChangesAreKept(a, evs, i - 1);
      RunOneMore(a, evs, i - 1);
      StepObserved(At(a, evs, i - 1), evs[i - 1]);
    }
  }

  lemma {:induction false} NoneFires(a: Runtime, evs: seq<Event>)
    requires forall i: nat | i < |evs| :: !Fires(At(a, evs, i), evs[i])
    ensures FireTimes(a, evs) == []
    decreases |evs|
  {
    hide Step, Fires;
    if evs != [] {
      var b := Step(a, evs[0]);
      assert evs[..0] == [] && At(a, evs, 0) == a;
      forall i: nat | i < |evs[1..]| ensures !Fires(At(b, evs[1..], i), evs[1..][i]) {
        assert evs[..i + 1][1..] == evs[1..][..i];
        assert At(a, evs, i + 1) == At(b, evs[1..], i);
      }
      NoneFires(b, evs[1..]);
    }
  }

  lemma RecentDoesNotFire(a: Runtime, evs: seq<Event>, i: nat)
    requires i < |evs| && InOrder(a, evs) && SeenToChange(a, evs)
    ensures !Fires(At(a, evs, i), evs[i])
  {
    hide Run, Step;
    var s, ev := At(a, evs, i), evs[i];
    if Reads(s, ev) {
      assert Recent(a, evs, i);
      RunExtends(a, evs[..i]);
      ChangesAreKept(a, evs, i);
      var o := Observe(s.rebuild, ev.env.now, ev.handshake);
      if s.rebuild.after > 0 && ev.env.now - s.tunStart >= s.rebuild.after {
        if !(a.rebuild.observedAt.Some? && ev.env.now - a.rebuild.observedAt.value < a.rebuild.after) {
          var j: nat :| j <= i && SeesChange(a, evs, j) && ev.env.now - evs[j].env.now < a.rebuild.after;
          assert NotBefore(o.observedAt, evs[j].env.now);
        }
        assert ev.env.now - Since(o, s.tunStart) < s.rebuild.after;
      }
    }
  }

  /**
    In every run of the agent, whatever builds tunnels in it: a tunnel whose handshake is seen to change
    in every window shorter than `after`, from its start on, is never rebuilt by the watchdog.
   */
  lemma HealthyRunIsNeverRebuilt(a: Runtime, evs: seq<Event>)
    requires InOrder(a, evs) && SeenToChange(a, evs)
    ensures FireTimes(a, evs) == []
  {
    hide Run, Fires;
    forall i: nat | i < |evs| ensures !Fires(At(a, evs, i), evs[i]) {
      RecentDoesNotFire(a, evs, i);
    }
    NoneFires(a, evs);
  }

  // ----- Exactly when the watchdog rebuilds -----

  lemma BuildSeen(a: Runtime, st: State, applied: bool, e: Env)
    ensures AfterBuild(a, st, applied, e).rebuild.lastHandshake == a.rebuild.lastHandshake
  {
    hide AfterBuild;
    BuildSchedules(a, st, applied, e);
  }

  lemma ApplySeen(a: Runtime, st: State, e: Env)
    ensures AfterApply(a, st, e).rebuild.lastHandshake == a.rebuild.lastHandshake
  {
    hide AfterBuild, AfterFinish;
    BuildSeen(AfterCheckWG(a, st, e), st, false, e);
    FinishSchedules(AfterCheckWG(a, st, e), st, e);
  }

  lemma CheckSeen(a: Runtime, h: Handshake, e: Env)
    requires !a.over
    ensures AfterCheckTunnel(a, h, e).rebuild.lastHandshake ==
            if Reads(a, CheckTunnel(h, e)) then h else a.rebuild.lastHandshake
  {
    hide AfterBuild;
    if RetryDue(a, e.now) {
      BuildSeen(a, a.retrySt.value, false, e);
    }
    if a.last.Some? {
      BuildSeen(AfterReading(a, h, e), a.last.value, true, e);
    }
  }

  /** Only a reading moves the handshake the next one is compared with. */
  lemma StepSeen(a: Runtime, ev: Event)
    ensures Step(a, ev).rebuild.lastHandshake == if Reads(a, ev) then ev.handshake else a.rebuild.lastHandshake
  {
    hide AfterApply, AfterCheckTunnel;
    if !a.over {
      match ev
      case Apply(st, e) => ApplySeen(a, st, e);
      case Rotate(e) => if a.last.Some? { ApplySeen(AfterClose(a), a.last.value, e); }
      case Reapply(found, e) => if found.Some? { ApplySeen(a, found.value, e); }
      case Close =>
      case CheckTunnel(h, e) => CheckSeen(a, h, e);
      case RetryPublish(e) => if a.pending.Some? { ApplySeen(a, a.pending.value, e); }
    }
  }

  /** The handshake that the last reading before event i saw. */
  function ReadBefore(a: Runtime, evs: seq<Event>, i: nat): Handshake
    requires i <= |evs|
  {
    if i == 0 then NoHandshake
    else if Reads(At(a, evs, i - 1), evs[i - 1]) then evs[i - 1].handshake
    else ReadBefore(a, evs, i - 1)
  }

  /** Event i reads another handshake than the reading before it. */
  predicate ReadsOther(a: Runtime, evs: seq<Event>, i: nat)
    requires i < |evs|
  {
    Reads(At(a, evs, i), evs[i]) && evs[i].handshake != ReadBefore(a, evs, i)
  }

  /** When a reading last saw another handshake, up to and including event i. */
  function ChangeBy(a: Runtime, evs: seq<Event>, i: nat): Option<int>
    requires i < |evs|
  {
    if ReadsOther(a, evs, i) then Some(evs[i].env.now) else if i == 0 then None else ChangeBy(a, evs, i - 1)
  }

  /** How often the watchdog has rebuilt since a reading, up to and including event i, last saw a new handshake. */
  function FiredSince(a: Runtime, evs: seq<Event>, i: nat): nat
    requires i < |evs|
  {
    if i == 0 || (ReadsOther(a, evs, i) && evs[i].handshake != NoHandshake) then 0
    else FiredSince(a, evs, i - 1) + if Fires(At(a, evs, i - 1), evs[i - 1]) then 1 else 0
  }

  /** What the watchdog knows before event i, from the readings and rebuilds of the run alone. */
  ghost predicate Knows(a: Runtime, evs: seq<Event>, i: nat)
    requires i <= |evs|
  {
    var s := At(a, evs, i).rebuild;
    && s.after == a.rebuild.after && s.backoffMax == a.rebuild.backoffMax
    && s.lastHandshake == ReadBefore(a, evs, i)
    && s.observedAt == (if i == 0 then None else ChangeBy(a, evs, i - 1))
    && (s.after > 0 ==>
          EffectiveWait(s) == Interval(s.after, Ceiling(s),
            if i == 0 then 0
            else FiredSince(a, evs, i - 1) + if Fires(At(a, evs, i - 1), evs[i - 1]) then 1 else 0))
  }

  lemma WaitFollows(a: Runtime, ev: Event, k: nat)
    requires a.rebuild.after > 0
    requires EffectiveWait(a.rebuild) == Interval(a.rebuild.after, Ceiling(a.rebuild), k)
    ensures var b, r := Step(a, ev).rebuild, a.rebuild;
            var k' := if Reads(a, ev) && ev.handshake != r.lastHandshake && ev.handshake != NoHandshake then 0 else k;
            && EffectiveWait(b) == Interval(r.after, Ceiling(r), k' + if Fires(a, ev) then 1 else 0)
            && (Reads(a, ev) ==>
                  EffectiveWait(Observe(r, ev.env.now, ev.handshake)) == Interval(r.after, Ceiling(r), k'))
  {
    hide Step, Interval;
    StepExtends(a, ev);
    StepWait(a, ev);
    var r := a.rebuild;
    IntervalZero(r.after, Ceiling(r));
    NextInterval(r.after, Ceiling(r), k);
    NextInterval(r.after, Ceiling(r), 0);
  }

  lemma {:induction false} KnowsBefore(a: Runtime, evs: seq<Event>, i: nat)
    requires i <= |evs| && a.rebuild == Watchdog.Fresh(a.rebuild.after, a.rebuild.backoffMax)
    ensures Knows(a, evs, i)
    decreases i
  {
    hide Step, Interval, Fires, Reads;
    if i == 0 {
      assert evs[..0] == [] && At(a, evs, 0) == a;
      IntervalZero(a.rebuild.after, Ceiling(a.rebuild));
    } else {
      KnowsBefore(a, evs, i - 1);
      RunOneMore(a, evs, i - 1);
      KnowsNext(a, evs, i - 1);
    }
  }

  lemma KnowsNext(a: Runtime, evs: seq<Event>, i: nat)
    requires i < |evs| && Knows(a, evs, i) && At(a, evs, i + 1) == Step(At(a, evs, i), evs[i])
    ensures Knows(a, evs, i + 1)
  {
    hide Step, Interval, Run, Fires, Reads;
    var s, ev := At(a, evs, i), evs[i];
    StepExtends(s, ev);
    StepSeen(s, ev);
    StepObserved(s, ev);
    if s.rebuild.after > 0 {
      WaitFollows(s, ev, if i == 0 then 0
                         else FiredSince(a, evs, i - 1) + if Fires(At(a, evs, i - 1), evs[i - 1]) then 1 else 0);
    }
  }

  /**
    In every run of the agent, whatever builds tunnels in it, an event that reads a tunnel's handshake rebuilds
    the tunnel if and only if the later of the tunnel's start and the last change is at least
    min(2^k * after, max(backoffMax, after)) ago, where k counts the watchdog's rebuilds since a reading last
    saw a new handshake.
   */
  lemma RunRebuildsExactly(
    checksWG: bool, after: int, backoffMax: int, saved: Option<State>, wg: WGConfig, evs: seq<Event>, i: nat)
    requires i < |evs| && Reads(At(Started(checksWG, after, backoffMax, saved, wg), evs, i), evs[i])
    ensures var a := Started(checksWG, after, backoffMax, saved, wg);
            Fires(At(a, evs, i), evs[i]) <==>
            && after > 0
            && evs[i].env.now - Later(At(a, evs, i).tunStart, ChangeBy(a, evs, i))
               >= Interval(after, Max(backoffMax, after), FiredSince(a, evs, i))
  {
    hide Step, Interval, Run;
    var a := Started(checksWG, after, backoffMax, saved, wg);
    KnowsBefore(a, evs, i);
    var s, ev := At(a, evs, i), evs[i];
    if after > 0 {
      WaitFollows(s, ev, if i == 0 then 0
                         else FiredSince(a, evs, i - 1) + if Fires(At(a, evs, i - 1), evs[i - 1]) then 1 else 0);
    }
  }

  // ----- The intervals fit an int64 -----

  const INT64_END := 0x8000_0000_0000_0000

  /** What the code doubles is still an int64. */
  predicate DoublesFit(s: Rebuild) {
    2 * EffectiveWait(s) < INT64_END && 2 * s.retryWait < INT64_END
  }

  predicate Bounded(s: Rebuild) {
    s.after >= 0 && s.wait <= Ceiling(s) && s.retryWait <= Ceiling(s) && (s.after == 0 ==> s.retryWait == 0)
  }

  lemma BuildBounded(a: Runtime, st: State, applied: bool, e: Env)
    requires Bounded(a.rebuild)
    ensures Bounded(AfterBuild(a, st, applied, e).rebuild)
  {
    hide AfterBuild;
    BuildSchedules(a, st, applied, e);
  }

  lemma ApplyBounded(a: Runtime, st: State, e: Env)
    requires Bounded(a.rebuild)
    ensures Bounded(AfterApply(a, st, e).rebuild)
  {
    hide AfterBuild, AfterFinish;
    var c := AfterCheckWG(a, st, e);
    BuildBounded(c, st, false, e);
    FinishSchedules(c, st, e);
  }

  lemma CheckBounded(a: Runtime, h: Handshake, e: Env)
    requires Bounded(a.rebuild)
    ensures Bounded(AfterCheckTunnel(a, h, e).rebuild)
  {
    hide AfterBuild;
    if RetryDue(a, e.now) {
      BuildBounded(a, a.retrySt.value, false, e);
    } else if a.last.Some? {
      BuildBounded(AfterReading(a, h, e), a.last.value, true, e);
    }
  }

  lemma StepBounded(a: Runtime, ev: Event)
    requires Bounded(a.rebuild)
    ensures Bounded(Step(a, ev).rebuild)
  {
    hide AfterApply, AfterCheckTunnel;
    match ev
    case Apply(st, e) => ApplyBounded(a, st, e);
    case Rotate(e) => if a.last.Some? { ApplyBounded(AfterClose(a), a.last.value, e); }
    case Reapply(found, e) => if found.Some? { ApplyBounded(a, found.value, e); }
    case Close =>
    case CheckTunnel(h, e) => CheckBounded(a, h, e);
    case RetryPublish(e) => if a.pending.Some? { ApplyBounded(a, a.pending.value, e); }
  }

  lemma {:induction false} RunBounded(a: Runtime, evs: seq<Event>)
    requires Bounded(a.rebuild)
    ensures Bounded(Run(a, evs).rebuild)
    decreases |evs|
  {
    hide Step, Bounded;
    if evs != [] {
      StepBounded(a, evs[0]);
      RunBounded(Step(a, evs[0]), evs[1..]);
    }
  }

  /** An apply whose build fails retryably. */
  const FAILS := Apply(ONE, Env(0, 0, true, Retryable, Published, true))

  function Failures(n: nat): seq<Event> {
    if n == 0 then [] else [FAILS] + Failures(n - 1)
  }

  lemma {:induction false} FailuresStreak(a: Runtime, n: nat, k: nat)
    requires !a.built && !a.over
    ensures StreakOf(a, Failures(n), Streak(k, 0)) == Streak(k + n, 0)
    decreases n
  {
    if n > 0 {
      var b := Step(a, FAILS);
      assert !b.built && !b.over;
      assert Failures(n)[1..] == Failures(n - 1);
      FailuresStreak(b, n - 1, k + 1);
    }
  }

  lemma Pow62()
    ensures Pow2(62) == INT64_END / 2
  {
    assert Pow2(8) == 256;
    assert Pow2(16) == 65536 by { assert Pow2(12) == 4096; }
    assert Pow2(24) == 0x100_0000 by { assert Pow2(20) == 0x10_0000; }
    assert Pow2(32) == 0x1_0000_0000 by { assert Pow2(28) == 0x1000_0000; }
    assert Pow2(40) == 0x100_0000_0000 by { assert Pow2(36) == 0x10_0000_0000; }
    assert Pow2(48) == 0x1_0000_0000_0000 by { assert Pow2(44) == 0x1000_0000_0000; }
    assert Pow2(56) == 0x100_0000_0000_0000 by { assert Pow2(52) == 0x10_0000_0000_0000; }
    assert Pow2(60) == 0x1000_0000_0000_0000;
  }

  lemma LongInterval(after: int, ceiling: int)
    requires after > 0 && ceiling >= INT64_END / 2
    ensures Interval(after, ceiling, 62) >= INT64_END / 2
  {
    hide Pow2;
    Pow62();
    assert Pow2(62) * after >= Pow2(62);
  }

  /** With a ceiling of 2^62 or more, 63 failed builds in a row reach an interval whose double wraps. */
  lemma FailuresOverflow(a: Runtime)
    requires a.rebuild.after > 0 && a.rebuild.retryAt.None? && Ceiling(a.rebuild) >= INT64_END / 2
    requires !a.built && !a.over
    ensures 2 * Run(a, Failures(63)).rebuild.retryWait >= INT64_END
  {
    hide Run, StreakOf, Failures, Pow2, Interval;
    var evs, r := Failures(63), a.rebuild;
    RunKeepsSchedule(a, evs, Streak(0, 0));
    FailuresStreak(a, 63, 0);
    RunExtends(a, evs);
    LongInterval(r.after, Ceiling(r));
  }

  /**
    The code computes with int64 what the model computes without bound, in every run from a start with
    these thresholds, if and only if there are no rebuilds or the larger threshold is below 2^62 ns.
   */
  lemma IntervalsFit(checksWG: bool, after: int, backoffMax: int, saved: Option<State>, wg: WGConfig)
    requires after >= 0
    ensures var a := Started(checksWG, after, backoffMax, saved, wg);
            (forall evs :: DoublesFit(Run(a, evs).rebuild)) <==> Max(backoffMax, after) < INT64_END / 2 || after == 0
  {
    var a := Started(checksWG, after, backoffMax, saved, wg);
    if Max(backoffMax, after) < INT64_END / 2 || after == 0 {
      forall evs ensures DoublesFit(Run(a, evs).rebuild) {
        RunBounded(a, evs);
        RunExtends(a, evs);
      }
    } else {
      FailuresOverflow(a);
      assert !DoublesFit(Run(a, Failures(63)).rebuild);
    }
  }
}
