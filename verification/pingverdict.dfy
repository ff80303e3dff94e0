/**
  The ping loop's verdict. The stream's reader answers no pong while it applies a state, so the loop
  reads a counter, which applying a state bumps on the way in and on the way out, before it sends a
  ping and again when the pong is late.
 */
module PingVerdict {

  /** The counter is a uint64. */
  const WRAP: nat := 0x1_0000_0000_0000_0000

  datatype Ping =
    | Idle
    | Awaiting(loaded: nat)
    | Late(loaded: nat)
    | Dead
    | Stopped

  /** The counter, whether the reader is applying a state, and where the ping loop is. */
  datatype State = State(counter: nat, applying: bool, ping: Ping)

  datatype Event =
    | BeginApply
    | EndApply
    | Tick                     // loads the counter and, unless it is odd, sends a ping
    | Pong
    | NoPong
    | Verdict(cancelled: bool) // loads the counter again

  predicate Enabled(s: State, e: Event) {
    match e
    case BeginApply => !s.applying
    case EndApply => s.applying
    case Tick => s.ping.Idle?
    case Pong => s.ping.Awaiting?
    case NoPong => s.ping.Awaiting?
    case Verdict(_) => s.ping.Late?
  }

  function Next(s: State, e: Event): State
    requires Enabled(s, e)
  {
    match e
    case BeginApply => s.(counter := (s.counter + 1) % WRAP, applying := true)
    case EndApply => s.(counter := (s.counter + 1) % WRAP, applying := false)
    case Tick => if s.counter % 2 == 1 then s else s.(ping := Awaiting(s.counter))
    case Pong => s.(ping := Idle)
    case NoPong => s.(ping := Late(s.ping.loaded))
    case Verdict(cancelled) =>
      if cancelled then s.(ping := Stopped)
      else if s.counter != s.ping.loaded then s.(ping := Idle)
      else s.(ping := Dead)
  }

  const BEGIN := State(0, false, Idle)

  predicate Runs(s: State, run: seq<Event>)
    decreases |run|
  {
    run == [] || (Enabled(s, run[0]) && Runs(Next(s, run[0]), run[1..]))
  }

  function After(s: State, run: seq<Event>): State
    requires Runs(s, run)
    decreases |run|
  {
    if run == [] then s else After(Next(s, run[0]), run[1..])
  }

  /** How often a run bumps the counter. */
  function Bumps(run: seq<Event>): nat {
    if run == [] then 0 else Bumps(run[1..]) + if run[0].BeginApply? || run[0].EndApply? then 1 else 0
  }

  /** An apply is in progress at some moment of the run. */
  ghost predicate ApplyDuring(s: State, run: seq<Event>)
    requires Runs(s, run)
    decreases |run|
  {
    s.applying || (run != [] && ApplyDuring(Next(s, run[0]), run[1..]))
  }

  predicate Inv(s: State) {
    && s.counter < WRAP
    && (s.applying <==> s.counter % 2 == 1)
    && (s.ping.Awaiting? || s.ping.Late? ==> s.ping.loaded < WRAP && s.ping.loaded % 2 == 0)
  }

  lemma {:induction false} RunKeepsInv(s: State, run: seq<Event>)
    requires Inv(s) && Runs(s, run)
    ensures Inv(After(s, run))
    decreases |run|
  {
    if run != [] {
      RunKeepsInv(Next(s, run[0]), run[1..]);
    }
  }

  lemma OneMore(c: nat, bumps: nat)
    ensures ((c + 1) % WRAP + bumps) % WRAP == (c + (bumps + 1)) % WRAP
  {
  }

  lemma {:induction false} CounterCountsBumps(s: State, run: seq<Event>)
    requires Inv(s) && Runs(s, run)
    ensures After(s, run).counter == (s.counter + Bumps(run)) % WRAP
    decreases |run|
  {
    if run != [] {
      CounterCountsBumps(Next(s, run[0]), run[1..]);
      OneMore(s.counter, Bumps(run[1..]));
    }
  }

  lemma {:induction false} NoBumpsNoApply(s: State, run: seq<Event>)
    requires Runs(s, run) && !s.applying
    ensures ApplyDuring(s, run) <==> Bumps(run) > 0
    decreases |run|
  {
    if run != [] && !run[0].BeginApply? {
      NoBumpsNoApply(Next(s, run[0]), run[1..]);
    } else if run != [] {
      assert Next(s, run[0]).applying;
    }
  }

  /** The events between a ping's send and its verdict. */
  predicate Within(run: seq<Event>) {
    forall i | 0 <= i < |run| :: !run[i].Tick? && !run[i].Pong? && !run[i].Verdict?
  }

  lemma {:induction false} WithinKeepsLoad(s: State, run: seq<Event>)
    requires Runs(s, run) && Within(run) && (s.ping.Awaiting? || s.ping.Late?)
    ensures var t := After(s, run); (t.ping.Awaiting? || t.ping.Late?) && t.ping.loaded == s.ping.loaded
    decreases |run|
  {
    if run != [] {
      WithinKeepsLoad(Next(s, run[0]), run[1..]);
    }
  }

  lemma {:induction false} WithinStaysIdle(s: State, run: seq<Event>)
    requires Runs(s, run) && Within(run) && s.ping.Idle?
    ensures After(s, run).ping.Idle?
    decreases |run|
  {
    if run != [] {
      WithinStaysIdle(Next(s, run[0]), run[1..]);
    }
  }

  /** The tick of a round that reaches a verdict found no apply in progress. */
  lemma VerdictFollowsPing(s: State, mid: seq<Event>)
    requires Inv(s) && s.ping.Idle? && Within(mid)
    requires Runs(Next(s, Tick), mid) && After(Next(s, Tick), mid).ping.Late?
    ensures !s.applying && Next(s, Tick) == s.(ping := Awaiting(s.counter))
  {
    if s.counter % 2 == 1 {
      WithinStaysIdle(s, mid);
    }
  }

  /**
    In every run, a round that ends in a verdict declares the connection dead exactly when the counter
    was bumped a multiple of 2^64 times since the ping; with fewer bumps than that, exactly when no
    apply was in progress at any moment from the ping to the verdict.
   */
  lemma VerdictIsExact(pre: seq<Event>, mid: seq<Event>)
    requires Runs(BEGIN, pre) && After(BEGIN, pre).ping.Idle?
    requires Within(mid) && Runs(Next(After(BEGIN, pre), Tick), mid)
    requires After(Next(After(BEGIN, pre), Tick), mid).ping.Late?
    ensures var s := Next(After(BEGIN, pre), Tick);
            var verdict := Next(After(s, mid), Verdict(false)).ping;
            && (verdict.Dead? <==> Bumps(mid) % WRAP == 0)
            && (Bumps(mid) < WRAP ==> (verdict.Dead? <==> !ApplyDuring(s, mid)))
            && (verdict.Dead? || verdict.Idle?) && Next(After(s, mid), Verdict(true)).ping.Stopped?
  {
    var r := After(BEGIN, pre);
    var s := Next(r, Tick);
    RunKeepsInv(BEGIN, pre);
    VerdictFollowsPing(r, mid);
    WithinKeepsLoad(s, mid);
    CounterCountsBumps(s, mid);
    NoBumpsNoApply(s, mid);
    BackToStart(s.counter, Bumps(mid));
  }

  lemma BackToStart(c: nat, bumps: nat)
    requires c < WRAP
    ensures (c + bumps) % WRAP == c <==> bumps % WRAP == 0
  {
  }

  // ----- The counter can wrap -----

  /** n applies, one after the other. */
  function Applies(n: nat): seq<Event> {
    if n == 0 then [] else [BeginApply, EndApply] + Applies(n - 1)
  }

  lemma {:induction false} AppliesRun(s: State, n: nat)
    requires Inv(s) && !s.applying
    ensures Runs(s, Applies(n)) && Within(Applies(n)) && Bumps(Applies(n)) == 2 * n
    ensures After(s, Applies(n)).ping == s.ping
    decreases n
  {
    if n > 0 {
      var t := Next(Next(s, BeginApply), EndApply);
      AppliesRun(t, n - 1);
      assert Applies(n)[1..] == [EndApply] + Applies(n - 1);
      assert Applies(n)[1..][1..] == Applies(n - 1);
    }
  }

  /** 2^63 applies during one ping bring the counter back to where it was, and the verdict is dead. */
  lemma WrapHidesApplies()
    ensures var mid := Applies(WRAP / 2) + [NoPong];
            var s := Next(BEGIN, Tick);
            && Runs(s, mid) && ApplyDuring(s, mid) && After(s, mid).ping.Late?
            && Next(After(s, mid), Verdict(false)).ping.Dead?
  {
    var n, s := WRAP / 2, Next(BEGIN, Tick);
    var mid := Applies(n) + [NoPong];
    AppliesRun(s, n);
    RunJoins(s, Applies(n), NoPong);
    NoBumpsNoApply(s, mid);
    VerdictIsExact([], mid);
  }

  lemma {:induction false} RunJoins(s: State, run: seq<Event>, e: Event)
    requires Runs(s, run) && Enabled(After(s, run), e)
    ensures Runs(s, run + [e]) && After(s, run + [e]) == Next(After(s, run), e)
    ensures Bumps(run + [e]) == Bumps(run) + Bumps([e])
    decreases |run|
  {
    if run != [] {
      RunJoins(Next(s, run[0]), run[1..], e);
      assert (run + [e])[1..] == run[1..] + [e];
    }
  }
}
