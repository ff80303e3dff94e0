/** The newest failure that no later success has made up for. */
module Backlog {
  import opened Wrappers

  /** One try at something that has a generation, and whether it succeeded. */
  datatype Try<T> = Try(what: T, ok: bool)

  /** Try i failed, and no later success was of its generation or a newer one. */
  predicate Open<T>(gen: T -> nat, log: seq<Try<T>>, i: nat)
    requires i < |log|
  {
    !log[i].ok && forall j | i < j < |log| && log[j].ok :: gen(log[j].what) < gen(log[i].what)
  }

  /** Try i is the newest of the open ones, and of several of its generation the last. */
  predicate NewestOpen<T>(gen: T -> nat, log: seq<Try<T>>, i: nat)
    requires i < |log|
  {
    && Open(gen, log, i)
    && forall j | 0 <= j < |log| && Open(gen, log, j) ::
         gen(log[j].what) < gen(log[i].what) || (gen(log[j].what) == gen(log[i].what) && j <= i)
  }

  /** `kept` is what the newest open try was at, and nothing exactly when no try is open. */
  ghost predicate Keeps<T>(gen: T -> nat, log: seq<Try<T>>, kept: Option<T>) {
    if kept.None? then forall i | 0 <= i < |log| :: !Open(gen, log, i)
    else exists i :: 0 <= i < |log| && NewestOpen(gen, log, i) && log[i].what == kept.value
  }

  /** So the log determines what is kept. */
  lemma KeepsIsUnique<T>(gen: T -> nat, log: seq<Try<T>>, a: Option<T>, b: Option<T>)
    requires Keeps(gen, log, a) && Keeps(gen, log, b)
    ensures a == b
  {
    if a.Some? && b.Some? {
      var i :| 0 <= i < |log| && NewestOpen(gen, log, i) && log[i].what == a.value;
      var j :| 0 <= j < |log| && NewestOpen(gen, log, j) && log[j].what == b.value;
      assert i <= j && j <= i;
    }
  }

  lemma OpenNext<T>(gen: T -> nat, log: seq<Try<T>>, t: Try<T>, i: nat)
    requires i < |log|
    ensures Open(gen, log + [t], i) <==> Open(gen, log, i) && (t.ok ==> gen(t.what) < gen(log[i].what))
  {
    var more := log + [t];
    assert more[|log|] == t && forall j | 0 <= j < |log| :: more[j] == log[j];
  }

  lemma KeepsFailure<T>(gen: T -> nat, log: seq<Try<T>>, kept: Option<T>, x: T)
    requires Keeps(gen, log, kept)
    ensures Keeps(gen, log + [Try(x, false)], if kept.None? || gen(x) >= gen(kept.value) then Some(x) else kept)
  {
    var more, n := log + [Try(x, false)], |log|;
    forall i | 0 <= i < n ensures Open(gen, more, i) <==> Open(gen, log, i) {
      OpenNext(gen, log, Try(x, false), i);
    }
    assert Open(gen, more, n);
    if kept.Some? {
      var i :| 0 <= i < n && NewestOpen(gen, log, i) && log[i].what == kept.value;
      assert NewestOpen(gen, more, if gen(x) >= gen(kept.value) then n else i);
    } else {
      assert NewestOpen(gen, more, n);
    }
  }

  lemma KeepsSuccess<T>(gen: T -> nat, log: seq<Try<T>>, kept: Option<T>, x: T)
    requires Keeps(gen, log, kept)
    ensures Keeps(gen, log + [Try(x, true)], if kept.Some? && gen(x) >= gen(kept.value) then None else kept)
  {
    var more, n := log + [Try(x, true)], |log|;
    forall i | 0 <= i < n
      ensures Open(gen, more, i) <==> Open(gen, log, i) && gen(x) < gen(log[i].what)
    {
      OpenNext(gen, log, Try(x, true), i);
    }
    assert !Open(gen, more, n);
    if kept.Some? {
      var i :| 0 <= i < n && NewestOpen(gen, log, i) && log[i].what == kept.value;
      if gen(x) < gen(kept.value) {
        assert NewestOpen(gen, more, i);
      }
    }
  }
}

/**
  What each event asks of the dataplane, and that after every run the runtime holds exactly what the
  answers so far call for.
 */
module AgentLedger {
  import opened Wrappers
  import opened RuleTypes
  import opened Watchdog
  import opened Agent
  import opened AgentRuns
  import opened AgentTiming
  import opened Backlog

  // ----- What an event asks -----

  /** The state the event applies: one it brings, the pending one, or rotate-key's last one. */
  function Brings(a: Runtime, ev: Event): Option<State> {
    if a.over then None
    else
      match ev
      case Apply(st, _) => Some(st)
      case Rotate(_) => a.last
      case Reapply(found, _) => found
      case Close => None
      case CheckTunnel(_, _) => None
      case RetryPublish(_) => if a.built then a.pending else None
  }

  /** There is a tunnel when the event applies its state; rotate-key has just closed it. */
  predicate HasTunnel(a: Runtime, ev: Event) {
    a.built && !ev.Rotate?
  }

  /** What CheckWG is asked about and answers: a dataplane that can refuse is asked while there is a tunnel. */
  function Asks(a: Runtime, ev: Event): Option<Try<nat>> {
    if Brings(a, ev).Some? && a.checksWG && HasTunnel(a, ev)
    then Some(Try(Brings(a, ev).value.generation, ev.env.checkOk))
    else None
  }

  predicate TurnedAway(a: Runtime, ev: Event) {
    Asks(a, ev).Some? && !Asks(a, ev).value.ok
  }

  /** The state a tunnel is built for. */
  function Builds(a: Runtime, ev: Event): Option<State> {
    if Brings(a, ev).Some? then
      var st := Brings(a, ev).value;
      if TurnedAway(a, ev) || (HasTunnel(a, ev) && a.wgCfg == st.wg) then None else Some(st)
    else if a.over || !ev.CheckTunnel? then None
    else if a.built then if Fires(a, ev) then a.last else None
    else if a.rebuild.retryAt.Some? && a.rebuild.retryAt.value <= ev.env.now then a.retrySt
    else None
  }

  /** The state whose rules ApplyRules is given. */
  function Hands(a: Runtime, ev: Event): Option<State> {
    if Builds(a, ev).Some? then if ev.env.build == Up then Builds(a, ev) else None
    else if TurnedAway(a, ev) then None
    else Brings(a, ev)
  }

  predicate Publishes(a: Runtime, ev: Event) {
    Hands(a, ev).Some? && ev.env.rules == Published
  }

  /** The event closes the tunnel on purpose. */
  predicate Closes(a: Runtime, ev: Event) {
    !a.over && (ev.Close? || ev.Rotate?)
  }

  /** What ApplyRules makes of a state that is not yet recorded, unless the failure is fatal. */
  function Outcome(a: Runtime, ev: Event): Option<Try<State>> {
    if Hands(a, ev).Some? && !Fires(a, ev) && (ev.env.rules == StartupFailure ==> a.converged)
    then Some(Try(Hands(a, ev).value, ev.env.rules == Published))
    else None
  }

  // ----- What one event does to each field -----

  function AfterTry<T>(gen: T -> nat, kept: Option<T>, t: Option<Try<T>>): Option<T> {
    if t.None? then kept
    else if t.value.ok then if kept.Some? && gen(t.value.what) >= gen(kept.value) then None else kept
    else if kept.None? || gen(t.value.what) >= gen(kept.value) then Some(t.value.what)
    else kept
  }

  function Itself(g: nat): nat { g }

  function GenerationOf(st: State): nat { st.generation }

  /** The fields that b has after ev in a. */
  ghost predicate Follows(a: Runtime, ev: Event, b: Runtime) {
    && b.checksWG == a.checksWG
    && b.refused == AfterTry(Itself, a.refused, Asks(a, ev))
    && b.pending == AfterTry(GenerationOf, a.pending, Outcome(a, ev))
    && Tunnel(a, ev, b)
    && Recorded(a, ev, b)
  }

  ghost predicate Tunnel(a: Runtime, ev: Event, b: Runtime) {
    if Builds(a, ev).Some? then
      && b.built == (ev.env.build == Up) && b.tunStart == ev.env.clk
      && b.wgCfg == (if b.built then Builds(a, ev).value.wg else a.wgCfg)
      && b.retrySt == (if b.built then None else Builds(a, ev))
    else
      && b.built == (a.built && !Closes(a, ev)) && b.tunStart == a.tunStart && b.wgCfg == a.wgCfg
      && b.retrySt == (if Closes(a, ev) then None else a.retrySt)
  }

  ghost predicate Recorded(a: Runtime, ev: Event, b: Runtime) {
    && b.converged == (a.converged || Publishes(a, ev))
    && b.published == (if Publishes(a, ev) then Hands(a, ev)
                       else if Builds(a, ev).Some? || Closes(a, ev) then None
                       else a.published)
    && Logs(a, if Publishes(a, ev) && !Fires(a, ev) then Hands(a, ev) else None, b)
    && b.wakes == a.wakes + (if Wakes(a, ev) then 1 else 0)
    && b.over == (a.over || Ends(a, ev))
  }

  /** The state that was applied, if one was, is logged and becomes the last one. */
  ghost predicate Logs(a: Runtime, st: Option<State>, b: Runtime) {
    && b.applied == a.applied + (if st.Some? then [st.value] else [])
    && b.last == (if st.Some? then st else a.last)
    && b.gen == (if st.Some? then st.value.generation else a.gen)
  }

  /** A reading that sees a new handshake wakes the stream. */
  predicate Wakes(a: Runtime, ev: Event) {
    Reads(a, ev) && ev.handshake != NoHandshake && ev.handshake != a.rebuild.lastHandshake
  }

  /** A fatal failure ends the run, except in the two places where it is only logged. */
  predicate Ends(a: Runtime, ev: Event) {
    Hands(a, ev).Some? && (ev.Apply? || ev.RetryPublish?) && ev.env.rules == StartupFailure && !a.converged
  }

  /** What ApplyRules does to the fields when st is handed to it in the tunnel of a. */
  ghost predicate Finished(a: Runtime, st: State, e: Env, b: Runtime) {
    var fatal, ok := e.rules == StartupFailure && !a.converged, e.rules == Published;
    && b == a.(pending := b.pending, gen := b.gen, last := b.last, converged := b.converged, published := b.published,
               applied := b.applied, over := b.over)
    && b.pending == AfterTry(GenerationOf, a.pending, if fatal then None else Some(Try(st, ok)))
    && Logs(a, if ok then Some(st) else None, b)
    && b.converged == (a.converged || ok) && b.published == (if ok then Some(st) else a.published)
    && b.over == (a.over || fatal)
  }

  lemma FinishFollows(a: Runtime, st: State, e: Env)
    ensures Finished(a, st, e, AfterFinish(a, st, e))
  {
  }

  /** A build: the tunnel, and if it is up what ApplyRules does in it. */
  ghost predicate BuiltFor(a: Runtime, st: State, e: Env, b: Runtime) {
    if e.build == Up then exists c :: Raised(a, st, e, c) && Finished(c, st, e, b)
    else b == a.(built := false, published := None, tunStart := e.clk, retrySt := Some(st), rebuild := b.rebuild)
  }

  ghost predicate Raised(a: Runtime, st: State, e: Env, c: Runtime) {
    c == a.(built := true, wgCfg := st.wg, published := None, tunStart := e.clk, retrySt := None, rebuild := c.rebuild)
  }

  lemma BuildFollows(a: Runtime, st: State, e: Env)
    ensures BuiltFor(a, st, e, AfterBuild(a, st, false, e))
  {
    hide AfterFinish, Finished;
    if e.build == Up {
      FinishFollows(WithTunnel(a, st, e), st, e);
      assert Raised(a, st, e, WithTunnel(a, st, e));
    }
  }

  lemma CheckWGFollows(a: Runtime, st: State, e: Env)
    ensures AfterCheckWG(a, st, e) ==
            a.(refused := AfterTry(Itself, a.refused,
                 if a.checksWG && a.built then Some(Try(st.generation, e.checkOk)) else None))
  {
  }

  /** The runtime in which the event applies its state: rotate-key closes the tunnel first. */
  function Before(a: Runtime, ev: Event): Runtime {
    if ev.Rotate? then AfterClose(a) else a
  }

  /** Only logging a fatal failure is forgetting that it ended the run. */
  function Lasting(a: Runtime, ev: Event, b: Runtime): Runtime {
    if ev.Rotate? || ev.Reapply? then b.(over := a.over) else b
  }

  lemma ApplyFollows(a: Runtime, ev: Event, st: State)
    requires !a.over && Brings(a, ev) == Some(st) && !ev.Close? && !ev.CheckTunnel?
    ensures Follows(a, ev, Lasting(a, ev, AfterApply(Before(a, ev), st, ev.env)))
  {
    hide AfterFinish, AfterBuild, AfterCheckWG, AfterTry, BuiltFor, Finished, Follows;
    var c, e := AfterCheckWG(Before(a, ev), st, ev.env), ev.env;
    CheckWGFollows(Before(a, ev), st, e);
    if Refuses(Before(a, ev), e) {
      RefusalFollows(a, ev, st, c);
    } else if NeedsTunnel(Before(a, ev), st) {
      BuildFollows(c, st, e);
      BuiltFollows(a, ev, st, c, AfterBuild(c, st, false, e));
    } else {
      FinishFollows(c, st, e);
      FinishedFollows(a, ev, st, c, AfterFinish(c, st, e));
    }
  }

  ghost predicate Checked(a: Runtime, ev: Event, st: State, c: Runtime) {
    && !a.over && Brings(a, ev) == Some(st) && !ev.Close? && !ev.CheckTunnel?
    && c == Before(a, ev).(refused := AfterTry(Itself, a.refused, Asks(a, ev)))
  }

  lemma RefusalFollows(a: Runtime, ev: Event, st: State, c: Runtime)
    requires Checked(a, ev, st, c) && TurnedAway(a, ev)
    ensures Follows(a, ev, Lasting(a, ev, c))
  {
  }

  lemma RaisedFollows(a: Runtime, ev: Event, st: State, c: Runtime, up: Runtime, b: Runtime)
    requires Checked(a, ev, st, c) && !TurnedAway(a, ev) && NeedsTunnel(Before(a, ev), st) && ev.env.build == Up
    requires Raised(c, st, ev.env, up) && Finished(up, st, ev.env, b)
    ensures Follows(a, ev, Lasting(a, ev, b))
  {
    hide AfterTry;
  }

  lemma NotBuiltFollows(a: Runtime, ev: Event, st: State, c: Runtime, b: Runtime)
    requires Checked(a, ev, st, c) && !TurnedAway(a, ev) && NeedsTunnel(Before(a, ev), st) && ev.env.build != Up
    requires BuiltFor(c, st, ev.env, b)
    ensures Follows(a, ev, Lasting(a, ev, b))
  {
  }

  lemma BuiltFollows(a: Runtime, ev: Event, st: State, c: Runtime, b: Runtime)
    requires Checked(a, ev, st, c) && !TurnedAway(a, ev) && NeedsTunnel(Before(a, ev), st) && BuiltFor(c, st, ev.env, b)
    ensures Follows(a, ev, Lasting(a, ev, b))
  {
    hide TurnedAway, NeedsTunnel, Raised, Finished, Follows, Lasting;
    if ev.env.build == Up {
      var up :| Raised(c, st, ev.env, up) && Finished(up, st, ev.env, b);
      RaisedFollows(a, ev, st, c, up, b);
    } else {
      NotBuiltFollows(a, ev, st, c, b);
    }
  }

  lemma FinishedFollows(a: Runtime, ev: Event, st: State, c: Runtime, b: Runtime)
    requires Checked(a, ev, st, c) && !TurnedAway(a, ev) && !NeedsTunnel(Before(a, ev), st)
    requires Finished(c, st, ev.env, b)
    ensures Follows(a, ev, Lasting(a, ev, b))
  {
    hide AfterTry;
  }

  lemma CheckFollows(a: Runtime, ev: Event)
    requires !a.over && ev.CheckTunnel?
    ensures Follows(a, ev, AfterCheckTunnel(a, ev.handshake, ev.env))
  {
    hide AfterBuild, Follows;
    var e := ev.env;
    if RetryDue(a, e.now) {
      BuildFollows(a, a.retrySt.value, e);
      RetryFollows(a, ev, AfterBuild(a, a.retrySt.value, false, e));
    } else if Fires(a, ev) {
      RebuildFollows(a, ev);
    } else {
      ReadingFollows(a, ev);
    }
  }

  lemma RetryFollows(a: Runtime, ev: Event, b: Runtime)
    requires !a.over && ev.CheckTunnel? && RetryDue(a, ev.env.now) && BuiltFor(a, a.retrySt.value, ev.env, b)
    ensures Follows(a, ev, b.(over := a.over))
  {
  }

  lemma RebuildFollows(a: Runtime, ev: Event)
    requires Fires(a, ev)
    ensures Follows(a, ev, AfterBuild(AfterReading(a, ev.handshake, ev.env), a.last.value, true, ev.env))
  {
    hide RebuildDue;
  }

  lemma ReadingFollows(a: Runtime, ev: Event)
    requires !a.over && ev.CheckTunnel? && !RetryDue(a, ev.env.now) && !Fires(a, ev)
    ensures Follows(a, ev, if Reads(a, ev) then AfterReading(a, ev.handshake, ev.env) else a)
  {
    hide RebuildDue;
  }

  /** Every event does to every field exactly what its answers call for. */
  lemma StepFollows(a: Runtime, ev: Event)
    ensures Follows(a, ev, Step(a, ev))
  {
    hide AfterApply, AfterCheckTunnel, Follows;
    if a.over {
      EndedFollows(a, ev);
    } else if ev.CheckTunnel? {
      CheckFollows(a, ev);
    } else if Brings(a, ev).Some? {
      ApplyFollows(a, ev, Brings(a, ev).value);
    } else {
      NothingFollows(a, ev);
    }
  }

  lemma EndedFollows(a: Runtime, ev: Event)
    requires a.over
    ensures Follows(a, ev, a)
  {
  }

  lemma NothingFollows(a: Runtime, ev: Event)
    requires !a.over && !ev.CheckTunnel? && Brings(a, ev).None?
    ensures Follows(a, ev, Step(a, ev))
  {
  }

  /** What applying a state reports, from the answers it met. */
  lemma ReportTells(a: Runtime, st: State, e: Env)
    requires !a.over
    ensures var r, ev := ApplyReport(a, st, e), Apply(st, e);
            && (r.WGRefused? <==> TurnedAway(a, ev))
            && (r.NoTunnel? <==> Builds(a, ev).Some? && e.build != Up)
            && (r.Applied? <==> Publishes(a, ev) && e.saveOk)
            && (r.NotSaved? <==> Publishes(a, ev) && !e.saveOk)
            && (r.NotPublished? <==> Hands(a, ev).Some? && e.rules != Published && !Ends(a, ev))
            && (r.FatalError? <==> Ends(a, ev))
  {
  }

  // ----- What is refused and what is pending -----

  function ListOf<T>(t: Option<T>): seq<T> {
    if t.None? then [] else [t.value]
  }

  /** CheckWG's answers in a run, each with the generation it was asked about. */
  function WGLog(a: Runtime, evs: seq<Event>): seq<Try<nat>>
    decreases |evs|
  {
    if evs == [] then [] else ListOf(Asks(a, evs[0])) + WGLog(Step(a, evs[0]), evs[1..])
  }

  /** ApplyRules' answers in a run about states that were not yet recorded, without fatal failures. */
  function RulesLog(a: Runtime, evs: seq<Event>): seq<Try<State>>
    decreases |evs|
  {
    if evs == [] then [] else ListOf(Outcome(a, evs[0])) + RulesLog(Step(a, evs[0]), evs[1..])
  }

  lemma KeepsTry<T>(gen: T -> nat, log: seq<Try<T>>, kept: Option<T>, t: Option<Try<T>>)
    requires Keeps(gen, log, kept)
    ensures Keeps(gen, log + ListOf(t), AfterTry(gen, kept, t))
  {
    hide Keeps;
    if t.None? {
      assert log + [] == log;
    } else if t.value.ok {
      assert t.value == Try(t.value.what, true);
      KeepsSuccess(gen, log, kept, t.value.what);
    } else {
      assert t.value == Try(t.value.what, false);
      KeepsFailure(gen, log, kept, t.value.what);
    }
  }

  lemma StepKept(a: Runtime, ev: Event)
    ensures Step(a, ev).refused == AfterTry(Itself, a.refused, Asks(a, ev))
    ensures Step(a, ev).pending == AfterTry(GenerationOf, a.pending, Outcome(a, ev))
  {
    hide Step, AfterTry, Asks, Outcome, Tunnel, Recorded;
    StepFollows(a, ev);
  }

  lemma Joins<T>(a: seq<T>, b: seq<T>, c: seq<T>)
    ensures a + (b + c) == a + b + c
  {
  }

  lemma {:induction false} RunKept(a: Runtime, evs: seq<Event>, wg: seq<Try<nat>>, rules: seq<Try<State>>)
    requires Keeps(Itself, wg, a.refused) && Keeps(GenerationOf, rules, a.pending)
    ensures Keeps(Itself, wg + WGLog(a, evs), Run(a, evs).refused)
    ensures Keeps(GenerationOf, rules + RulesLog(a, evs), Run(a, evs).pending)
    decreases |evs|
  {
    hide Step, Keeps, Asks, Outcome, AfterTry;
    if evs == [] {
      assert wg + [] == wg && rules + [] == rules;
    } else {
      var ev, b := evs[0], Step(a, evs[0]);
      StepKept(a, ev);
      KeepsTry(Itself, wg, a.refused, Asks(a, ev));
      KeepsTry(GenerationOf, rules, a.pending, Outcome(a, ev));
      RunKept(b, evs[1..], wg + ListOf(Asks(a, ev)), rules + ListOf(Outcome(a, ev)));
      Joins(wg, ListOf(Asks(a, ev)), WGLog(b, evs[1..]));
      Joins(rules, ListOf(Outcome(a, ev)), RulesLog(b, evs[1..]));
    }
  }

  /**
    After every run: a generation is refused if and only if CheckWG refused it, has accepted none as new since,
    and it is the newest such; and a state is pending if and only if ApplyRules failed for it, has published none
    as new since, and it is the newest such.
   */
  lemma RefusedAndPending(
    checksWG: bool, after: int, backoffMax: int, saved: Option<State>, wg: WGConfig, evs: seq<Event>,
    refused: Option<nat>, pending: Option<State>)
    ensures var a := Started(checksWG, after, backoffMax, saved, wg);
            && (Run(a, evs).refused == refused <==> Keeps(Itself, WGLog(a, evs), refused))
            && (Run(a, evs).pending == pending <==> Keeps(GenerationOf, RulesLog(a, evs), pending))
  {
    hide Run, WGLog, RulesLog, Keeps;
    var a := Started(checksWG, after, backoffMax, saved, wg);
    NothingKept(Itself);
    NothingKept(GenerationOf);
    RunKept(a, evs, [], []);
    var w, r := WGLog(a, evs), RulesLog(a, evs);
    assert [] + w == w && [] + r == r;
    if Keeps(Itself, w, refused) {
      KeepsIsUnique(Itself, w, refused, Run(a, evs).refused);
    }
    if Keeps(GenerationOf, r, pending) {
      KeepsIsUnique(GenerationOf, r, pending, Run(a, evs).pending);
    }
  }

  lemma NothingKept<T>(gen: T -> nat)
    ensures Keeps(gen, [], None)
  {
  }
}
