/** What every run of the agent keeps, whatever the dataplane answers and however events interleave. */
module AgentRuns {
  import opened Wrappers
  import opened RuleTypes
  import opened Watchdog
  import opened Agent

  /**
    One critical section of the runtime's mutex: applying some full state (from the stream or from
    disk), closing the tunnel, the periodic check, and the retry of a state that could not be
    published. rotate-key is one event when nothing comes between its two critical sections;
    otherwise it is a Close and a Reapply of the last state it found before.
   */
  datatype Event =
    | Apply(st: State, env: Env)
    | Rotate(env: Env)
    | Reapply(found: Option<State>, env: Env)
    | Close
    | CheckTunnel(handshake: Handshake, env: Env)
    | RetryPublish(env: Env)

  function Step(a: Runtime, ev: Event): Runtime {
    if a.over then a
    else
      match ev
      case Apply(st, e) => AfterApply(a, st, e)
      case Rotate(e) => AfterRotate(a, e)
      case Reapply(found, e) => AfterReapply(a, found, e)
      case Close => AfterClose(a)
      case CheckTunnel(h, e) => AfterCheckTunnel(a, h, e)
      case RetryPublish(e) => AfterRetryPending(a, e)
  }

  function Run(a: Runtime, evs: seq<Event>): Runtime
    decreases |evs|
  {
    if evs == [] then a else Run(Step(a, evs[0]), evs[1..])
  }

  // ----- The invariant -----

  predicate Inv(a: Runtime) {
    // A built tunnel has no build retry, and a scheduled retry has a state to build and no tunnel.
    && (a.built ==> a.retrySt.None? && a.rebuild.retryAt.None?)
    && (a.rebuild.retryAt.Some? ==> a.retrySt.Some? && !a.built)
    // Once anything was published, a built tunnel runs the last state's wg config or a failed publish is pending.
    && (a.built && a.pending.None? && a.converged && !a.over ==> a.last.Some? && a.wgCfg == a.last.value.wg)
    && Holds(a)
    && Logged(a)
  }

  /** Rules the tunnel has are the last state's, in a tunnel with that state's wg config. */
  predicate Holds(a: Runtime) {
    a.published.Some? ==> a.converged && a.published == a.last && a.wgCfg == a.last.value.wg
  }

  /** Once a state was applied, the generation and the last state are those of the latest one. */
  predicate Logged(a: Runtime) {
    if a.applied == [] then a.gen == 0
    else a.converged && a.last == Some(a.applied[|a.applied| - 1]) && a.gen == a.last.value.generation
  }

  lemma FinishKeepsInv(a: Runtime, st: State, e: Env)
    requires a.built && a.wgCfg == st.wg && a.retrySt.None? && a.rebuild.retryAt.None? && Logged(a) && Holds(a)
    ensures Inv(AfterFinish(a, st, e))
    ensures FailsFatally(a, e) ==> Inv(a.(over := false))
  {
  }

  lemma BuildKeepsInv(a: Runtime, st: State, applied: bool, e: Env)
    requires Logged(a) && (applied ==> a.last == Some(st))
    ensures Inv(AfterBuild(a, st, applied, e)) && Inv(AfterBuild(a, st, applied, e).(over := a.over))
  {
    if e.build == Up && !applied {
      BuiltKeepsInv(a, st, e);
    }
  }

  lemma BuiltKeepsInv(a: Runtime, st: State, e: Env)
    requires Logged(a)
    ensures var b := AfterFinish(WithTunnel(a, st, e), st, e);
            Inv(b) && Inv(b.(over := a.over))
  {
    hide AfterFinish, Inv;
    var b := WithTunnel(a, st, e);
    FinishKeepsInv(b, st, e);
    FinishOnlyEnds(b, st, e);
    if !FailsFatally(b, e) {
      assert AfterFinish(b, st, e).(over := a.over) == AfterFinish(b, st, e);
    } else {
      EndedInv(b, a.over);
    }
  }

  /** An ended run only has less to keep. */
  lemma EndedInv(b: Runtime, over: bool)
    requires Inv(b.(over := false))
    ensures Inv(b.(over := over))
  {
  }

  lemma FinishOnlyEnds(a: Runtime, st: State, e: Env)
    ensures !FailsFatally(a, e) ==> AfterFinish(a, st, e).over == a.over
    ensures FailsFatally(a, e) ==> AfterFinish(a, st, e) == a.(over := true)
  {
  }

  lemma ApplyKeepsInv(a: Runtime, st: State, e: Env)
    requires Inv(a)
    ensures Inv(AfterApply(a, st, e)) && Inv(AfterApply(a, st, e).(over := a.over))
  {
    hide AfterFinish, AfterBuild;
    var c := AfterCheckWG(a, st, e);
    BuildKeepsInv(c, st, false, e);
    if !NeedsTunnel(a, st) {
      FinishKeepsInv(c, st, e);
      FinishOnlyEnds(c, st, e);
    }
  }

  lemma CheckKeepsInv(a: Runtime, h: Handshake, e: Env)
    requires Inv(a)
    ensures Inv(AfterCheckTunnel(a, h, e))
  {
    hide AfterBuild;
    if !a.built {
      if RetryDue(a, e.now) {
        BuildKeepsInv(a, a.retrySt.value, false, e);
      }
    } else if a.last.Some? {
      BuildKeepsInv(AfterReading(a, h, e), a.last.value, true, e);
    }
  }

  lemma ReapplyKeepsInv(a: Runtime, found: Option<State>, e: Env)
    requires Inv(a)
    ensures Inv(AfterReapply(a, found, e))
  {
    if found.Some? {
      ApplyKeepsInv(a, found.value, e);
    }
  }

  lemma StepKeepsInv(a: Runtime, ev: Event)
    requires Inv(a)
    ensures Inv(Step(a, ev))
  {
    hide AfterApply, AfterCheckTunnel, AfterReapply;
    match ev
    case Apply(st, e) => ApplyKeepsInv(a, st, e);
    case Rotate(e) => ReapplyKeepsInv(AfterClose(a), a.last, e);
    case Reapply(found, e) => ReapplyKeepsInv(a, found, e);
    case Close =>
    case CheckTunnel(h, e) => CheckKeepsInv(a, h, e);
    case RetryPublish(e) => if a.pending.Some? { ApplyKeepsInv(a, a.pending.value, e); }
  }

  lemma {:induction false} RunKeepsInv(a: Runtime, evs: seq<Event>)
    requires Inv(a)
    ensures Inv(Run(a, evs))
    decreases |evs|
  {
    if evs != [] {
      StepKeepsInv(a, evs[0]);
      RunKeepsInv(Step(a, evs[0]), evs[1..]);
    }
  }

  /** Every state an agent process can reach satisfies the invariant. */
  lemma ReachableInv(
    checksWG: bool, after: int, backoffMax: int, saved: Option<State>, wg: WGConfig, evs: seq<Event>)
    ensures Inv(Run(Started(checksWG, after, backoffMax, saved, wg), evs))
  {
    RunKeepsInv(Started(checksWG, after, backoffMax, saved, wg), evs);
  }

  // ----- What no event takes back -----

  /** `b` keeps the thresholds of `a`, and every state `a` logged as applied. */
  predicate Extends(a: Runtime, b: Runtime) {
    && b.rebuild.after == a.rebuild.after && b.rebuild.backoffMax == a.rebuild.backoffMax
    && a.applied <= b.applied
  }

  lemma FinishExtends(a: Runtime, st: State, e: Env)
    ensures Extends(a, AfterFinish(a, st, e))
  {
  }

  lemma BuildExtends(a: Runtime, st: State, applied: bool, e: Env)
    ensures Extends(a, AfterBuild(a, st, applied, e))
  {
    hide AfterFinish;
    FinishExtends(WithTunnel(a, st, e), st, e);
  }

  lemma ApplyExtends(a: Runtime, st: State, e: Env)
    ensures Extends(a, AfterApply(a, st, e))
  {
    hide AfterBuild, AfterFinish;
    var c := AfterCheckWG(a, st, e);
    BuildExtends(c, st, false, e);
    FinishExtends(c, st, e);
  }

  lemma CheckExtends(a: Runtime, h: Handshake, e: Env)
    ensures Extends(a, AfterCheckTunnel(a, h, e))
  {
    hide AfterBuild;
    if !a.built {
      if RetryDue(a, e.now) {
        BuildExtends(a, a.retrySt.value, false, e);
      }
    } else if a.last.Some? {
      BuildExtends(AfterReading(a, h, e), a.last.value, true, e);
    }
  }

  lemma StepExtends(a: Runtime, ev: Event)
    ensures Extends(a, Step(a, ev))
  {
    hide AfterApply, AfterCheckTunnel;
    match ev
    case Apply(st, e) => ApplyExtends(a, st, e);
    case Rotate(e) => if a.last.Some? { ApplyExtends(AfterClose(a), a.last.value, e); }
    case Reapply(found, e) => if found.Some? { ApplyExtends(a, found.value, e); }
    case Close =>
    case CheckTunnel(h, e) => CheckExtends(a, h, e);
    case RetryPublish(e) => if a.pending.Some? { ApplyExtends(a, a.pending.value, e); }
  }

  lemma {:induction false} RunExtends(a: Runtime, evs: seq<Event>)
    ensures Extends(a, Run(a, evs))
    decreases |evs|
  {
    if evs != [] {
      StepExtends(a, evs[0]);
      RunExtends(Step(a, evs[0]), evs[1..]);
    }
  }

  // ----- A tunnel closed on purpose -----

  predicate ChecksOnly(evs: seq<Event>) {
    forall ev <- evs :: ev.CheckTunnel? || ev.RetryPublish?
  }

  /** No number of checks and publish retries revives a tunnel that was closed on purpose. */
  lemma {:induction false} ClosedTunnelStaysClosed(a: Runtime, evs: seq<Event>)
    requires ChecksOnly(evs)
    ensures Run(AfterClose(a), evs) == AfterClose(a)
    decreases |evs|
  {
    if evs != [] {
      assert evs[0] in evs;
      assert Step(AfterClose(a), evs[0]) == AfterClose(a);
      ClosedTunnelStaysClosed(a, evs[1..]);
    }
  }

  // ----- Whose wg config a built tunnel runs -----

  /** A built tunnel with nothing pending runs the last state's wg config. */
  predicate RunsLast(a: Runtime) {
    a.built && a.pending.None? && !a.over ==> a.last.Some? && a.wgCfg == a.last.value.wg
  }

  /** st is not the last state's, as far as the wg config goes. */
  predicate Differs(a: Runtime, st: State) {
    a.last.None? || a.last.value.wg != st.wg
  }

  /**
    A tunnel is built for a state with another wg config than the last one's, publishing its rules fails
    fatally, and the failure is only logged: the second half of rotate-key and the build retry do that.
   */
  predicate Swallows(a: Runtime, ev: Event) {
    && !a.over && a.pending.None? && !ev.Close? && ev.env.build == Up && FailsFatally(a, ev.env)
    && match ev
       case Reapply(found, e) =>
         found.Some? && !Refuses(a, e) && NeedsTunnel(a, found.value) && Differs(a, found.value)
       case CheckTunnel(_, e) => RetryDue(a, e.now) && Differs(a, a.retrySt.value)
       case _ => false
  }

  lemma FinishRunsLast(a: Runtime, st: State, e: Env)
    requires a.built && a.wgCfg == st.wg
    ensures RunsLast(AfterFinish(a, st, e))
    ensures RunsLast(AfterFinish(a, st, e).(over := false)) <==>
            !FailsFatally(a, e) || a.pending.Some? || !Differs(a, st)
  {
  }

  lemma BuildRunsLast(a: Runtime, st: State, applied: bool, e: Env)
    requires applied ==> a.last == Some(st)
    ensures RunsLast(AfterBuild(a, st, applied, e))
    ensures RunsLast(AfterBuild(a, st, applied, e).(over := false)) <==>
            e.build != Up || applied || !FailsFatally(a, e) || a.pending.Some? || !Differs(a, st)
  {
    hide AfterFinish;
    FinishRunsLast(WithTunnel(a, st, e), st, e);
  }

  lemma ApplyRunsLast(a: Runtime, st: State, e: Env)
    requires RunsLast(a) && !a.over
    ensures RunsLast(AfterApply(a, st, e))
    ensures RunsLast(AfterApply(a, st, e).(over := false)) <==>
            !(&& a.pending.None? && !Refuses(a, e) && NeedsTunnel(a, st) && e.build == Up
              && FailsFatally(a, e) && Differs(a, st))
  {
    hide AfterFinish, AfterBuild;
    var c := AfterCheckWG(a, st, e);
    BuildRunsLast(c, st, false, e);
    if !NeedsTunnel(a, st) {
      FinishRunsLast(c, st, e);
    }
  }

  lemma CheckRunsLast(a: Runtime, h: Handshake, e: Env)
    requires Inv(a) && RunsLast(a) && !a.over
    ensures RunsLast(AfterCheckTunnel(a, h, e)) <==> !Swallows(a, CheckTunnel(h, e))
  {
    hide AfterBuild;
    if !a.built {
      if RetryDue(a, e.now) {
        BuildRunsLast(a, a.retrySt.value, false, e);
      }
    } else if a.last.Some? {
      BuildRunsLast(AfterReading(a, h, e), a.last.value, true, e);
    }
  }

  /**
    Every event keeps a built tunnel with nothing pending on the last state's wg config, except exactly
    those that swallow a fatal error for another config.
   */
  lemma OnlySwallowingLosesConfig(a: Runtime, ev: Event)
    requires Inv(a) && RunsLast(a)
    ensures RunsLast(Step(a, ev)) <==> !Swallows(a, ev)
  {
    hide AfterApply, AfterCheckTunnel;
    if !a.over {
      match ev
      case Apply(st, e) => ApplyRunsLast(a, st, e);
      case Rotate(e) => if a.last.Some? { ApplyRunsLast(AfterClose(a), a.last.value, e); }
      case Reapply(found, e) => if found.Some? { ApplyRunsLast(a, found.value, e); }
      case Close =>
      case CheckTunnel(h, e) => CheckRunsLast(a, h, e);
      case RetryPublish(e) => if a.pending.Some? { ApplyRunsLast(a, a.pending.value, e); }
    }
  }

  predicate SwallowsNothing(a: Runtime, evs: seq<Event>)
    decreases |evs|
  {
    evs == [] || (!Swallows(a, evs[0]) && SwallowsNothing(Step(a, evs[0]), evs[1..]))
  }

  lemma {:induction false} RunRunsLast(a: Runtime, evs: seq<Event>)
    requires Inv(a) && RunsLast(a) && SwallowsNothing(a, evs)
    ensures RunsLast(Run(a, evs))
    decreases |evs|
  {
    hide Step, Swallows, RunsLast, Inv;
    if evs != [] {
      StepKeepsInv(a, evs[0]);
      OnlySwallowingLosesConfig(a, evs[0]);
      RunRunsLast(Step(a, evs[0]), evs[1..]);
    }
  }

  /** In every run that swallows no fatal error, a built tunnel runs the last state's config or a publish is pending. */
  lemma ReachableRunsLast(
    checksWG: bool, after: int, backoffMax: int, saved: Option<State>, wg: WGConfig, evs: seq<Event>)
    requires SwallowsNothing(Started(checksWG, after, backoffMax, saved, wg), evs)
    ensures RunsLast(Run(Started(checksWG, after, backoffMax, saved, wg), evs))
  {
    RunRunsLast(Started(checksWG, after, backoffMax, saved, wg), evs);
  }

  const ONE := State(1, WGConfig("", "", "", 0, 0, 0, 0), [], None, None, false)

  /**
    With a dataplane whose builds can be retried and whose first publication can fail fatally there is a
    run that ends with a built tunnel, nothing pending and no last state: the first state's build fails,
    and the retry builds the tunnel and then swallows the fatal error.
   */
  lemma RetrySwallowsFatalError(checksWG: bool)
    ensures var a := Run(Started(checksWG, 1, 1, None, ONE.wg),
                         [Apply(ONE, Env(0, 0, true, Retryable, Published, true)),
                          CheckTunnel(NoHandshake, Env(0, 0, true, Up, StartupFailure, true))]);
            a.built && a.pending.None? && !a.over && a.last.None?
  {
    var a0 := Started(checksWG, 1, 1, None, ONE.wg);
    var first := Apply(ONE, Env(0, 0, true, Retryable, Published, true));
    var second := CheckTunnel(NoHandshake, Env(0, 0, true, Up, StartupFailure, true));
    var a1 := Step(a0, first);
    assert !a1.built && a1.retrySt == Some(ONE) && a1.rebuild.retryAt == Some(0);
    var a2 := Step(a1, second);
    assert [first, second][1..] == [second] && [second][1..] == [];
    assert Run(a1, [second]) == Run(a2, []) == a2;
  }

  // ----- Skipping an already applied state -----

  /**
    Where the skip fires, applying the state again with success changes nothing but the log of
    applications, exactly when the tunnel has the state's rules; and once anything was published in the
    process, it rebuilds no tunnel and changes at most those two.
   */
  lemma SkipIsExact(a: Runtime, st: State, e: Env)
    requires Inv(a) && !a.over && AlreadyApplied(a, st) && e.checkOk && e.rules == Published
    ensures (!NeedsTunnel(a, st) && AfterApply(a, st, e) == a.(applied := a.applied + [st])) <==> a.published == a.last
    ensures a.converged ==>
              !NeedsTunnel(a, st) && AfterApply(a, st, e) == a.(applied := a.applied + [st], published := Some(st))
  {
  }

  /** A built tunnel with nothing pending has the last state's rules. */
  predicate HasRules(a: Runtime) {
    a.built && a.pending.None? && !a.over ==> a.last.Some? && a.published == a.last
  }

  /** ApplyRules fails in a tunnel that was just built, and the failure is only logged and not kept as pending. */
  predicate Forgets(a: Runtime, ev: Event) {
    && !a.over && a.pending.None? && !ev.Close? && ev.env.build == Up && ev.env.rules != Published
    && match ev
       case Rotate(e) => a.last.Some? && FailsFatally(a, e)
       case Reapply(found, e) => found.Some? && !Refuses(a, e) && NeedsTunnel(a, found.value) && FailsFatally(a, e)
       case CheckTunnel(h, e) =>
         if a.built then a.last.Some? && RebuildDue(Observe(a.rebuild, e.now, h), e.now, a.tunStart)
         else RetryDue(a, e.now) && FailsFatally(a, e)
       case _ => false
  }

  lemma FinishHasRules(a: Runtime, st: State, e: Env)
    requires a.built && !a.over && Holds(a) && Logged(a)
    ensures HasRules(AfterFinish(a, st, e))
    ensures HasRules(AfterFinish(a, st, e).(over := false)) <==>
            !FailsFatally(a, e) || a.pending.Some? || (a.last.Some? && a.published == a.last)
  {
  }

  lemma BuildHasRules(a: Runtime, st: State, e: Env)
    requires !a.over && Logged(a)
    ensures HasRules(AfterBuild(a, st, false, e))
    ensures HasRules(AfterBuild(a, st, false, e).(over := false)) <==>
            e.build != Up || !FailsFatally(a, e) || a.pending.Some?
  {
    hide AfterFinish;
    FinishHasRules(WithTunnel(a, st, e), st, e);
  }

  lemma RebuildHasRules(a: Runtime, st: State, e: Env)
    requires !a.over && a.last == Some(st)
    ensures HasRules(AfterBuild(a, st, true, e)) <==> e.build != Up || e.rules == Published || a.pending.Some?
  {
  }

  lemma ApplyHasRules(a: Runtime, st: State, e: Env)
    requires Inv(a) && HasRules(a) && !a.over
    ensures HasRules(AfterApply(a, st, e))
    ensures !HasRules(AfterApply(a, st, e).(over := false)) <==>
            && a.pending.None? && !Refuses(a, e) && NeedsTunnel(a, st) && e.build == Up && FailsFatally(a, e)
  {
    hide AfterFinish, AfterBuild;
    var c := AfterCheckWG(a, st, e);
    BuildHasRules(c, st, e);
    if a.built {
      FinishHasRules(c, st, e);
      FinishOnlyEnds(c, st, e);
    }
  }

  lemma CheckHasRules(a: Runtime, h: Handshake, e: Env)
    requires Inv(a) && HasRules(a) && !a.over
    ensures HasRules(AfterCheckTunnel(a, h, e)) <==> !Forgets(a, CheckTunnel(h, e))
  {
    hide AfterBuild;
    if !a.built {
      if RetryDue(a, e.now) {
        BuildHasRules(a, a.retrySt.value, e);
      }
    } else if a.last.Some? {
      RebuildHasRules(AfterReading(a, h, e), a.last.value, e);
    }
  }

  /** Every event keeps the rules in the tunnel, except exactly those that forget a failure. */
  lemma OnlyForgettingLosesRules(a: Runtime, ev: Event)
    requires Inv(a) && HasRules(a)
    ensures HasRules(Step(a, ev)) <==> !Forgets(a, ev)
  {
    hide AfterApply, AfterCheckTunnel;
    if !a.over {
      match ev
      case Apply(st, e) => ApplyHasRules(a, st, e);
      case Rotate(e) => if a.last.Some? { ApplyHasRules(AfterClose(a), a.last.value, e); }
      case Reapply(found, e) => if found.Some? { ApplyHasRules(a, found.value, e); }
      case Close =>
      case CheckTunnel(h, e) => CheckHasRules(a, h, e);
      case RetryPublish(e) => if a.pending.Some? { ApplyHasRules(a, a.pending.value, e); }
    }
  }

  predicate ForgetsNothing(a: Runtime, evs: seq<Event>)
    decreases |evs|
  {
    evs == [] || (!Forgets(a, evs[0]) && ForgetsNothing(Step(a, evs[0]), evs[1..]))
  }

  lemma {:induction false} RunHasRules(a: Runtime, evs: seq<Event>)
    requires Inv(a) && HasRules(a) && ForgetsNothing(a, evs)
    ensures HasRules(Run(a, evs))
    decreases |evs|
  {
    hide Step, Forgets, HasRules, Inv;
    if evs != [] {
      StepKeepsInv(a, evs[0]);
      OnlyForgettingLosesRules(a, evs[0]);
      RunHasRules(Step(a, evs[0]), evs[1..]);
    }
  }

  /**
    In every state reached without a forgotten failure, skipping a state already applied is the same
    as applying it again with success: no tunnel is rebuilt, the tunnel has its rules, and nothing but
    the log of applications changes.
   */
  lemma SkipRefinesReapply(checksWG: bool, after: int, backoffMax: int, saved: Option<State>, wg: WGConfig,
                           evs: seq<Event>, st: State, e: Env)
    requires e.checkOk && e.rules == Published
    requires ForgetsNothing(Started(checksWG, after, backoffMax, saved, wg), evs)
    ensures var a := Run(Started(checksWG, after, backoffMax, saved, wg), evs);
            !a.over && AlreadyApplied(a, st) ==>
              !NeedsTunnel(a, st) && AfterApply(a, st, e) == a.(applied := a.applied + [st])
  {
    hide Run, AfterApply;
    var a0 := Started(checksWG, after, backoffMax, saved, wg);
    ReachableInv(checksWG, after, backoffMax, saved, wg, evs);
    RunHasRules(a0, evs);
    if !Run(a0, evs).over && AlreadyApplied(Run(a0, evs), st) {
      SkipIsExact(Run(a0, evs), st, e);
    }
  }

  // ----- Failed publishes -----

  /** The state whose rules the event hands to ApplyRules as a first application, if any. */
  function Publishes(a: Runtime, ev: Event): Option<State> {
    if a.over then None
    else
      match ev
      case Apply(st, e) => if Reaches(a, st, e) then Some(st) else None
      case Rotate(e) => if e.build == Up then a.last else None
      case Reapply(found, e) => if found.Some? && Reaches(a, found.value, e) then found else None
      case Close => None
      case CheckTunnel(_, e) => if RetryDue(a, e.now) && e.build == Up then a.retrySt else None
      case RetryPublish(e) => if a.pending.Some? && a.built && Reaches(a, a.pending.value, e) then a.pending else None
  }

  /** Applying st gets as far as ApplyRules. */
  predicate Reaches(a: Runtime, st: State, e: Env) {
    !Refuses(a, e) && (NeedsTunnel(a, st) ==> e.build == Up)
  }

  predicate FailsToPublish(a: Runtime, ev: Event, st: State) {
    !ev.Close? && Publishes(a, ev) == Some(st) && ev.env.rules != Published && !FailsFatally(a, ev.env)
  }

  predicate Owes(a: Runtime, g: nat) {
    a.pending.Some? && a.pending.value.generation >= g
  }

  /** Between `a` and `b` some state of generation at least g was applied. */
  predicate Settled(a: Runtime, b: Runtime, g: nat) {
    |a.applied| <= |b.applied| && exists s <- b.applied[|a.applied|..] :: s.generation >= g
  }

  predicate OwesOrSettled(a: Runtime, b: Runtime, g: nat) {
    Owes(b, g) || Settled(a, b, g)
  }

  lemma FinishKeepsOwing(a: Runtime, st: State, e: Env, g: nat)
    requires Owes(a, g)
    ensures OwesOrSettled(a, AfterFinish(a, st, e), g)
  {
    var b := AfterFinish(a, st, e);
    assert e.rules == Published ==> b.applied[|a.applied|..] == [st];
  }

  lemma BuildKeepsOwing(a: Runtime, st: State, applied: bool, e: Env, g: nat)
    requires Owes(a, g)
    ensures OwesOrSettled(a, AfterBuild(a, st, applied, e), g)
  {
    FinishKeepsOwing(WithTunnel(a, st, e), st, e, g);
  }

  lemma ApplyKeepsOwing(a: Runtime, st: State, e: Env, g: nat)
    requires Owes(a, g)
    ensures OwesOrSettled(a, AfterApply(a, st, e), g)
  {
    var c := AfterCheckWG(a, st, e);
    BuildKeepsOwing(c, st, false, e, g);
    FinishKeepsOwing(c, st, e, g);
  }

  lemma StepKeepsOwing(a: Runtime, ev: Event, g: nat)
    requires Owes(a, g)
    ensures OwesOrSettled(a, Step(a, ev), g)
  {
    hide AfterApply, AfterBuild;
    match ev
    case Apply(st, e) => ApplyKeepsOwing(a, st, e, g);
    case Rotate(e) => if a.last.Some? { ApplyKeepsOwing(AfterClose(a), a.last.value, e, g); }
    case Reapply(found, e) => if found.Some? { ApplyKeepsOwing(a, found.value, e, g); }
    case Close =>
    case CheckTunnel(h, e) =>
      if RetryDue(a, e.now) {
        BuildKeepsOwing(a, a.retrySt.value, false, e, g);
      } else if a.built && a.last.Some? {
        BuildKeepsOwing(AfterReading(a, h, e), a.last.value, true, e, g);
      }
    case RetryPublish(e) => ApplyKeepsOwing(a, a.pending.value, e, g);
  }

  lemma {:induction false} RunKeepsOwing(a: Runtime, evs: seq<Event>, g: nat)
    requires Owes(a, g)
    ensures OwesOrSettled(a, Run(a, evs), g)
    decreases |evs|
  {
    if evs != [] {
      var b, c := Step(a, evs[0]), Run(a, evs);
      StepKeepsOwing(a, evs[0], g);
      StepExtends(a, evs[0]);
      RunExtends(b, evs[1..]);
      if Owes(b, g) {
        RunKeepsOwing(b, evs[1..], g);
        if !Owes(c, g) {
          var s :| s in c.applied[|b.applied|..] && s.generation >= g;
          assert s in c.applied[|a.applied|..];
        }
      } else {
        var s :| s in b.applied[|a.applied|..] && s.generation >= g;
        assert s in c.applied[|a.applied|..];
      }
    }
  }

  lemma FailedFinishIsOwed(a: Runtime, st: State, e: Env)
    requires e.rules != Published && !FailsFatally(a, e)
    ensures Owes(AfterFinish(a, st, e), st.generation)
  {
  }

  lemma FailedApplyIsOwed(a: Runtime, st: State, e: Env)
    requires Reaches(a, st, e) && e.rules != Published && !FailsFatally(a, e)
    ensures Owes(AfterApply(a, st, e), st.generation)
  {
    hide AfterFinish;
    var c := AfterCheckWG(a, st, e);
    FailedFinishIsOwed(c, st, e);
    FailedFinishIsOwed(WithTunnel(c, st, e), st, e);
  }

  lemma FailedPublishIsPending(a: Runtime, ev: Event, st: State)
    requires FailsToPublish(a, ev, st)
    ensures Owes(Step(a, ev), st.generation)
  {
    hide AfterApply, AfterFinish;
    match ev
    case Apply(_, e) => FailedApplyIsOwed(a, st, e);
    case Rotate(e) => FailedApplyIsOwed(AfterClose(a), st, e);
    case Reapply(_, e) => FailedApplyIsOwed(a, st, e);
    case CheckTunnel(_, e) => FailedFinishIsOwed(WithTunnel(a, st, e), st, e);
    case RetryPublish(e) => FailedApplyIsOwed(a, st, e);
  }

  /** The event rebuilds the tunnel for the last state and hands its rules over once more. */
  predicate RebuildsTunnel(a: Runtime, ev: Event) {
    && !a.over && ev.CheckTunnel? && ev.env.build == Up && a.built && a.last.Some?
    && RebuildDue(Observe(a.rebuild, ev.env.now, ev.handshake), ev.env.now, a.tunStart)
  }

  /**
    Whenever ApplyRules fails without being fatal, the state is owed afterwards exactly when it was
    owed before or the event was not a rebuild by the watchdog, whose failure is only logged.
   */
  lemma OnlyRebuildsForgetFailures(a: Runtime, ev: Event, st: State)
    requires FailsToPublish(a, ev, st) || (RebuildsTunnel(a, ev) && a.last == Some(st) && ev.env.rules != Published)
    ensures Owes(Step(a, ev), st.generation) <==> Owes(a, st.generation) || !RebuildsTunnel(a, ev)
  {
    if FailsToPublish(a, ev, st) {
      FailedPublishIsPending(a, ev, st);
    }
  }

  /**
    With a dataplane that is rebuilt and can fail to publish there is a run after which a state counts
    as applied, nothing is pending, and the tunnel has no rules: the state is applied, and a second
    later the silent tunnel is rebuilt without its rules.
   */
  lemma RebuildForgetsRules(checksWG: bool)
    ensures var a := Run(Started(checksWG, 1, 1, None, ONE.wg),
                         [Apply(ONE, Env(0, 0, true, Up, Published, true)),
                          CheckTunnel(NoHandshake, Env(1, 1, true, Up, Unpublished, true))]);
            AlreadyApplied(a, ONE) && a.pending.None? && a.published.None?
  {
    var a0 := Started(checksWG, 1, 1, None, ONE.wg);
    var first := Apply(ONE, Env(0, 0, true, Up, Published, true));
    var second := CheckTunnel(NoHandshake, Env(1, 1, true, Up, Unpublished, true));
    var a1 := Step(a0, first);
    assert a1.built && a1.last == Some(ONE) && a1.tunStart == 0 && a1.rebuild == a0.rebuild;
    var a2 := Step(a1, second);
    assert [first, second][1..] == [second] && [second][1..] == [];
    assert Run(a1, [second]) == Run(a2, []) == a2;
  }

  /**
    A state that failed to publish stays pending, at its generation or a higher one, until some state
    of at least its generation is applied.
   */
  lemma {:induction false} FailedPublishStaysPending(a: Runtime, ev: Event, st: State, evs: seq<Event>)
    requires FailsToPublish(a, ev, st)
    ensures var b := Step(a, ev); OwesOrSettled(b, Run(b, evs), st.generation)
  {
    FailedPublishIsPending(a, ev, st);
    RunKeepsOwing(Step(a, ev), evs, st.generation);
  }

  // ----- The schedule of failed builds -----

  /** The event tries to build a tunnel. */
  predicate Tries(a: Runtime, ev: Event) {
    !a.over &&
    match ev
    case Apply(st, e) => !Refuses(a, e) && NeedsTunnel(a, st)
    case Rotate(e) => a.last.Some?
    case Reapply(found, e) => found.Some? && !Refuses(a, e) && NeedsTunnel(a, found.value)
    case Close => false
    case CheckTunnel(h, e) =>
      if a.built then a.last.Some? && RebuildDue(Observe(a.rebuild, e.now, h), e.now, a.tunStart)
      else RetryDue(a, e.now)
    case RetryPublish(e) =>
      a.pending.Some? && a.built && !Refuses(a, e) && NeedsTunnel(a, a.pending.value)
  }

  /** The times of the builds a run of events tries. */
  function Attempts(a: Runtime, evs: seq<Event>): seq<int>
    decreases |evs|
  {
    if evs == [] then []
    else (if Tries(a, evs[0]) && !evs[0].Close? then [evs[0].env.now] else []) + Attempts(Step(a, evs[0]), evs[1..])
  }

  /** How many builds have failed retryably in a row, and when the last of them did. */
  datatype Streak = Streak(k: nat, at: int)

  /** A close on purpose, of which rotate-key begins with one, and a build that ends otherwise break the streak. */
  function NextStreak(a: Runtime, ev: Event, s: Streak): Streak {
    if a.over then s
    else if Tries(a, ev) && !ev.Close? then
      if ev.env.build == Retryable then Streak((if ev.Rotate? then 0 else s.k) + 1, ev.env.now) else Streak(0, s.at)
    else if ev.Close? || ev.Rotate? then Streak(0, s.at)
    else s
  }

  function StreakOf(a: Runtime, evs: seq<Event>, s: Streak): Streak
    decreases |evs|
  {
    if evs == [] then s else StreakOf(Step(a, evs[0]), evs[1..], NextStreak(a, evs[0], s))
  }

  /** The delay the k-th consecutive failure schedules. */
  function RetryDelay(s: Rebuild, k: nat): int
    requires k >= 1
  {
    if k == 1 then 0 else Interval(s.after, Ceiling(s), k - 2)
  }

  /** The schedule a streak of failures leaves behind. */
  predicate Scheduled(s: Rebuild, f: Streak) {
    if f.k == 0 then s.retryAt.None?
    else s.retryAt == Some(f.at + RetryDelay(s, f.k)) && s.retryWait == Interval(s.after, Ceiling(s), f.k - 1)
  }

  lemma FailureWidensSchedule(s: Rebuild, f: Streak, now: int)
    requires s.after >= 0 && Scheduled(s, f)
    ensures Scheduled(AfterFailedBuild(s, now), Streak(f.k + 1, now))
  {
    hide Interval;
    if f.k == 0 {
      IntervalZero(s.after, Ceiling(s));
    } else {
      NextInterval(s.after, Ceiling(s), f.k - 1);
    }
  }

  /** What a build leaves of the schedule: a retryable failure goes on with the one it found. */
  lemma BuildSchedules(a: Runtime, st: State, applied: bool, e: Env)
    ensures AfterBuild(a, st, applied, e).rebuild ==
            if e.build == Retryable then AfterFailedBuild(a.rebuild, e.now) else Cleared(a.rebuild)
  {
  }

  lemma FinishSchedules(a: Runtime, st: State, e: Env)
    ensures AfterFinish(a, st, e).rebuild == a.rebuild
  {
  }

  lemma TryKeepsSchedule(a: Runtime, st: State, applied: bool, e: Env, f: Streak)
    requires a.rebuild.after >= 0 && Scheduled(a.rebuild, f)
    ensures Scheduled(AfterBuild(a, st, applied, e).rebuild,
                      if e.build == Retryable then Streak(f.k + 1, e.now) else Streak(0, f.at))
  {
    hide AfterBuild, AfterFailedBuild;
    BuildSchedules(a, st, applied, e);
    FailureWidensSchedule(a.rebuild, f, e.now);
  }

  lemma ApplyKeepsSchedule(a: Runtime, st: State, e: Env, f: Streak)
    requires a.rebuild.after >= 0 && Scheduled(a.rebuild, f)
    ensures Scheduled(AfterApply(a, st, e).rebuild,
                      if Refuses(a, e) || !NeedsTunnel(a, st) then f
                      else if e.build == Retryable then Streak(f.k + 1, e.now)
                      else Streak(0, f.at))
  {
    hide AfterBuild, AfterFinish, Scheduled;
    var c := AfterCheckWG(a, st, e);
    TryKeepsSchedule(c, st, false, e, f);
    FinishSchedules(c, st, e);
  }

  lemma CheckKeepsSchedule(a: Runtime, h: Handshake, e: Env, f: Streak)
    requires a.rebuild.after >= 0 && Scheduled(a.rebuild, f) && !a.over
    ensures Scheduled(AfterCheckTunnel(a, h, e).rebuild, NextStreak(a, CheckTunnel(h, e), f))
  {
    hide AfterBuild;
    if !a.built {
      if RetryDue(a, e.now) {
        TryKeepsSchedule(a, a.retrySt.value, false, e, f);
      }
    } else if a.last.Some? {
      TryKeepsSchedule(AfterReading(a, h, e), a.last.value, true, e, f);
    }
  }

  lemma StepKeepsSchedule(a: Runtime, ev: Event, f: Streak)
    requires a.rebuild.after >= 0 && Scheduled(a.rebuild, f)
    ensures Scheduled(Step(a, ev).rebuild, NextStreak(a, ev, f))
  {
    hide AfterApply, AfterCheckTunnel;
    if !a.over {
      match ev
      case Apply(st, e) => ApplyKeepsSchedule(a, st, e, f);
      case Rotate(e) =>
        if a.last.Some? {
          ApplyKeepsSchedule(AfterClose(a), a.last.value, e, Streak(0, f.at));
        }
      case Reapply(found, e) => if found.Some? { ApplyKeepsSchedule(a, found.value, e, f); }
      case Close =>
      case CheckTunnel(h, e) => CheckKeepsSchedule(a, h, e, f);
      case RetryPublish(e) => if a.pending.Some? { ApplyKeepsSchedule(a, a.pending.value, e, f); }
    }
  }

  lemma {:induction false} RunKeepsSchedule(a: Runtime, evs: seq<Event>, f: Streak)
    requires a.rebuild.after >= 0 && Scheduled(a.rebuild, f)
    ensures Scheduled(Run(a, evs).rebuild, StreakOf(a, evs, f))
    decreases |evs|
  {
    hide Step, NextStreak, Scheduled;
    if evs != [] {
      StepExtends(a, evs[0]);
      StepKeepsSchedule(a, evs[0], f);
      RunKeepsSchedule(Step(a, evs[0]), evs[1..], NextStreak(a, evs[0], f));
    }
  }

  /**
    In every run, whatever builds, closes and rotate-keys it has: the k-th consecutive retryable
    failure schedules the next try exactly min(2^(k-2) * after, max(backoffMax, after)) later, the
    first one at the next check, although closing the old tunnel clears the schedule before every
    build; and without such a failure nothing is scheduled.
   */
  lemma FailedBuildsBackOff(
    checksWG: bool, after: int, backoffMax: int, saved: Option<State>, wg: WGConfig, evs: seq<Event>)
    requires after >= 0
    ensures var a := Started(checksWG, after, backoffMax, saved, wg);
            var f := StreakOf(a, evs, Streak(0, 0));
            Run(a, evs).rebuild.retryAt == if f.k == 0 then None else Some(f.at + RetryDelay(a.rebuild, f.k))
  {
    hide Run, StreakOf;
    var a := Started(checksWG, after, backoffMax, saved, wg);
    RunKeepsSchedule(a, evs, Streak(0, 0));
    RunExtends(a, evs);
  }

  // ----- Wall-clock independence -----

  /** A renaming of handshake values: it keeps distinct values distinct and fixes the zero time. */
  ghost predicate Renaming(f: Handshake -> Handshake) {
    f(NoHandshake) == NoHandshake && forall x, y :: f(x) == f(y) ==> x == y
  }

  function Renamed(f: Handshake -> Handshake, a: Runtime): Runtime {
    a.(rebuild := a.rebuild.(lastHandshake := f(a.rebuild.lastHandshake)))
  }

  function RenamedEvent(f: Handshake -> Handshake, ev: Event): Event {
    if ev.CheckTunnel? then ev.(handshake := f(ev.handshake)) else ev
  }

  function RenamedEvents(f: Handshake -> Handshake, evs: seq<Event>): seq<Event> {
    if evs == [] then [] else [RenamedEvent(f, evs[0])] + RenamedEvents(f, evs[1..])
  }

  lemma FinishCommutes(f: Handshake -> Handshake, a: Runtime, st: State, e: Env)
    ensures AfterFinish(Renamed(f, a), st, e) == Renamed(f, AfterFinish(a, st, e))
  {
  }

  lemma FailedBuildCommutes(f: Handshake -> Handshake, s: Rebuild, now: int)
    ensures AfterFailedBuild(s.(lastHandshake := f(s.lastHandshake)), now) ==
            AfterFailedBuild(s, now).(lastHandshake := f(s.lastHandshake))
    ensures AfterFailedBuild(s, now).lastHandshake == s.lastHandshake
  {
  }

  lemma CloseCommutes(f: Handshake -> Handshake, a: Runtime)
    ensures AfterClose(Renamed(f, a)) == Renamed(f, AfterClose(a))
    ensures AfterClose(a).rebuild.lastHandshake == a.rebuild.lastHandshake
  {
  }

  lemma TunnelCommutes(f: Handshake -> Handshake, a: Runtime, st: State, e: Env)
    ensures WithTunnel(Renamed(f, a), st, e) == Renamed(f, WithTunnel(a, st, e))
  {
  }

  lemma NoTunnelCommutes(f: Handshake -> Handshake, a: Runtime, st: State, e: Env)
    ensures AfterNoTunnel(Renamed(f, a), st, e) == Renamed(f, AfterNoTunnel(a, st, e))
  {
    hide AfterFailedBuild;
    FailedBuildCommutes(f, a.rebuild, e.now);
  }

  lemma RebuiltCommutes(f: Handshake -> Handshake, a: Runtime, st: State, e: Env)
    ensures AfterRebuilt(Renamed(f, a), st, e) == Renamed(f, AfterRebuilt(a, st, e))
  {
  }

  lemma BuildCommutes(f: Handshake -> Handshake, a: Runtime, st: State, applied: bool, e: Env)
    ensures AfterBuild(Renamed(f, a), st, applied, e) == Renamed(f, AfterBuild(a, st, applied, e))
  {
    hide AfterFinish, AfterNoTunnel, AfterRebuilt, WithTunnel;
    NoTunnelCommutes(f, a, st, e);
    RebuiltCommutes(f, a, st, e);
    TunnelCommutes(f, a, st, e);
    FinishCommutes(f, WithTunnel(a, st, e), st, e);
  }

  lemma ApplyCommutes(f: Handshake -> Handshake, a: Runtime, st: State, e: Env)
    ensures AfterApply(Renamed(f, a), st, e) == Renamed(f, AfterApply(a, st, e))
  {
    hide AfterBuild, AfterFinish;
    var c := AfterCheckWG(a, st, e);
    assert AfterCheckWG(Renamed(f, a), st, e) == Renamed(f, c);
    BuildCommutes(f, c, st, false, e);
    FinishCommutes(f, c, st, e);
  }

  lemma ObserveCommutes(f: Handshake -> Handshake, s: Rebuild, now: int, start: int, h: Handshake)
    requires Renaming(f)
    ensures var s' := s.(lastHandshake := f(s.lastHandshake));
            && AfterStep(s', now, start, f(h)) == AfterStep(s, now, start, h).(lastHandshake := f(h))
            && RebuildDue(Observe(s', now, f(h)), now, start) == RebuildDue(Observe(s, now, h), now, start)
  {
    var o, o' := Observe(s, now, h), Observe(s.(lastHandshake := f(s.lastHandshake)), now, f(h));
    assert f(h) == f(s.lastHandshake) <==> h == s.lastHandshake;
    assert f(h) == f(NoHandshake) <==> h == NoHandshake;
    assert o' == o.(lastHandshake := f(h));
  }

  lemma ReadingCommutes(f: Handshake -> Handshake, a: Runtime, h: Handshake, e: Env)
    requires Renaming(f)
    ensures AfterReading(Renamed(f, a), f(h), e) == Renamed(f, AfterReading(a, h, e))
  {
    ObserveCommutes(f, a.rebuild, e.now, a.tunStart, h);
    assert f(h) == f(NoHandshake) <==> h == NoHandshake;
  }

  lemma CheckCommutes(f: Handshake -> Handshake, a: Runtime, h: Handshake, e: Env)
    requires Renaming(f)
    ensures AfterCheckTunnel(Renamed(f, a), f(h), e) == Renamed(f, AfterCheckTunnel(a, h, e))
    ensures Tries(Renamed(f, a), CheckTunnel(f(h), e)) == Tries(a, CheckTunnel(h, e))
  {
    hide AfterBuild, AfterReading;
    ObserveCommutes(f, a.rebuild, e.now, a.tunStart, h);
    ReadingCommutes(f, a, h, e);
    if !a.built {
      if RetryDue(a, e.now) {
        BuildCommutes(f, a, a.retrySt.value, false, e);
      }
    } else if a.last.Some? {
      BuildCommutes(f, AfterReading(a, h, e), a.last.value, true, e);
    }
  }

  lemma StepCommutes(f: Handshake -> Handshake, a: Runtime, ev: Event)
    requires Renaming(f)
    ensures Step(Renamed(f, a), RenamedEvent(f, ev)) == Renamed(f, Step(a, ev))
    ensures Tries(Renamed(f, a), RenamedEvent(f, ev)) == Tries(a, ev)
  {
    hide AfterApply, AfterCheckTunnel, RebuildDue, Observe, RetryDue, AfterClose;
    CloseCommutes(f, a);
    match ev
    case Apply(st, e) => ApplyCommutes(f, a, st, e);
    case Rotate(e) => if a.last.Some? { ApplyCommutes(f, AfterClose(a), a.last.value, e); }
    case Reapply(found, e) => if found.Some? { ApplyCommutes(f, a, found.value, e); }
    case Close =>
    case CheckTunnel(h, e) => CheckCommutes(f, a, h, e);
    case RetryPublish(e) => if a.pending.Some? { ApplyCommutes(f, a, a.pending.value, e); }
  }

  /**
    A wall-clock jump only renames the handshake values WireGuard reports. Two runs that differ by a
    renaming make the same rebuild decisions, send the same handshake signals and keep the same
    waits: they end in states equal up to the renaming.
   */
  lemma {:induction false} WallClockDoesNotMatter(f: Handshake -> Handshake, a: Runtime, evs: seq<Event>)
    requires Renaming(f)
    ensures Run(Renamed(f, a), RenamedEvents(f, evs)) == Renamed(f, Run(a, evs))
    ensures Attempts(Renamed(f, a), RenamedEvents(f, evs)) == Attempts(a, evs)
    decreases |evs|
  {
    if evs != [] {
      StepCommutes(f, a, evs[0]);
      WallClockDoesNotMatter(f, Step(a, evs[0]), evs[1..]);
    }
  }
}
