/**
  The agent's convergence state machine: how full states, the periodic check, the retries and
  rotate-key move the tunnel, the processed generation and the states waiting for a retry. Each
  operation is one critical section of the runtime's mutex, except rotate-key, which has two; what the
  dataplane answers is an input of the operation.
 */
module Agent {
  import opened Wrappers
  import opened RuleTypes
  import opened Watchdog

  /** Build: the tunnel is up, failed for a reason worth retrying, or got a config it cannot use. */
  datatype BuildOutcome = Up | Retryable | BadConfig

  /** ApplyRules: published, refused as a whole, or failed in a way that is fatal at the process's start. */
  datatype RulesOutcome = Published | Unpublished | StartupFailure

  /**
    What one event meets: the time it starts, the time a tunnel built in it starts, and the answers
    of CheckWG, Build, ApplyRules and of saving the credentials file.
   */
  datatype Env = Env(now: int, clk: int, checkOk: bool, build: BuildOutcome, rules: RulesOutcome, saveOk: bool)

  /** What applying a full state reports. */
  datatype Report = Applied | NotSaved | WGRefused | NoTunnel | NotPublished | FatalError

  /**
    The runtime's fields. `checksWG` says whether the dataplane can refuse a wg config before the
    tunnel is touched; `converged` says whether it has published anything in this process, after which
    no failure of it is fatal (the kernel dataplane's failures stop being fatal earlier, when its link
    first converges, so that the model allows it more answers than it gives); `published` is the state
    whose rules the tunnel that is built has, if any.
    `applied` is the log of the states whose application completed, `wakes` counts the handshake signals
    to the stream, and `over` says a fatal error ended the run.
   */
  datatype Runtime = Runtime(
    checksWG: bool, built: bool, wgCfg: WGConfig, gen: nat, last: Option<State>,
    pending: Option<State>, retrySt: Option<State>, refused: Option<nat>,
    tunStart: int, rebuild: Rebuild, converged: bool, published: Option<State>,
    applied: seq<State>, wakes: nat, over: bool)

  // ----- The effect of each operation on the fields -----

  predicate Refuses(a: Runtime, e: Env) {
    a.checksWG && a.built && !e.checkOk
  }

  function AfterCheckWG(a: Runtime, st: State, e: Env): Runtime {
    if !a.checksWG || !a.built then a
    else if !e.checkOk then
      a.(refused := if a.refused.None? || st.generation >= a.refused.value then Some(st.generation) else a.refused)
    else
      a.(refused := if a.refused.Some? && st.generation >= a.refused.value then None else a.refused)
  }

  function AfterClose(a: Runtime): Runtime {
    a.(rebuild := Cleared(a.rebuild), retrySt := None, built := false, published := None)
  }

  /** ApplyRules fails and its error is fatal. */
  predicate FailsFatally(a: Runtime, e: Env) {
    e.rules == StartupFailure && !a.converged
  }

  function AfterFinish(a: Runtime, st: State, e: Env): Runtime {
    if e.rules == Published then
      a.(pending := if a.pending.Some? && a.pending.value.generation <= st.generation then None else a.pending,
         gen := st.generation, last := Some(st), converged := true, published := Some(st), applied := a.applied + [st])
    else if FailsFatally(a, e) then a.(over := true)
    else a.(pending := if a.pending.None? || st.generation >= a.pending.value.generation then Some(st) else a.pending)
  }

  function FinishReport(a: Runtime, e: Env): Report {
    if e.rules == Published then if e.saveOk then Applied else NotSaved
    else if FailsFatally(a, e) then FatalError
    else NotPublished
  }

  /** The tunnel has been built for st, and its rules are still to come. */
  function WithTunnel(a: Runtime, st: State, e: Env): Runtime {
    AfterClose(a).(tunStart := e.clk, built := true, wgCfg := st.wg)
  }

  /** The build failed: the state is kept, and a retryable failure goes on with the schedule. */
  function AfterNoTunnel(a: Runtime, st: State, e: Env): Runtime {
    AfterClose(a).(
      tunStart := e.clk, retrySt := Some(st),
      rebuild := if e.build == Retryable then AfterFailedBuild(a.rebuild, e.now) else Cleared(a.rebuild))
  }

  /** The last state's tunnel was rebuilt; a failure to publish its rules is only logged. */
  function AfterRebuilt(a: Runtime, st: State, e: Env): Runtime {
    var b := WithTunnel(a, st, e);
    if e.rules == Published then b.(converged := true, published := Some(st)) else b
  }

  /** `applied` tells a rebuild for a state already recorded from a first application. */
  function AfterBuild(a: Runtime, st: State, applied: bool, e: Env): Runtime {
    if e.build != Up then AfterNoTunnel(a, st, e)
    else if applied then AfterRebuilt(a, st, e)
    else AfterFinish(WithTunnel(a, st, e), st, e)
  }

  predicate NeedsTunnel(a: Runtime, st: State) {
    !a.built || a.wgCfg != st.wg
  }

  function AfterApply(a: Runtime, st: State, e: Env): Runtime {
    var c := AfterCheckWG(a, st, e);
    if Refuses(a, e) then c
    else if NeedsTunnel(a, st) then AfterBuild(c, st, false, e)
    else AfterFinish(c, st, e)
  }

  function ApplyReport(a: Runtime, st: State, e: Env): Report {
    if Refuses(a, e) then WGRefused
    else if NeedsTunnel(a, st) && e.build != Up then NoTunnel
    else FinishReport(a, e)
  }

  predicate RetryDue(a: Runtime, now: int) {
    !a.built && a.retrySt.Some? && a.rebuild.retryAt.Some? && a.rebuild.retryAt.value <= now
  }

  /** The periodic check's reading: a new handshake wakes the stream, and the watchdog notes it. */
  function AfterReading(a: Runtime, handshake: Handshake, e: Env): Runtime {
    a.(wakes := if handshake != NoHandshake && handshake != a.rebuild.lastHandshake then a.wakes + 1 else a.wakes,
       rebuild := AfterStep(a.rebuild, e.now, a.tunStart, handshake))
  }

  /** A build retry logs every error of its state's application, so that not even a fatal one ends the run. */
  function AfterRetryBuild(a: Runtime, e: Env): Runtime {
    if RetryDue(a, e.now) then AfterBuild(a, a.retrySt.value, false, e).(over := a.over) else a
  }

  function AfterCheckTunnel(a: Runtime, handshake: Handshake, e: Env): Runtime {
    if !a.built then AfterRetryBuild(a, e)
    else if a.last.None? then a
    else if RebuildDue(Observe(a.rebuild, e.now, handshake), e.now, a.tunStart)
    then AfterBuild(AfterReading(a, handshake, e), a.last.value, true, e)
    else AfterReading(a, handshake, e)
  }

  function AfterRetryPending(a: Runtime, e: Env): Runtime {
    if a.pending.None? || !a.built then a else AfterApply(a, a.pending.value, e)
  }

  /**
    The second critical section of rotate-key: the last state it found is applied again. Its errors
    are only logged, so that not even a fatal one ends the run.
   */
  function AfterReapply(a: Runtime, last: Option<State>, e: Env): Runtime {
    if last.None? then a else AfterApply(a, last.value, e).(over := a.over)
  }

  /** rotate-key whose new key was saved, with nothing between its two critical sections. */
  function AfterRotate(a: Runtime, e: Env): Runtime {
    AfterReapply(AfterClose(a), a.last, e)
  }

  predicate AlreadyApplied(a: Runtime, st: State) {
    a.built && a.pending.None? && a.refused.None? && a.last == Some(st) && st.generation == a.gen
  }

  // ----- The runtime object -----

  class AgentRuntime {
    const checksWG: bool
    const rebuild: RebuildState
    var built: bool
    var wgCfg: WGConfig
    var gen: nat
    var lastState: Option<State>
    var pendingSt: Option<State>
    var retrySt: Option<State>
    var refused: Option<nat>
    var tunStart: int
    var converged: bool
    ghost var published: Option<State>
    ghost var applied: seq<State>
    ghost var wakes: nat
    ghost var over: bool

    ghost function View(): Runtime
      reads this, rebuild
    {
      Runtime(checksWG, built, wgCfg, gen, lastState, pendingSt, retrySt, refused, tunStart,
              rebuild.View(), converged, published, applied, wakes, over)
    }

    /** A started process: nothing is built, and the last state is the one read from disk. */
    constructor (checksWG: bool, after: int, backoffMax: int, saved: Option<State>)
      ensures fresh(rebuild)
      ensures View() == Started(checksWG, after, backoffMax, saved, wgCfg)
    {
      this.checksWG := checksWG;
      rebuild := new RebuildState(after, backoffMax);
      built, gen, lastState := false, 0, saved;
      pendingSt, retrySt, refused := None, None, None;
      wgCfg := WGConfig("", "", "", 0, 0, 0, 0);
      tunStart, converged, published, applied, wakes, over := 0, false, None, [], 0, false;
    }

    method CheckWG(st: State, e: Env) returns (ok: bool)
      modifies this
      ensures View() == AfterCheckWG(old(View()), st, e)
      ensures ok == !Refuses(old(View()), e)
    {
      if !checksWG || !built {
        return true;
      }
      if !e.checkOk {
        if refused.None? || st.generation >= refused.value {
          refused := Some(st.generation);
        }
        return false;
      }
      if refused.Some? && st.generation >= refused.value {
        refused := None;
      }
      return true;
    }

    method Close()
      modifies this, rebuild
      ensures View() == AfterClose(old(View()))
    {
      rebuild.ClearRetry();
      retrySt := None;
      built, published := false, None;
    }

    method FinishApply(st: State, e: Env) returns (r: Report)
      modifies this
      ensures View() == AfterFinish(old(View()), st, e)
      ensures r == FinishReport(old(View()), e)
    {
      if e.rules != Published {
        if e.rules == StartupFailure && !converged {
          over := true;
          return FatalError;
        }
        if pendingSt.None? || st.generation >= pendingSt.value.generation {
          pendingSt := Some(st);
        }
        return NotPublished;
      }
      if pendingSt.Some? && pendingSt.value.generation <= st.generation {
        pendingSt := None;
      }
      gen := st.generation;
      lastState := Some(st);
      converged, published, applied := true, Some(st), applied + [st];
      return if e.saveOk then Applied else NotSaved;
    }

    method StartTunnel(st: State, e: Env) returns (up: bool, retryable: bool)
      modifies this, rebuild
      ensures up == (e.build == Up) && (!up ==> retryable == (e.build == Retryable))
      ensures var c := AfterClose(old(View())).(tunStart := e.clk);
              View() == if up then c.(built := true, wgCfg := st.wg) else c
    {
      Close();
      tunStart := e.clk;
      if e.build != Up {
        return false, e.build == Retryable;
      }
      built := true;
      wgCfg := st.wg;
      return true, true;
    }

    method BuildLocked(st: State, alreadyRecorded: bool, e: Env) returns (r: Report)
      modifies this, rebuild
      ensures View() == AfterBuild(old(View()), st, alreadyRecorded, e)
      ensures r == if e.build != Up then NoTunnel else if alreadyRecorded then Applied else FinishReport(old(View()), e)
    {
      // Closing the tunnel forgets the schedule, so it is kept here to widen it on another failure.
      var retryAt, retryWait := rebuild.retryAt, rebuild.retryWait;
      var up, retryable := StartTunnel(st, e);
      if !up {
        retrySt := Some(st);
        if retryable {
          rebuild.retryAt, rebuild.retryWait := retryAt, retryWait;
          rebuild.FailedBuild(e.now);
        }
        return NoTunnel;
      }
      if alreadyRecorded {
        if e.rules == Published {
          converged, published := true, Some(st);
        }
        return Applied;
      }
      r := FinishApply(st, e);
    }

    method Apply(st: State, e: Env) returns (r: Report)
      modifies this, rebuild
      ensures View() == AfterApply(old(View()), st, e)
      ensures r == ApplyReport(old(View()), st, e)
    {
      var ok := CheckWG(st, e);
      if !ok {
        return WGRefused;
      }
      if !built || wgCfg != st.wg {
        r := BuildLocked(st, false, e);
      } else {
        r := FinishApply(st, e);
      }
    }

    method CheckTunnel(handshake: Handshake, e: Env)
      modifies this, rebuild
      ensures View() == AfterCheckTunnel(old(View()), handshake, e)
    {
      if !built {
        RetryBuild(e);
        return;
      }
      if lastState.None? {
        return;
      }
      if handshake != NoHandshake && handshake != rebuild.lastHandshake {
        wakes := wakes + 1;
      }
      var _, due := rebuild.Step(e.now, tunStart, handshake);
      if due {
        var _ := BuildLocked(lastState.value, true, e);
      }
    }

    method RetryBuild(e: Env)
      requires !built
      modifies this, rebuild
      ensures View() == AfterRetryBuild(old(View()), e)
    {
      ghost var ended := over;
      if retrySt.None? || rebuild.retryAt.None? || e.now < rebuild.retryAt.value {
        return;
      }
      var _ := BuildLocked(retrySt.value, false, e);
      over := ended;
    }

    method RetryPending(e: Env)
      modifies this, rebuild
      ensures View() == AfterRetryPending(old(View()), e)
    {
      if pendingSt.None? || !built {
        return;
      }
      var _ := Apply(pendingSt.value, e);
    }

    /** rotate-key's first critical section once the new key is saved. */
    method CloseForKey() returns (last: Option<State>)
      modifies this, rebuild
      ensures View() == AfterClose(old(View())) && last == old(View()).last
    {
      last := lastState;
      Close();
    }

    /** rotate-key's second critical section. */
    method Reapply(last: Option<State>, e: Env)
      modifies this, rebuild
      ensures View() == AfterReapply(old(View()), last, e)
    {
      ghost var ended := over;
      if last.Some? {
        var _ := Apply(last.value, e);
        over := ended;
      }
    }

    /** `keySaved` says whether the credentials file took the new key. */
    method RotateKey(keySaved: bool, e: Env)
      modifies this, rebuild
      ensures View() == if keySaved then AfterRotate(old(View()), e) else old(View())
    {
      if !keySaved {
        return;
      }
      var last := CloseForKey();
      Reapply(last, e);
    }

    method IsAlreadyApplied(st: State) returns (same: bool)
      ensures same == AlreadyApplied(View(), st)
    {
      same := built && pendingSt.None? && refused.None? && lastState.Some?
              && st.generation == gen && lastState.value == st;
    }
  }

  function Started(checksWG: bool, after: int, backoffMax: int, saved: Option<State>, wg: WGConfig): Runtime {
    Runtime(checksWG, false, wg, 0, saved, None, None, None, 0,
            Rebuild(after, backoffMax, 0, NoHandshake, None, None, 0), false, None, [], 0, false)
  }
}
