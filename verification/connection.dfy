/**
  The receive loop of one stream connection on top of the runtime: which full states it drops, skips
  or applies, and how the processed generation moves while the connection lasts.
 */
module Connection {
  import opened Wrappers
  import opened RuleTypes
  import opened Watchdog
  import opened Agent
  import opened AgentRuns

  /**
    `first` until the connection's first full state arrives; `synced` once some state was applied
    with success since then, and nothing overtaken has failed after that.
   */
  datatype Conn = Conn(rt: Runtime, first: bool, synced: bool)

  /**
    The loop gives up the mutex between comparing a state's generation and applying the state, and so
    does rotate-key between closing the tunnel and applying the last state again. Each is one event when
    nothing comes in between. Otherwise a state that passed the comparison before is a ReceiveApplies,
    and rotate-key is a RotateCloses and a RotateApplies of the state it found.
   */
  datatype ConnEvent =
    | Reconnect
    | Receive(st: State, env: Env)
    | ReceiveApplies(st: State, env: Env)
    | Tick(handshake: Handshake, env: Env)
    | Retry(env: Env)
    | Rotate(keySaved: bool, env: Env)
    | RotateCloses
    | RotateApplies(found: Option<State>, env: Env)
    | Shutdown

  const MIN_PROTOCOL := 1
  const MAX_PROTOCOL := 1

  /** The protocol version the server selected, if any, is one the agent speaks. */
  predicate VersionOK(st: State) {
    st.protocol.Some? ==> MIN_PROTOCOL <= st.protocol.value <= MAX_PROTOCOL && st.protocol.value >= 1
  }

  /** The connection's first state ends it: its version is not one the agent speaks. */
  predicate EndsConnection(c: Conn, st: State) {
    c.first && !VersionOK(st)
  }

  /** The loop passes a state over: older than the processed generation, or already applied. */
  predicate PassedOver(c: Conn, st: State) {
    !c.first && (st.generation < c.rt.gen || AlreadyApplied(c.rt, st))
  }

  /** What an event of the connection is to the runtime, if anything. */
  function EventOf(c: Conn, ev: ConnEvent): Option<Event> {
    match ev
    case Reconnect => None
    case Receive(st, e) => if EndsConnection(c, st) || PassedOver(c, st) then None else Some(Apply(st, e))
    case ReceiveApplies(st, e) => Some(Apply(st, e))
    case Tick(h, e) => Some(CheckTunnel(h, e))
    case Retry(e) => Some(RetryPublish(e))
    case Rotate(keySaved, e) => if keySaved then Some(Event.Rotate(e)) else None
    case RotateCloses => Some(Close)
    case RotateApplies(found, e) => Some(Reapply(found, e))
    case Shutdown => Some(Close)
  }

  function NextRuntime(c: Conn, ev: ConnEvent): Runtime {
    match EventOf(c, ev)
    case None => c.rt
    case Some(x) => Step(c.rt, x)
  }

  function Next(c: Conn, ev: ConnEvent): Conn {
    var rt := NextRuntime(c, ev);
    if ev.Reconnect? || (ev.Receive? && EndsConnection(c, ev.st)) then Conn(rt, true, false)
    else
      var first := c.first && !ev.Receive? && !ev.ReceiveApplies?;
      Conn(rt, first, (c.synced && !Overtaken(ev)) || (!first && |rt.applied| > |c.rt.applied|))
  }

  /** The event applies a state it chose in an earlier critical section. */
  predicate Overtaken(ev: ConnEvent) {
    ev.ReceiveApplies? || ev.RotateApplies?
  }

  function Runs(c: Conn, evs: seq<ConnEvent>): Conn
    decreases |evs|
  {
    if evs == [] then c else Runs(Next(c, evs[0]), evs[1..])
  }

  /** The loop's local variable and the runtime it drives. */
  class StreamReader {
    const rt: AgentRuntime
    var first: bool

    constructor (rt: AgentRuntime)
      ensures first && this.rt == rt
    {
      this.rt := rt;
      first := true;
    }

    /** What the loop does before it applies a state, each comparison in a critical section of its own. */
    method Check(st: State) returns (ended: bool, passed: bool)
      modifies this
      ensures var c := old(Conn(rt.View(), first, false));
              && ended == EndsConnection(c, st) && passed == (!ended && !PassedOver(c, st))
              && first == (c.first && ended)
    {
      if first && st.protocol.Some? {
        var v := st.protocol.value;
        if v < 1 || v < MIN_PROTOCOL || v > MAX_PROTOCOL {
          return true, false;
        }
      }
      if !first && st.generation < rt.gen {
        return false, false;
      }
      var same := rt.IsAlreadyApplied(st);
      if !first && same {
        return false, false;
      }
      first := false;
      return false, true;
    }

    /** One full state with nothing in between: whether it ended the connection, and otherwise what became of it. */
    method Receive(st: State, e: Env) returns (ended: bool)
      modifies this, rt, rt.rebuild
      ensures var c := old(Conn(rt.View(), first, false));
              && ended == EndsConnection(c, st)
              && (ended ==> rt.View() == c.rt && first)
              && (!ended ==> !first && rt.View() == if PassedOver(c, st) then c.rt else AfterApply(c.rt, st, e))
    {
      var passed;
      ended, passed := Check(st);
      if passed {
        var _ := rt.Apply(st, e);
      }
    }
  }

  /**
    A state that arrives is applied if and only if it is the connection's first and of a version the agent
    speaks, or a later one that is newer than the processed generation, or of that generation and not what a
    tunnel with nothing pending or refused already has.
   */
  lemma AppliesIff(c: Conn, st: State, e: Env)
    ensures EventOf(c, Receive(st, e)) == Some(Apply(st, e)) <==>
            if c.first then st.protocol == None || st.protocol == Some(1)
            else
              || st.generation > c.rt.gen
              || (st.generation == c.rt.gen
                  && (c.rt.last != Some(st) || !c.rt.built || c.rt.pending.Some? || c.rt.refused.Some?))
    ensures EventOf(c, Receive(st, e)) != Some(Apply(st, e)) ==> Next(c, Receive(st, e)).rt == c.rt
  {
  }

  // ----- The generation on one connection -----

  /** Whatever waits for a retry is at least as new as the processed generation. */
  predicate Ahead(a: Runtime) {
    && a.last.Some? && a.gen == a.last.value.generation
    && (a.pending.Some? ==> a.pending.value.generation >= a.gen)
    && (a.retrySt.Some? ==> a.retrySt.value.generation >= a.gen)
  }

  lemma FinishKeepsAhead(a: Runtime, st: State, e: Env)
    requires Ahead(a) && a.retrySt.None? && st.generation >= a.gen
    ensures var b := AfterFinish(a, st, e); Ahead(b) && b.gen >= a.gen
  {
  }

  lemma BuildKeepsAhead(a: Runtime, st: State, applied: bool, e: Env)
    requires Ahead(a) && st.generation >= a.gen
    ensures var b := AfterBuild(a, st, applied, e); Ahead(b) && b.gen >= a.gen
  {
    hide AfterFinish;
    FinishKeepsAhead(WithTunnel(a, st, e), st, e);
  }

  lemma ApplyKeepsAhead(a: Runtime, st: State, e: Env)
    requires Inv(a) && Ahead(a) && st.generation >= a.gen
    ensures var b := AfterApply(a, st, e); Ahead(b) && b.gen >= a.gen
  {
    hide AfterFinish, AfterBuild;
    var c := AfterCheckWG(a, st, e);
    BuildKeepsAhead(c, st, false, e);
    if !NeedsTunnel(a, st) {
      FinishKeepsAhead(c, st, e);
    }
  }

  lemma CheckKeepsAhead(a: Runtime, h: Handshake, e: Env)
    requires Inv(a) && Ahead(a)
    ensures var b := AfterCheckTunnel(a, h, e); Ahead(b) && b.gen >= a.gen
  {
    hide AfterBuild;
    if !a.built {
      if RetryDue(a, e.now) {
        BuildKeepsAhead(a, a.retrySt.value, false, e);
      }
    } else {
      BuildKeepsAhead(AfterReading(a, h, e), a.last.value, true, e);
    }
  }

  /** Publishing any state with success leaves nothing older than it waiting. */
  lemma FinishPutsAhead(a: Runtime, st: State, e: Env)
    requires a.retrySt.None? && |AfterFinish(a, st, e).applied| > |a.applied|
    ensures Ahead(AfterFinish(a, st, e))
  {
  }

  lemma BuildPutsAhead(a: Runtime, st: State, applied: bool, e: Env)
    requires |AfterBuild(a, st, applied, e).applied| > |a.applied|
    ensures Ahead(AfterBuild(a, st, applied, e))
  {
    hide AfterFinish;
    FinishPutsAhead(WithTunnel(a, st, e), st, e);
  }

  lemma ApplyPutsAhead(a: Runtime, st: State, e: Env)
    requires Inv(a) && |AfterApply(a, st, e).applied| > |a.applied|
    ensures Ahead(AfterApply(a, st, e))
  {
    hide AfterFinish, AfterBuild;
    var c := AfterCheckWG(a, st, e);
    if NeedsTunnel(a, st) {
      BuildPutsAhead(c, st, false, e);
    } else {
      FinishPutsAhead(c, st, e);
    }
  }

  /** An event of the same connection with nothing between its critical sections. */
  predicate Atomic(ev: ConnEvent) {
    !ev.Reconnect? && !Overtaken(ev)
  }

  /** The connection's invariant. */
  predicate Synced(c: Conn) {
    Inv(c.rt) && (c.synced ==> !c.first && Ahead(c.rt))
  }

  lemma RuntimeInv(c: Conn, ev: ConnEvent)
    requires Inv(c.rt)
    ensures Inv(NextRuntime(c, ev)) && Extends(c.rt, NextRuntime(c, ev))
  {
    hide Step, Inv;
    var x := EventOf(c, ev);
    if x.Some? {
      StepKeepsInv(c.rt, x.value);
      StepExtends(c.rt, x.value);
    }
  }

  lemma NextNeverLowers(c: Conn, ev: ConnEvent)
    requires Synced(c) && c.synced && Atomic(ev)
    ensures var d := Next(c, ev); Ahead(d.rt) && d.rt.gen >= c.rt.gen
  {
    hide AfterApply, AfterCheckTunnel;
    match ev
    case Receive(st, e) => if !PassedOver(c, st) { ApplyKeepsAhead(c.rt, st, e); }
    case Tick(h, e) => CheckKeepsAhead(c.rt, h, e);
    case Retry(e) => if c.rt.pending.Some? { ApplyKeepsAhead(c.rt, c.rt.pending.value, e); }
    case Rotate(_, e) => ApplyKeepsAhead(AfterClose(c.rt), c.rt.last.value, e);
    case RotateCloses =>
    case Shutdown =>
  }

  /** The first application that counts for the connection, of whatever kind, puts it ahead. */
  lemma LoggingPutsAhead(a: Runtime, ev: Event)
    requires Inv(a) && |Step(a, ev).applied| > |a.applied|
    ensures Ahead(Step(a, ev))
  {
    hide AfterApply, AfterBuild;
    match ev
    case Apply(st, e) => ApplyPutsAhead(a, st, e);
    case Rotate(e) => ApplyPutsAhead(AfterClose(a), a.last.value, e);
    case Reapply(found, e) => ApplyPutsAhead(a, found.value, e);
    case CheckTunnel(h, e) => CheckPutsAhead(a, h, e);
    case RetryPublish(e) => ApplyPutsAhead(a, a.pending.value, e);
    case Close => assert false;
  }

  lemma CheckPutsAhead(a: Runtime, h: Handshake, e: Env)
    requires |AfterCheckTunnel(a, h, e).applied| > |a.applied|
    ensures Ahead(AfterCheckTunnel(a, h, e))
  {
    hide AfterBuild, AfterReading;
    if !a.built {
      BuildPutsAhead(a, a.retrySt.value, false, e);
    } else {
      RebuildLogsNothing(AfterReading(a, h, e), a.last.value, e);
      ReadingLogsNothing(a, h, e);
      assert false;
    }
  }

  lemma RebuildLogsNothing(a: Runtime, st: State, e: Env)
    ensures AfterBuild(a, st, true, e).applied == a.applied
  {
  }

  lemma ReadingLogsNothing(a: Runtime, h: Handshake, e: Env)
    ensures AfterReading(a, h, e).applied == a.applied
  {
  }

  lemma NextKeepsSynced(c: Conn, ev: ConnEvent)
    requires Synced(c)
    ensures Synced(Next(c, ev))
  {
    hide Step, Inv, Ahead;
    RuntimeInv(c, ev);
    if Next(c, ev).synced {
      if c.synced && Atomic(ev) {
        NextNeverLowers(c, ev);
      } else {
        LoggingPutsAhead(c.rt, EventOf(c, ev).value);
      }
    }
  }

  lemma {:induction false} RunsKeepSynced(c: Conn, evs: seq<ConnEvent>)
    requires Synced(c)
    ensures Synced(Runs(c, evs))
    decreases |evs|
  {
    hide Next, Synced;
    if evs != [] {
      NextKeepsSynced(c, evs[0]);
      RunsKeepSynced(Next(c, evs[0]), evs[1..]);
    }
  }

  lemma {:induction false} RunsKeepInv(c: Conn, evs: seq<ConnEvent>)
    requires Inv(c.rt)
    ensures Inv(Runs(c, evs).rt) && Extends(c.rt, Runs(c, evs).rt)
    decreases |evs|
  {
    hide Inv, NextRuntime;
    if evs != [] {
      RuntimeInv(c, evs[0]);
      RunsKeepInv(Next(c, evs[0]), evs[1..]);
    }
  }

  // ----- Exactly when the generation cannot go back -----

  /** Nothing older than the processed generation waits where a retry can reach it. */
  predicate NoOlder(a: Runtime) {
    && (a.built && a.pending.Some? ==> a.pending.value.generation >= a.gen)
    && (a.rebuild.retryAt.Some? && a.retrySt.Some? ==> a.retrySt.value.generation >= a.gen)
  }

  lemma FinishKeepsNoOlder(a: Runtime, st: State, e: Env)
    requires Logged(a) && a.applied != [] && a.rebuild.retryAt.None? && st.generation >= a.gen
    ensures var b := AfterFinish(a, st, e); NoOlder(b) && b.gen >= a.gen && b.applied != []
  {
  }

  lemma BuildKeepsNoOlder(a: Runtime, st: State, applied: bool, e: Env)
    requires Logged(a) && a.applied != [] && st.generation >= a.gen && (applied ==> a.built && NoOlder(a))
    ensures var b := AfterBuild(a, st, applied, e); NoOlder(b) && b.gen >= a.gen && b.applied != []
  {
    hide AfterFinish;
    FinishKeepsNoOlder(WithTunnel(a, st, e), st, e);
  }

  lemma ApplyKeepsNoOlder(a: Runtime, st: State, e: Env)
    requires Inv(a) && NoOlder(a) && a.applied != [] && st.generation >= a.gen
    ensures var b := AfterApply(a, st, e); NoOlder(b) && b.gen >= a.gen && b.applied != []
  {
    hide AfterFinish, AfterBuild;
    var c := AfterCheckWG(a, st, e);
    BuildKeepsNoOlder(c, st, false, e);
    if !NeedsTunnel(a, st) {
      FinishKeepsNoOlder(c, st, e);
    }
  }

  lemma CheckKeepsNoOlder(a: Runtime, h: Handshake, e: Env)
    requires Inv(a) && NoOlder(a) && a.applied != []
    ensures var b := AfterCheckTunnel(a, h, e); NoOlder(b) && b.gen >= a.gen && b.applied != []
  {
    hide AfterBuild;
    if !a.built {
      if RetryDue(a, e.now) {
        BuildKeepsNoOlder(a, a.retrySt.value, false, e);
      }
    } else {
      BuildKeepsNoOlder(AfterReading(a, h, e), a.last.value, true, e);
    }
  }

  /** A connection past its first state, in a process that has applied one, with nothing older waiting. */
  predicate Steady(c: Conn) {
    Inv(c.rt) && !c.first && c.rt.applied != [] && NoOlder(c.rt)
  }

  lemma NextKeepsSteady(c: Conn, ev: ConnEvent)
    requires Steady(c) && Atomic(ev)
    ensures Steady(Next(c, ev)) && Next(c, ev).rt.gen >= c.rt.gen
  {
    hide AfterApply, AfterCheckTunnel, Inv;
    RuntimeInv(c, ev);
    assert Logged(c.rt) && Inv(AfterClose(c.rt)) by { ClosedInv(c.rt); }
    match ev
    case Receive(st, e) => if !PassedOver(c, st) { ApplyKeepsNoOlder(c.rt, st, e); }
    case Tick(h, e) => CheckKeepsNoOlder(c.rt, h, e);
    case Retry(e) => if c.rt.pending.Some? && c.rt.built { ApplyKeepsNoOlder(c.rt, c.rt.pending.value, e); }
    case Rotate(_, e) => ApplyKeepsNoOlder(AfterClose(c.rt), c.rt.last.value, e);
    case RotateCloses =>
    case Shutdown =>
  }

  lemma ClosedInv(a: Runtime)
    requires Inv(a)
    ensures Logged(a) && Inv(AfterClose(a))
  {
  }

  lemma {:induction false} RunsKeepSteady(c: Conn, evs: seq<ConnEvent>)
    requires Steady(c) && forall ev <- evs :: Atomic(ev)
    ensures Steady(Runs(c, evs)) && Runs(c, evs).rt.gen >= c.rt.gen
    decreases |evs|
  {
    hide Next, Steady, Atomic;
    if evs != [] {
      assert evs[0] in evs;
      NextKeepsSteady(c, evs[0]);
      RunsKeepSteady(Next(c, evs[0]), evs[1..]);
    }
  }

  lemma {:induction false} OverStays(c: Conn, evs: seq<ConnEvent>)
    requires c.rt.over
    ensures Runs(c, evs).rt == c.rt
    decreases |evs|
  {
    if evs != [] {
      OverStays(Next(c, evs[0]), evs[1..]);
    }
  }

  const AnyWG := WGConfig("", "", "", 0, 0, 0, 0)

  function Plain(g: nat): State {
    State(g, AnyWG, [], None, None, false)
  }

  /** A dataplane that builds and answers ApplyRules with `rules`, at time `now`. */
  function AnswerAt(now: int, rules: RulesOutcome): Env {
    Env(now, now, true, Up, rules, true)
  }

  function Answer(rules: RulesOutcome): Env {
    AnswerAt(0, rules)
  }

  lemma SuccessSetsGeneration(a: Runtime, st: State, now: int)
    ensures AfterApply(a, st, AnswerAt(now, Published)).gen == st.generation
    ensures AfterBuild(a, st, false, AnswerAt(now, Published)).gen == st.generation
  {
  }

  /** A plain state applied with success to a runtime that refuses nothing. */
  lemma PlainApplied(a: Runtime, g: nat)
    requires a.refused.None?
    ensures var b := AfterApply(a, Plain(g), Answer(Published));
            && b.gen == g && b.last == Some(Plain(g)) && b.built && b.wgCfg == AnyWG && b.refused.None?
            && b.over == a.over && b.applied == a.applied + [Plain(g)]
            && (a.pending.None? || a.pending.value.generation <= g ==> b.pending.None?)
  {
  }

  /** A plain state that cannot be published in a tunnel that has its config. */
  lemma PlainNotPublished(a: Runtime, g: nat)
    requires a.refused.None? && a.pending.None? && a.built && a.wgCfg == AnyWG
    ensures AfterApply(a, Plain(g), Answer(Unpublished)) == a.(pending := Some(Plain(g)))
  {
  }

  /** The one event that takes the generation back, where one can. */
  function Lowering(c: Conn): ConnEvent {
    if c.first then Receive(Plain(0), Answer(Published))
    else if c.rt.built then Retry(Answer(Published))
    else Tick(NoHandshake, AnswerAt(if c.rt.rebuild.retryAt.Some? then c.rt.rebuild.retryAt.value else 0, Published))
  }

  lemma LoweringLowers(c: Conn)
    requires Inv(c.rt) && !c.rt.over && c.rt.gen > 0 && (c.first || !NoOlder(c.rt))
    ensures Next(c, Lowering(c)).rt.gen < c.rt.gen
  {
    hide AfterApply, AfterBuild;
    var a := c.rt;
    if c.first {
      SuccessSetsGeneration(a, Plain(0), 0);
    } else if a.built {
      SuccessSetsGeneration(a, a.pending.value, 0);
    } else {
      SuccessSetsGeneration(a, a.retrySt.value, a.rebuild.retryAt.value);
    }
  }

  /** The connection of a process that has just started. */
  function Fresh(checksWG: bool, after: int, backoffMax: int, saved: Option<State>, wg: WGConfig): Conn {
    Conn(Started(checksWG, after, backoffMax, saved, wg), true, false)
  }

  /** No later event of the connection with nothing between its critical sections takes the generation back. */
  ghost predicate KeepsGeneration(c: Conn) {
    forall evs | (forall ev <- evs :: Atomic(ev)) :: Runs(c, evs).rt.gen >= c.rt.gen
  }

  lemma KeepsGenerationIff(c: Conn)
    requires Inv(c.rt)
    ensures KeepsGeneration(c) <==> c.rt.over || c.rt.gen == 0 || (!c.first && NoOlder(c.rt))
  {
    hide Next;
    if c.rt.over || c.rt.gen == 0 || (!c.first && NoOlder(c.rt)) {
      forall evs | (forall ev <- evs :: Atomic(ev)) ensures Runs(c, evs).rt.gen >= c.rt.gen {
        if c.rt.over {
          OverStays(c, evs);
        } else if c.rt.gen > 0 {
          RunsKeepSteady(c, evs);
        }
      }
    } else {
      var ev := Lowering(c);
      LoweringLowers(c);
      assert [ev][1..] == [];
      assert Runs(c, [ev]) == Runs(Next(c, ev), []);
      assert forall x <- [ev] :: Atomic(x);
    }
  }

  /**
    In every state a connection can reach: the generation stays where it is or rises, whatever atomic
    events come on that connection, if and only if the run is over, nothing was processed yet, or the connection is
    past its first state and nothing older waits for a retry.
   */
  lemma GenerationKeptIff(
    checksWG: bool, after: int, backoffMax: int, saved: Option<State>, wg: WGConfig, before: seq<ConnEvent>)
    ensures var c := Runs(Fresh(checksWG, after, backoffMax, saved, wg), before);
            KeepsGeneration(c) <==> c.rt.over || c.rt.gen == 0 || (!c.first && NoOlder(c.rt))
  {
    RunsKeepInv(Fresh(checksWG, after, backoffMax, saved, wg), before);
    KeepsGenerationIff(Runs(Fresh(checksWG, after, backoffMax, saved, wg), before));
  }

  /**
    In particular, once a state was applied with success after the first one a connection received,
    the processed generation never decreases while that connection lasts, through later states,
    retries, rebuilds and rotate-key, each with nothing between its critical sections.
   */
  lemma GenerationNeverDecreases(
    checksWG: bool, after: int, backoffMax: int, saved: Option<State>, wg: WGConfig, before: seq<ConnEvent>)
    ensures var c := Runs(Fresh(checksWG, after, backoffMax, saved, wg), before); c.synced ==> KeepsGeneration(c)
  {
    hide Runs, KeepsGeneration;
    var c0 := Fresh(checksWG, after, backoffMax, saved, wg);
    RunsKeepSynced(c0, before);
    KeepsGenerationIff(Runs(c0, before));
  }

  /** A first state that cannot be published is retried later and takes the generation back to its own. */
  lemma UnsyncedConnectionCanLowerGeneration()
    ensures var c := Runs(Fresh(true, 0, 0, None, AnyWG),
                          [Receive(Plain(2), Answer(Published)), Reconnect, Receive(Plain(1), Answer(Unpublished))]);
            c.rt.gen == 2 && !c.first && Next(c, Retry(Answer(Published))).rt.gen == 1
  {
    hide AfterApply;
    var c0 := Fresh(true, 0, 0, None, AnyWG);
    var r2, r1 := Receive(Plain(2), Answer(Published)), Receive(Plain(1), Answer(Unpublished));
    var c1 := Next(c0, r2);
    PlainApplied(c0.rt, 2);
    var c2 := Next(c1, Reconnect);
    var c3 := Next(c2, r1);
    PlainNotPublished(c2.rt, 1);
    PlainApplied(c3.rt, 1);
    assert Runs(c3, []) == c3;
    assert [r1][1..] == [] && [Reconnect, r1][1..] == [r1] && [r2, Reconnect, r1][1..] == [Reconnect, r1];
    assert Runs(c2, [r1]) == c3;
    assert Runs(c1, [Reconnect, r1]) == c3;
  }

  // ----- rotate-key overtaken between its two critical sections -----

  /** Some state logged since the log had n entries is newer than g. */
  predicate NewerLogged(a: Runtime, n: nat, g: nat) {
    n <= |a.applied| && exists i :: n <= i < |a.applied| && a.applied[i].generation > g
  }

  lemma FinishLogsOne(a: Runtime, st: State, e: Env)
    ensures |AfterFinish(a, st, e).applied| <= |a.applied| + 1
  {
  }

  lemma BuildLogsOne(a: Runtime, st: State, applied: bool, e: Env)
    ensures |AfterBuild(a, st, applied, e).applied| <= |a.applied| + 1
  {
    hide AfterFinish;
    FinishLogsOne(WithTunnel(a, st, e), st, e);
  }

  lemma ApplyLogsOne(a: Runtime, st: State, e: Env)
    ensures |AfterApply(a, st, e).applied| <= |a.applied| + 1
  {
    hide AfterFinish, AfterBuild;
    BuildLogsOne(AfterCheckWG(a, st, e), st, false, e);
    FinishLogsOne(AfterCheckWG(a, st, e), st, e);
  }

  lemma StepLogsOne(a: Runtime, ev: Event)
    ensures |Step(a, ev).applied| <= |a.applied| + 1
  {
    hide AfterApply, AfterBuild, AfterReading;
    match ev
    case Apply(st, e) => ApplyLogsOne(a, st, e);
    case Rotate(e) => if a.last.Some? { ApplyLogsOne(AfterClose(a), a.last.value, e); }
    case Reapply(found, e) => if found.Some? { ApplyLogsOne(a, found.value, e); }
    case CheckTunnel(h, e) =>
      ReadingLogsNothing(a, h, e);
      if RetryDue(a, e.now) {
        BuildLogsOne(a, a.retrySt.value, false, e);
      } else if a.last.Some? {
        BuildLogsOne(AfterReading(a, h, e), a.last.value, true, e);
      }
    case RetryPublish(e) => if a.pending.Some? { ApplyLogsOne(a, a.pending.value, e); }
    case Close =>
  }

  /** What a steady connection logs is never newer than the generation it ends with. */
  lemma {:induction false} LogStaysBelow(c: Conn, evs: seq<ConnEvent>, i: nat)
    requires Steady(c) && forall ev <- evs :: Atomic(ev)
    requires |c.rt.applied| <= i < |Runs(c, evs).rt.applied|
    ensures Runs(c, evs).rt.applied[i].generation <= Runs(c, evs).rt.gen
    decreases |evs|
  {
    hide Step, Steady, Atomic, Inv;
    if evs != [] {
      var ev, b, d := evs[0], Next(c, evs[0]), Runs(c, evs);
      assert ev in evs;
      SteadyInv(c);
      RuntimeInv(c, ev);
      NextKeepsSteady(c, ev);
      RunsKeepSteady(b, evs[1..]);
      SteadyInv(b);
      RunsKeepInv(b, evs[1..]);
      if i >= |b.rt.applied| {
        LogStaysBelow(b, evs[1..], i);
      } else {
        StepLogsOne(c.rt, EventOf(c, ev).value);
        assert d.rt.applied[i] == b.rt.applied[|b.rt.applied| - 1];
      }
    }
  }

  lemma SteadyInv(c: Conn)
    requires Steady(c)
    ensures Inv(c.rt) && Logged(c.rt) && c.rt.applied != []
  {
  }

  /** From a generation of at most g on, a state newer than g was logged exactly when the generation passed g. */
  lemma NewerLoggedMeansNewer(c: Conn, evs: seq<ConnEvent>, g: nat)
    requires Steady(c) && (forall ev <- evs :: Atomic(ev)) && g >= c.rt.gen
    ensures NewerLogged(Runs(c, evs).rt, |c.rt.applied|, g) <==> Runs(c, evs).rt.gen > g
  {
    hide Runs, Steady, Atomic, Inv;
    var d, n := Runs(c, evs), |c.rt.applied|;
    SteadyInv(c);
    RunsKeepInv(c, evs);
    RunsKeepSteady(c, evs);
    SteadyInv(d);
    if NewerLogged(d.rt, n, g) {
      var i :| n <= i < |d.rt.applied| && d.rt.applied[i].generation > g;
      LogStaysBelow(c, evs, i);
    }
    if d.rt.gen > g {
      assert d.rt.applied[|d.rt.applied| - 1].generation == d.rt.gen;
      assert |d.rt.applied| == n ==> d.rt.applied == c.rt.applied;
    }
  }

  lemma FinishSetsOrKeeps(a: Runtime, st: State, e: Env)
    ensures AfterFinish(a, st, e).gen == a.gen || AfterFinish(a, st, e).gen == st.generation
  {
  }

  lemma ReapplySetsOrKeeps(a: Runtime, st: State, e: Env)
    ensures AfterApply(a, st, e).gen == a.gen || AfterApply(a, st, e).gen == st.generation
  {
    hide AfterFinish;
    var c := AfterCheckWG(a, st, e);
    FinishSetsOrKeeps(c, st, e);
    FinishSetsOrKeeps(WithTunnel(c, st, e), st, e);
  }

  /**
    rotate-key gives up the mutex between closing the tunnel and applying the last state it found. On a
    connection that would keep its generation, and for all events in between: some answer of the
    dataplane lets the second half take the generation back if and only if a state newer than the one
    rotate-key found was logged in between.
   */
  lemma RotateKeyRace(
    checksWG: bool, after: int, backoffMax: int, saved: Option<State>, wg: WGConfig,
    before: seq<ConnEvent>, evs: seq<ConnEvent>)
    requires forall ev <- evs :: Atomic(ev)
    ensures var c := Runs(Fresh(checksWG, after, backoffMax, saved, wg), before);
            var d := Runs(Next(c, RotateCloses), evs);
            !c.rt.over && c.rt.gen > 0 && !c.first && NoOlder(c.rt) && !d.rt.over ==>
              ((exists e :: Next(d, RotateApplies(c.rt.last, e)).rt.gen < d.rt.gen)
               <==> NewerLogged(d.rt, |c.rt.applied|, c.rt.gen))
  {
    hide Runs, Step, AfterApply;
    var c := Runs(Fresh(checksWG, after, backoffMax, saved, wg), before);
    var closed := Next(c, RotateCloses);
    var d := Runs(closed, evs);
    RunsKeepInv(Fresh(checksWG, after, backoffMax, saved, wg), before);
    if !c.rt.over && c.rt.gen > 0 && !c.first && NoOlder(c.rt) && !d.rt.over {
      assert Steady(c);
      ClosingKeeps(c);
      NewerLoggedMeansNewer(closed, evs, c.rt.gen);
      RunsKeepSteady(closed, evs);
      var st := c.rt.last.value;
      forall e ensures Next(d, RotateApplies(c.rt.last, e)).rt.gen == AfterApply(d.rt, st, e).gen {
        SecondHalf(d, st, e);
        ReapplySetsOrKeeps(d.rt, st, e);
      }
      if d.rt.gen > st.generation {
        SuccessSetsGeneration(d.rt, st, 0);
        assert Next(d, RotateApplies(c.rt.last, Answer(Published))).rt.gen < d.rt.gen;
      } else {
        forall e ensures Next(d, RotateApplies(c.rt.last, e)).rt.gen >= d.rt.gen {
          ReapplySetsOrKeeps(d.rt, st, e);
        }
      }
    }
  }

  lemma ClosingKeeps(c: Conn)
    requires Steady(c) && !c.rt.over
    ensures var d := Next(c, RotateCloses);
            Steady(d) && d.rt.applied == c.rt.applied && d.rt.gen == c.rt.gen && c.rt.last.Some?
            && c.rt.last.value.generation == c.rt.gen
  {
  }

  lemma SecondHalf(d: Conn, st: State, e: Env)
    requires !d.rt.over
    ensures Next(d, RotateApplies(Some(st), e)).rt == AfterApply(d.rt, st, e).(over := false)
  {
  }

  /** Such a run exists: a newer state arrives between the two halves and the older one wins. */
  lemma RotateKeyRaceHappens()
    ensures var c := Runs(Fresh(true, 0, 0, None, AnyWG), [Receive(Plain(1), Answer(Published))]);
            var d := Runs(Next(c, RotateCloses), [Receive(Plain(2), Answer(Published))]);
            d.rt.gen == 2 && Next(d, RotateApplies(c.rt.last, Answer(Published))).rt.gen == 1
  {
    hide AfterApply;
    var c0 := Fresh(true, 0, 0, None, AnyWG);
    var r1, r2 := Receive(Plain(1), Answer(Published)), Receive(Plain(2), Answer(Published));
    var c := Next(c0, r1);
    PlainApplied(c0.rt, 1);
    var closed := Next(c, RotateCloses);
    var d := Next(closed, r2);
    PlainApplied(closed.rt, 2);
    PlainApplied(d.rt, 1);
    assert [r1][1..] == [] && [r2][1..] == [];
    assert Runs(c0, [r1]) == Runs(c, []) == c;
    assert Runs(closed, [r2]) == Runs(d, []) == d;
  }

  // ----- A received state overtaken between its comparison and its application -----

  /**
    The loop compares a state's generation in one critical section and applies the state in a later one.
    On a connection that would keep its generation, for every state that passed the comparison and all
    events before its application: some answer of the dataplane lets it take the generation back if and
    only if a state newer than it was logged in between.
   */
  lemma ReceiveRace(
    checksWG: bool, after: int, backoffMax: int, saved: Option<State>, wg: WGConfig,
    before: seq<ConnEvent>, st: State, evs: seq<ConnEvent>)
    requires forall ev <- evs :: Atomic(ev)
    ensures var c := Runs(Fresh(checksWG, after, backoffMax, saved, wg), before);
            var d := Runs(c, evs);
            !c.rt.over && c.rt.gen > 0 && !c.first && NoOlder(c.rt) && st.generation >= c.rt.gen && !d.rt.over ==>
              ((exists e :: Next(d, ReceiveApplies(st, e)).rt.gen < d.rt.gen)
               <==> NewerLogged(d.rt, |c.rt.applied|, st.generation))
  {
    hide Runs, AfterApply;
    var c := Runs(Fresh(checksWG, after, backoffMax, saved, wg), before);
    var d := Runs(c, evs);
    RunsKeepInv(Fresh(checksWG, after, backoffMax, saved, wg), before);
    if !c.rt.over && c.rt.gen > 0 && !c.first && NoOlder(c.rt) && st.generation >= c.rt.gen && !d.rt.over {
      assert Steady(c);
      NewerLoggedMeansNewer(c, evs, st.generation);
      forall e ensures Next(d, ReceiveApplies(st, e)).rt.gen in {d.rt.gen, st.generation} {
        ReapplySetsOrKeeps(d.rt, st, e);
      }
      if d.rt.gen > st.generation {
        SuccessSetsGeneration(d.rt, st, 0);
        assert Next(d, ReceiveApplies(st, Answer(Published))).rt.gen < d.rt.gen;
      }
    }
  }

  /**
    Such a run exists: generation 3 is applied, 5 cannot be published, 4 passes the comparison, the retry
    publishes 5, and then 4 is applied.
   */
  lemma ReceiveRaceHappens()
    ensures var c := Runs(Fresh(true, 0, 0, None, AnyWG),
                          [Receive(Plain(3), Answer(Published)), Receive(Plain(5), Answer(Unpublished))]);
            var d := Next(c, Retry(Answer(Published)));
            && c.synced && !EndsConnection(c, Plain(4)) && !PassedOver(c, Plain(4))
            && d.rt.gen == 5 && Next(d, ReceiveApplies(Plain(4), Answer(Published))).rt.gen == 4
  {
    hide AfterApply;
    var c0 := Fresh(true, 0, 0, None, AnyWG);
    var r3, r5 := Receive(Plain(3), Answer(Published)), Receive(Plain(5), Answer(Unpublished));
    var c1 := Next(c0, r3);
    PlainApplied(c0.rt, 3);
    var c2 := Next(c1, r5);
    PlainNotPublished(c1.rt, 5);
    PlainApplied(c2.rt, 5);
    PlainApplied(Next(c2, Retry(Answer(Published))).rt, 4);
    assert [r3, r5][1..] == [r5] && [r5][1..] == [];
    assert Runs(c1, [r5]) == Runs(c2, []) == c2;
  }
}
