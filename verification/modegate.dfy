/**
  The mode gate: the agent's start checks the mode it recorded, teardown removes what a kernel-mode
  agent left behind, and either process may stop or crash between any two of its steps.
 */
module ModeGate {
  import opened Wrappers

  datatype Mode = InUserspace | InKernel

  /** The mode in agent.json: no file, a file without a mode, or one with a mode. */
  datatype Record = NoFile | Unset | Userspace | Kernel | Unknown

  /** The value of WGFT_MODE. */
  datatype Want = Omitted | WantUserspace | WantKernel | WantOther

  datatype GateErr = BadConfig | Conflict | Gated | NoPrerequisite | SaveFailed

  /** The mode to start in, and whether it has to be recorded first. */
  function Reconcile(rec: Record, want: Want): Result<(Mode, bool), GateErr> {
    if want.WantOther? then Err(BadConfig)
    else if rec.Unknown? then Err(Conflict)
    else if want.WantKernel? then Ok((InKernel, !rec.Kernel?))
    else if rec.Kernel? then Err(Gated)
    else Ok((InUserspace, false))
  }

  /** What a start that loaded rec comes to: a mode, or a refusal. */
  function Started(rec: Record, want: Want, ready: bool, saves: bool): Result<Mode, GateErr> {
    match Reconcile(rec, want)
    case Err(e) => Err(e)
    case Ok((mode, record)) =>
      if mode.InKernel? && !ready then Err(NoPrerequisite)
      else if record && !saves then Err(SaveFailed)
      else Ok(mode)
  }

  /**
    Kernel mode starts only when it is asked for and the host and the file allow it; userspace mode
    starts only when there is no kernel record.
   */
  lemma StartsWhenAllowed(rec: Record, want: Want, ready: bool, saves: bool)
    ensures Started(rec, want, ready, saves) == Ok(InKernel) <==>
            want.WantKernel? && !rec.Unknown? && ready && (rec.Kernel? || saves)
    ensures Started(rec, want, ready, saves) == Ok(InUserspace) <==>
            (want.Omitted? || want.WantUserspace?) && !rec.Unknown? && !rec.Kernel?
    ensures Started(rec, want, ready, saves) == Err(BadConfig) <==> want.WantOther?
    ensures Started(rec, want, ready, saves) == Err(Conflict) <==> !want.WantOther? && rec.Unknown?
    ensures Started(rec, want, ready, saves) == Err(Gated) <==> (want.Omitted? || want.WantUserspace?) && rec.Kernel?
    ensures Started(rec, want, ready, saves) == Err(NoPrerequisite) <==>
            want.WantKernel? && !rec.Unknown? && !ready
  {
  }

  /** The credentials in memory and in the file. */
  class Credentials {
    var mode: Record
    var saved: Record

    constructor (saved: Record)
      ensures this.saved == saved && mode == saved
    {
      this.saved, mode := saved, saved;
    }

    /**
      enterMode: a start in kernel mode has the kernel record in the file before it goes on, a start in
      userspace mode has none there, and a refused start has written nothing.
     */
    method Enter(want: Want, ready: bool, saves: bool) returns (r: Result<Mode, GateErr>)
      requires mode == saved
      modifies this
      ensures r == Started(old(saved), want, ready, saves)
      ensures r == Ok(InKernel) ==> saved.Kernel? && mode.Kernel?
      ensures r == Ok(InUserspace) ==> saved == old(saved) && mode == old(mode) && !saved.Kernel?
      ensures r.Err? ==> saved == old(saved)
    {
      var decision := Reconcile(mode, want);
      if decision.Err? {
        return Err(decision.error);
      }
      var (m, record) := decision.value;
      if m.InKernel? && !ready {
        return Err(NoPrerequisite);
      }
      if !record {
        return Ok(m);
      }
      mode := Kernel;
      if !saves {
        return Err(SaveFailed);
      }
      saved := mode;
      r := Ok(m);
    }
  }

  // ----- Agent and teardown against each other -----

  datatype Agent = Off | Starting | Loaded(mem: Record) | Up(mode: Mode, mem: Record)

  datatype Teardown =
    | Out
    | Seen                                             // the lock file is there and nobody holds it
    | Entered
    | Read(mem: Record)
    | Planned(link: bool, table: bool, records: bool)
    | LinkGone(table: bool, records: bool)
    | TableGone(records: bool)

  datatype Lock = Free | ByAgent | ByTeardown

  /** The host: agent.json's record, the interface and the table, the lock file, and the two processes. */
  datatype Host = Host(
    rec: Record, link: bool, table: bool, lockFile: bool, lock: Lock, agent: Agent, teardown: Teardown)

  /** The steps of a start and of a running agent; a kernel-mode agent makes and removes its interface and table. */
  datatype AgentStep =
    | AcquireLock
    | LoadRecord
    | EnterMode(want: Want, ready: bool, saves: bool)
    | Save
    | Write(link: bool, table: bool)
    | Stop

  /** The steps of a teardown; `others` says whether agent.json has kernel-mode records besides the mode. */
  datatype TeardownStep =
    | Inspect
    | TakeLock
    | LoadFile
    | Plan(others: bool)
    | DeleteLink
    | DeleteTable
    | ClearRecords
    | Leave

  datatype Event = OfAgent(a: AgentStep) | OfTeardown(t: TeardownStep)

  function AgentOff(h: Host): Host {
    h.(agent := Off, lock := if h.lock.ByAgent? then Free else h.lock)
  }

  function TeardownOut(h: Host): Host {
    h.(teardown := Out, lock := if h.lock.ByTeardown? then Free else h.lock)
  }

  predicate AgentCan(h: Host, a: AgentStep) {
    match a
    case AcquireLock => h.agent.Off?
    case LoadRecord => h.agent.Starting?
    case EnterMode(_, _, _) => h.agent.Loaded?
    case Save => h.agent.Up?
    case Write(_, _) => h.agent.Up? && h.agent.mode.InKernel?
    case Stop => !h.agent.Off?
  }

  predicate TeardownCan(h: Host, t: TeardownStep) {
    match t
    case Inspect => h.teardown.Out?
    case TakeLock => h.teardown.Seen?
    case LoadFile => h.teardown.Entered?
    case Plan(_) => h.teardown.Read?
    case DeleteLink => h.teardown.Planned?
    case DeleteTable => h.teardown.LinkGone?
    case ClearRecords => h.teardown.TableGone?
    case Leave => !h.teardown.Out?
  }

  predicate Enabled(h: Host, e: Event) {
    match e
    case OfAgent(a) => AgentCan(h, a)
    case OfTeardown(t) => TeardownCan(h, t)
  }

  function Entering(h: Host, want: Want, ready: bool, saves: bool): Host
    requires h.agent.Loaded?
  {
    var mem := h.agent.mem;
    match Started(mem, want, ready, saves)
    case Err(_) => AgentOff(h)
    case Ok(mode) =>
      if mode.InKernel? && !mem.Kernel? then h.(rec := Kernel, agent := Up(mode, Kernel))
      else h.(agent := Up(mode, mem))
  }

  function AgentNext(h: Host, a: AgentStep): Host
    requires AgentCan(h, a)
  {
    match a
    case AcquireLock => if h.lock.Free? then h.(lockFile := true, lock := ByAgent, agent := Starting) else h
    case LoadRecord => h.(agent := Loaded(h.rec))
    case EnterMode(want, ready, saves) => Entering(h, want, ready, saves)
    case Save => h.(rec := if h.agent.mem.NoFile? then Unset else h.agent.mem)
    case Write(link, table) => h.(link := link, table := table)
    case Stop => AgentOff(h)
  }

  function TeardownNext(h: Host, t: TeardownStep): Host
    requires TeardownCan(h, t)
  {
    match t
    case Inspect =>
      if !h.lockFile then h.(teardown := Entered)
      else if h.lock.Free? then h.(teardown := Seen)
      else h
    case TakeLock => if h.lock.Free? then h.(teardown := Entered, lock := ByTeardown) else TeardownOut(h)
    case LoadFile => if h.rec.NoFile? || h.rec.Unknown? then TeardownOut(h) else h.(teardown := Read(h.rec))
    case Plan(others) =>
      var records := others || !h.teardown.mem.Unset?;
      if !h.link && !h.table && !records then TeardownOut(h)
      else h.(teardown := Planned(h.link, h.table, records))
    case DeleteLink =>
      h.(link := h.link && !h.teardown.link, teardown := LinkGone(h.teardown.table, h.teardown.records))
    case DeleteTable => h.(table := h.table && !h.teardown.table, teardown := TableGone(h.teardown.records))
    case ClearRecords => TeardownOut(h.(rec := if h.teardown.records then Unset else h.rec))
    case Leave => TeardownOut(h)
  }

  function Next(h: Host, e: Event): Host
    requires Enabled(h, e)
  {
    match e
    case OfAgent(a) => AgentNext(h, a)
    case OfTeardown(t) => TeardownNext(h, t)
  }

  predicate Runs(h: Host, run: seq<Event>)
    decreases |run|
  {
    run == [] || (Enabled(h, run[0]) && Runs(Next(h, run[0]), run[1..]))
  }

  function After(h: Host, run: seq<Event>): Host
    requires Runs(h, run)
    decreases |run|
  {
    if run == [] then h else After(Next(h, run[0]), run[1..])
  }

  // ----- What the gate is for -----

  predicate Residue(h: Host) {
    h.link || h.table
  }

  /** What is left in the kernel is recorded, and no agent runs in userspace mode while it is there. */
  predicate Safe(h: Host) {
    && (Residue(h) ==> h.rec.Kernel?)
    && (h.agent.Up? && h.agent.mode.InUserspace? ==> !Residue(h))
  }

  /** Neither process runs, and what is left in the kernel is recorded. */
  predicate AtRest(h: Host) {
    h.agent.Off? && h.teardown.Out? && h.lock.Free? && (Residue(h) ==> h.rec.Kernel?)
  }

  predicate AgentKnows(h: Host) {
    match h.agent
    case Off => true
    case Starting => true
    case Loaded(mem) => mem == h.rec
    case Up(InKernel, mem) => mem.Kernel? && h.rec.Kernel?
    case Up(InUserspace, mem) => !mem.Kernel? && !h.rec.Kernel?
  }

  predicate TeardownKnows(h: Host) {
    match h.teardown
    case Read(mem) => mem == h.rec
    case Planned(link, table, records) => link == h.link && table == h.table && (h.rec.Kernel? ==> records)
    case LinkGone(table, records) => !h.link && table == h.table && (h.rec.Kernel? ==> records)
    case TableGone(records) => !h.link && !h.table && (h.rec.Kernel? ==> records)
    case _ => true
  }

  /** With a lock file the lock keeps the two processes apart, and what each has read still holds. */
  predicate Inv(h: Host) {
    && h.lockFile && Safe(h)
    && (h.lock.ByAgent? <==> !h.agent.Off?)
    && (h.lock.ByTeardown? <==> !h.teardown.Out? && !h.teardown.Seen?)
    && AgentKnows(h) && TeardownKnows(h)
  }

  lemma StepKeepsInv(h: Host, e: Event)
    requires Inv(h) && Enabled(h, e)
    ensures Inv(Next(h, e))
  {
  }

  /** A record this version does not know stops both the agent's start and teardown. */
  predicate Blocked(h: Host) {
    && h.rec.Unknown? && !Residue(h) && !h.agent.Up? && (h.agent.Loaded? ==> h.agent.mem.Unknown?)
    && (h.teardown.Out? || h.teardown.Seen? || h.teardown.Entered?)
  }

  lemma {:induction false} RunStaysSafe(h: Host, run: seq<Event>)
    requires (Inv(h) || Blocked(h)) && Runs(h, run)
    ensures Safe(After(h, run))
    decreases |run|
  {
    if run != [] {
      if Inv(h) {
        StepKeepsInv(h, run[0]);
      }
      RunStaysSafe(Next(h, run[0]), run[1..]);
    }
  }

  /** The steps of a teardown that nothing interrupts: it takes the lock and reads the record, and then removes. */
  const READS: seq<Event> := [OfTeardown(Inspect), OfTeardown(TakeLock), OfTeardown(LoadFile)]

  function Removes(others: bool): seq<Event> {
    [OfTeardown(Plan(others)), OfTeardown(DeleteLink), OfTeardown(DeleteTable), OfTeardown(ClearRecords)]
  }

  lemma TeardownReads(h: Host)
    requires AtRest(h) && h.lockFile && !h.rec.NoFile? && !h.rec.Unknown?
    ensures Runs(h, READS) && After(h, READS) == h.(lock := ByTeardown, teardown := Read(h.rec))
  {
    TraceRuns([
      h,
      h.(teardown := Seen),
      h.(lock := ByTeardown, teardown := Entered),
      h.(lock := ByTeardown, teardown := Read(h.rec))], READS);
  }

  lemma TeardownRemoves(h: Host, others: bool)
    requires h.teardown == Read(h.rec) && h.lock.ByTeardown? && (others || !h.rec.Unset?)
    ensures Runs(h, Removes(others))
    ensures After(h, Removes(others)) ==
            h.(rec := Unset, link := false, table := false, lock := Free, teardown := Out)
  {
    TraceRuns([
      h,
      h.(teardown := Planned(h.link, h.table, true)),
      h.(link := false, teardown := LinkGone(h.table, true)),
      h.(link := false, table := false, teardown := TableGone(true)),
      h.(rec := Unset, link := false, table := false, lock := Free, teardown := Out)], Removes(others));
  }

  /**
    From any host at rest, whatever a crash left there, a teardown that nothing interrupts ends with the host at
    rest, nothing left in the kernel and no mode recorded.
   */
  lemma TeardownCleans(h: Host, others: bool)
    requires AtRest(h) && h.lockFile && (h.rec.Kernel? || h.rec.Userspace? || (h.rec.Unset? && others))
    ensures var run := READS + Removes(others);
            Runs(h, run) && After(h, run) == h.(rec := Unset, link := false, table := false)
  {
    TeardownReads(h);
    TeardownRemoves(After(h, READS), others);
    RunsJoin(h, READS, Removes(others));
  }

  /** A teardown finds no lock file, and an agent starts in kernel mode. */
  const STARTS: seq<Event> := [
    OfTeardown(Inspect), OfAgent(AcquireLock), OfAgent(LoadRecord), OfAgent(EnterMode(WantKernel, true, true))]

  /** The teardown goes on, and the agent makes its interface and table. */
  const TEARS: seq<Event> := [
    OfTeardown(LoadFile), OfTeardown(Plan(false)), OfTeardown(DeleteLink), OfTeardown(DeleteTable),
    OfTeardown(ClearRecords)]

  const WRITES: seq<Event> := [OfAgent(Write(true, true))]

  /** The agent then stops and starts again with WGFT_MODE unset. */
  const RESTARTS: seq<Event> := [
    OfAgent(Stop), OfAgent(AcquireLock), OfAgent(LoadRecord), OfAgent(EnterMode(Omitted, true, true))]

  /** hs are the states of the run es from hs[0] on. */
  predicate Trace(hs: seq<Host>, es: seq<Event>) {
    |hs| == |es| + 1 && forall i | 0 <= i < |es| :: Enabled(hs[i], es[i]) && hs[i + 1] == Next(hs[i], es[i])
  }

  lemma {:induction false} TraceRuns(hs: seq<Host>, es: seq<Event>)
    requires Trace(hs, es)
    ensures Runs(hs[0], es) && After(hs[0], es) == hs[|es|]
    decreases |es|
  {
    if es != [] {
      TraceRuns(hs[1..], es[1..]);
    }
  }

  lemma {:induction false} RunsJoin(h: Host, a: seq<Event>, b: seq<Event>)
    requires Runs(h, a) && Runs(After(h, a), b)
    ensures Runs(h, a + b) && After(h, a + b) == After(After(h, a), b)
    decreases |a|
  {
    if a == [] {
      assert a + b == b;
    } else {
      RunsJoin(Next(h, a[0]), a[1..], b);
      assert (a + b)[1..] == a[1..] + b;
    }
  }

  /** The host while the agent runs in kernel mode. */
  function Running(rec: Record, link: bool, table: bool, t: Teardown): Host {
    Host(rec, link, table, true, ByAgent, Up(InKernel, Kernel), t)
  }

  lemma AgentStartsBesideTeardown(h: Host)
    requires AtRest(h) && !h.lockFile && !h.rec.Unknown?
    ensures Runs(h, STARTS) && After(h, STARTS) == Running(Kernel, h.link, h.table, Entered)
  {
    TraceRuns([
      h,
      Host(h.rec, h.link, h.table, false, Free, Off, Entered),
      Host(h.rec, h.link, h.table, true, ByAgent, Starting, Entered),
      Host(h.rec, h.link, h.table, true, ByAgent, Loaded(h.rec), Entered),
      Running(Kernel, h.link, h.table, Entered)], STARTS);
  }

  lemma TeardownClearsBesideAgent(link: bool, table: bool)
    ensures Runs(Running(Kernel, link, table, Entered), TEARS)
    ensures After(Running(Kernel, link, table, Entered), TEARS) == Running(Unset, false, false, Out)
  {
    TraceRuns([
      Running(Kernel, link, table, Entered),
      Running(Kernel, link, table, Read(Kernel)),
      Running(Kernel, link, table, Planned(link, table, true)),
      Running(Kernel, false, table, LinkGone(table, true)),
      Running(Kernel, false, false, TableGone(true)),
      Running(Unset, false, false, Out)], TEARS);
  }

  lemma AgentRestartsInUserspace()
    ensures var r := Running(Unset, true, true, Out);
            Runs(r, RESTARTS) && After(r, RESTARTS) == r.(agent := Up(InUserspace, Unset))
  {
    var r := Running(Unset, true, true, Out);
    TraceRuns([
      r,
      r.(agent := Off, lock := Free),
      r.(agent := Starting),
      r.(agent := Loaded(Unset)),
      r.(agent := Up(InUserspace, Unset))], RESTARTS);
  }

  /** The race leaves the kernel's resources without a record, and a userspace start goes past the gate. */
  lemma RaceBreaksGate(h: Host)
    requires AtRest(h) && !h.lockFile && !h.rec.Unknown?
    ensures var race := STARTS + TEARS + WRITES;
            Runs(h, race) && Residue(After(h, race)) && !After(h, race).rec.Kernel?
    ensures var run := STARTS + TEARS + WRITES + RESTARTS;
            Runs(h, run) && Residue(After(h, run)) && After(h, run).agent == Up(InUserspace, Unset)
  {
    AgentStartsBesideTeardown(h);
    TeardownClearsBesideAgent(h.link, h.table);
    TraceRuns([Running(Unset, false, false, Out), Running(Unset, true, true, Out)], WRITES);
    AgentRestartsInUserspace();
    RunsJoin(h, STARTS, TEARS);
    RunsJoin(h, STARTS + TEARS, WRITES);
    RunsJoin(h, STARTS + TEARS + WRITES, RESTARTS);
  }

  /**
    Over every sequence of starts, crashes and teardowns from a host at rest, the gate holds exactly
    when the lock file exists or the record is one that neither program touches.
   */
  lemma GateHolds(h: Host)
    requires AtRest(h)
    ensures (forall run | Runs(h, run) :: Safe(After(h, run))) <==> h.lockFile || h.rec.Unknown?
  {
    if h.lockFile || h.rec.Unknown? {
      forall run | Runs(h, run) ensures Safe(After(h, run)) {
        RunStaysSafe(h, run);
      }
    } else {
      RaceBreaksGate(h);
      assert !Safe(After(h, STARTS + TEARS + WRITES));
    }
  }
}
