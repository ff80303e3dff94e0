/**
  The lock with a deadline: a caller that cannot take the mutex at once lets a helper goroutine wait
  for it, and hands a late acquisition to a releaser when its timer fires first. Any number of calls
  run against each other and against code that takes the mutex without a deadline.
 */
module TimedLock {
  import opened Wrappers

  datatype Caller = Idle | Waiting | Holding | Unlocked | GaveUp

  /** The goroutine that takes the mutex and sends on the buffered channel. */
  datatype Helper = NotStarted | Locking | Locked | Sent

  /** The goroutine a caller that gave up starts: it receives and unlocks. */
  datatype Releaser = Unneeded | Receiving | Unlocking | Done

  datatype Call = Call(caller: Caller, helper: Helper, buffered: bool, releaser: Releaser)

  datatype Holder = Nobody | Other | Of(i: nat)

  /** The calls, and who has to unlock the mutex. */
  datatype State = State(calls: seq<Call>, holder: Holder)

  /** What some part of a call does; TryLock takes a free mutex, but may also fail on one. */
  datatype Act = TryLock | TryFails | HelperLocks | HelperSends | Receive | Timeout | LateReceive | LateUnlock | Unlock

  datatype Step = At(i: nat, act: Act) | OtherLocks | OtherUnlocks

  predicate CallEnabled(c: Call, free: bool, a: Act) {
    match a
    case TryLock => c.caller.Idle? && free
    case TryFails => c.caller.Idle?
    case HelperLocks => c.helper.Locking? && free
    case HelperSends => c.helper.Locked? && !c.buffered
    case Receive => c.caller.Waiting? && c.buffered
    case Timeout => c.caller.Waiting?
    case LateReceive => c.releaser.Receiving? && c.buffered
    case LateUnlock => c.releaser.Unlocking?
    case Unlock => c.caller.Holding?
  }

  function NextCall(c: Call, a: Act): Call {
    match a
    case TryLock => c.(caller := Holding)
    case TryFails => c.(caller := Waiting, helper := Locking)
    case HelperLocks => c.(helper := Locked)
    case HelperSends => c.(helper := Sent, buffered := true)
    case Receive => c.(caller := Holding, buffered := false)
    case Timeout => c.(caller := GaveUp, releaser := Receiving)
    case LateReceive => c.(releaser := Unlocking, buffered := false)
    case LateUnlock => c.(releaser := Done)
    case Unlock => c.(caller := Unlocked)
  }

  predicate Acquires(a: Act) {
    a.HelperLocks? || a.TryLock?
  }

  predicate Enabled(s: State, e: Step) {
    match e
    case OtherLocks => s.holder.Nobody?
    case OtherUnlocks => s.holder.Other?
    case At(i, a) => i < |s.calls| && CallEnabled(s.calls[i], s.holder.Nobody?, a)
  }

  function Next(s: State, e: Step): State
    requires Enabled(s, e)
  {
    match e
    case OtherLocks => s.(holder := Other)
    case OtherUnlocks => s.(holder := Nobody)
    case At(i, a) =>
      State(
        s.calls[i := NextCall(s.calls[i], a)],
        if a.LateUnlock? || a.Unlock? then Nobody else if Acquires(a) then Of(i) else s.holder)
  }

  /** n calls that have not begun, the mutex free. */
  function Begin(n: nat): State {
    State(seq(n, _ => Call(Idle, NotStarted, false, Unneeded)), Nobody)
  }

  ghost predicate Runs(s: State, run: seq<Step>, t: State)
    decreases |run|
  {
    if run == [] then s == t
    else Enabled(s, run[0]) && Runs(Next(s, run[0]), run[1..], t)
  }

  // ----- What every reachable state keeps -----

  /** Some part of the call has to unlock the mutex: the caller, the helper, the buffer or the releaser. */
  predicate Owes(c: Call) {
    c.caller.Holding? || c.helper.Locked? || c.buffered || c.releaser.Unlocking?
  }

  /** The parts of a call fit together, and at most one of them owes an unlock. */
  predicate Coherent(c: Call) {
    && c.buffered == (c.helper.Sent? && (c.caller.Waiting? || c.releaser.Receiving?))
    && c.releaser.Unneeded? == !c.caller.GaveUp?
    && match c.caller
       case Idle => c.helper.NotStarted?
       case Waiting => !c.helper.NotStarted?
       case Holding => c.helper.NotStarted? || c.helper.Sent?
       case Unlocked => c.helper.NotStarted? || c.helper.Sent?
       case GaveUp => !c.helper.NotStarted? && (!c.releaser.Receiving? ==> c.helper.Sent?)
  }

  ghost predicate Inv(s: State) {
    && (s.holder.Of? ==> s.holder.i < |s.calls|)
    && forall i | 0 <= i < |s.calls| :: Coherent(s.calls[i]) && (Owes(s.calls[i]) <==> s.holder == Of(i))
  }

  lemma StepKeepsInv(s: State, e: Step)
    requires Inv(s) && Enabled(s, e)
    ensures Inv(Next(s, e))
  {
  }

  lemma {:induction false} RunKeepsInv(s: State, run: seq<Step>, t: State)
    requires Inv(s) && Runs(s, run, t)
    ensures Inv(t)
    decreases |run|
  {
    if run != [] {
      StepKeepsInv(s, run[0]);
      RunKeepsInv(Next(s, run[0]), run[1..], t);
    }
  }

  /** A caller that was told true holds the mutex, and nobody else does or is about to. */
  lemma TrueMeansAlone(n: nat, run: seq<Step>, t: State, i: nat)
    requires Runs(Begin(n), run, t) && i < |t.calls| && t.calls[i].caller.Holding?
    ensures t.holder == Of(i) && !t.calls[i].helper.Locked? && !t.calls[i].buffered && !t.calls[i].releaser.Unlocking?
    ensures forall j | 0 <= j < |t.calls| && j != i :: !Owes(t.calls[j])
  {
    RunKeepsInv(Begin(n), run, t);
  }

  // ----- Every acquisition is released once -----

  /** How often a run takes the mutex for call i, unlocks it by the caller, and unlocks it by the releaser. */
  ghost function Counts(s: State, run: seq<Step>, i: nat): (nat, nat, nat)
    decreases |run|
  {
    if run == [] || !Enabled(s, run[0]) then (0, 0, 0)
    else
      var e, c := run[0], Counts(Next(s, run[0]), run[1..], i);
      ( c.0 + if e.At? && e.i == i && Acquires(e.act) then 1 else 0,
        c.1 + if e == At(i, Unlock) then 1 else 0,
        c.2 + if e == At(i, LateUnlock) then 1 else 0 )
  }

  /** The same counts, read off the state a call is in. */
  function Taken(c: Call): nat {
    var atOnce := (c.caller.Holding? || c.caller.Unlocked?) && c.helper.NotStarted?;
    if c.helper.Locked? || c.helper.Sent? || atOnce then 1 else 0
  }

  function ByCaller(c: Call): nat {
    if c.caller.Unlocked? then 1 else 0
  }

  function ByReleaser(c: Call): nat {
    if c.releaser.Done? then 1 else 0
  }

  lemma {:induction false} CountsOfRun(s: State, run: seq<Step>, t: State, i: nat)
    requires Inv(s) && Runs(s, run, t) && i < |s.calls|
    ensures |t.calls| == |s.calls|
    ensures var c, u, v := Counts(s, run, i), s.calls[i], t.calls[i];
            c == (Taken(v) - Taken(u), ByCaller(v) - ByCaller(u), ByReleaser(v) - ByReleaser(u))
    decreases |run|
  {
    if run != [] {
      StepKeepsInv(s, run[0]);
      CountsOfRun(Next(s, run[0]), run[1..], t, i);
    }
  }

  /**
    In every run: a call takes the mutex at most once; what was taken is unlocked exactly once or still
    owed; and once the caller was told false, the unlock is the releaser's, never the caller's.
   */
  lemma ReleasedExactlyOnce(n: nat, run: seq<Step>, t: State, i: nat)
    requires Runs(Begin(n), run, t) && i < n
    ensures |t.calls| == n
    ensures var (taken, byCaller, byReleaser) := Counts(Begin(n), run, i); var c := t.calls[i];
            && taken <= 1
            && byCaller + byReleaser + (if Owes(c) then 1 else 0) == taken
            && (c.caller.GaveUp? ==> byCaller == 0)
            && (!c.caller.GaveUp? ==> byReleaser == 0)
  {
    CountsOfRun(Begin(n), run, t, i);
    RunKeepsInv(Begin(n), run, t);
  }

  // ----- Nothing is left behind -----

  /** Nothing of the call will run any more. */
  predicate Settled(c: Call) {
    c.caller.Unlocked? || c.releaser.Done?
  }

  /** The most steps a call can still take. */
  function Rank(c: Call): nat {
    match c.caller
    case Idle => 7
    case Holding => 1
    case Unlocked => 0
    case _ =>
      (if c.caller.Waiting? then 2 else 0)
      + (match c.helper case Locking => 2 case Locked => 1 case _ => 0)
      + (match c.releaser case Unneeded => 1 case Receiving => 2 case Unlocking => 1 case Done => 0)
  }

  function Ranks(cs: seq<Call>): nat {
    if cs == [] then 0 else Rank(cs[0]) + Ranks(cs[1..])
  }

  lemma {:induction false} RanksUpdate(cs: seq<Call>, i: nat, c: Call)
    requires i < |cs|
    ensures Ranks(cs[i := c]) == Ranks(cs) - Rank(cs[i]) + Rank(c)
  {
    if i > 0 {
      RanksUpdate(cs[1..], i - 1, c);
      assert cs[i := c][1..] == cs[1..][i - 1 := c];
    } else {
      assert cs[i := c][1..] == cs[1..];
    }
  }

  /** Every step of a call uses up some of the steps left, so no call runs forever. */
  lemma CallStepsDecrease(s: State, e: Step)
    requires Inv(s) && Enabled(s, e) && e.At?
    ensures Ranks(Next(s, e).calls) < Ranks(s.calls)
  {
    var c := s.calls[e.i];
    RanksUpdate(s.calls, e.i, NextCall(c, e.act));
    assert Coherent(c);
  }

  /**
    While a call is not settled some call can step, unless code without a deadline holds the mutex
    and will unlock it.
   */
  lemma NoDeadlock(n: nat, run: seq<Step>, t: State, i: nat)
    requires Runs(Begin(n), run, t) && i < |t.calls| && !Settled(t.calls[i])
    ensures exists e :: Enabled(t, e) && (e.At? || e.OtherUnlocks?)
  {
    RunKeepsInv(Begin(n), run, t);
    match t.holder
    case Other => assert Enabled(t, OtherUnlocks);
    case Nobody => CanStep(t, i);
    case Of(j) => CanStep(t, j);
  }

  lemma CanStep(s: State, i: nat)
    requires Inv(s) && i < |s.calls| && !Settled(s.calls[i]) && (s.holder.Nobody? || Owes(s.calls[i]))
    ensures exists e :: Enabled(s, e) && e.At?
  {
    var c := s.calls[i];
    assert Coherent(c);
    match c.caller
    case Idle => assert Enabled(s, At(i, TryFails));
    case Waiting => assert Enabled(s, At(i, Timeout));
    case Holding => assert Enabled(s, At(i, Unlock));
    case Unlocked =>
    case GaveUp =>
      match c.releaser
      case Receiving =>
        if c.buffered {
          assert Enabled(s, At(i, LateReceive));
        } else if c.helper.Locked? {
          assert Enabled(s, At(i, HelperSends));
        } else {
          assert Enabled(s, At(i, HelperLocks));
        }
      case Unlocking => assert Enabled(s, At(i, LateUnlock));
      case _ =>
  }

  /** What is left of a waiting call whose helper has the mutex, when the timer does not fire first. */
  function Handover(i: nat, c: Call): seq<Step> {
    (if c.helper.Locked? then [At(i, HelperSends)] else []) + [At(i, Receive)]
  }

  /** A waiting caller whose helper has the mutex is told true by the handover, and then holds it alone. */
  lemma HandoverHolds(n: nat, run: seq<Step>, t: State, i: nat)
    requires Runs(Begin(n), run, t) && i < |t.calls| && t.calls[i].caller.Waiting? && t.holder == Of(i)
    ensures exists s :: Runs(t, Handover(i, t.calls[i]), s) && |s.calls| == |t.calls| && s.calls[i].caller.Holding?
                        && s.holder == Of(i)
  {
    RunKeepsInv(Begin(n), run, t);
    assert Coherent(t.calls[i]) && Owes(t.calls[i]);
    var more := Handover(i, t.calls[i]);
    if t.calls[i].helper.Locked? {
      var sent := Next(t, At(i, HelperSends));
      var s := Next(sent, At(i, Receive));
      assert more[1..] == [At(i, Receive)] && more[1..][1..] == [];
      assert Runs(s, [], s) && Runs(sent, more[1..], s) && Runs(t, more, s);
    } else {
      var s := Next(t, At(i, Receive));
      assert more[1..] == [];
      assert Runs(s, [], s) && Runs(t, more, s);
    }
  }

  /** A waiting call can do nothing but time out if and only if its helper waits for a mutex that is taken. */
  lemma WaitsOnlyForMutex(n: nat, run: seq<Step>, t: State, i: nat)
    requires Runs(Begin(n), run, t) && i < |t.calls| && t.calls[i].caller.Waiting?
    ensures (forall a: Act | !a.Timeout? :: !Enabled(t, At(i, a))) <==> t.calls[i].helper.Locking? && !t.holder.Nobody?
  {
    RunKeepsInv(Begin(n), run, t);
    assert Coherent(t.calls[i]);
    match t.calls[i].helper
    case Locking => if t.holder.Nobody? { assert Enabled(t, At(i, HelperLocks)); }
    case Locked => assert Enabled(t, At(i, HelperSends));
    case Sent => assert Enabled(t, At(i, Receive));
    case NotStarted =>
  }

  /** When all calls are settled, none of them has left the mutex locked. */
  lemma NothingLeaks(n: nat, run: seq<Step>, t: State)
    requires Runs(Begin(n), run, t) && forall i | 0 <= i < |t.calls| :: Settled(t.calls[i])
    ensures !t.holder.Of?
  {
    RunKeepsInv(Begin(n), run, t);
  }
}
