/**
  The stream's reconnect loop: how long it waits after each attempt, and what it publishes about the
  wait. Durations are int64 nanoseconds, and doubling one wraps.
 */
module Reconnect {
  import opened Wrappers

  const SECOND: int := 1_000_000_000
  const INT64_END: int := 0x8000_0000_0000_0000
  const DEFAULT_MIN := SECOND
  const DEFAULT_MAX := 300 * SECOND
  const DEFAULT_FRESH_MAX := 10 * SECOND
  const FRESH_FOR := 180 * SECOND

  type Duration = x: int | -INT64_END <= x < INT64_END

  /** The configured limits, and the ones the loop uses. */
  datatype Limits = Limits(min: Duration, max: Duration, freshMax: Duration)

  function Effective(c: Limits): (e: Limits)
    ensures 0 < e.min <= e.max && 0 < e.freshMax
    ensures 0 < c.min <= c.max && 0 < c.freshMax ==> e == c
    ensures c.min <= 0 ==> e.min == SECOND
    ensures c.max < e.min ==> e.max == Max(300 * SECOND, e.min)
    ensures c.freshMax <= 0 ==> e.freshMax == 10 * SECOND
  {
    var min := if c.min <= 0 then DEFAULT_MIN else c.min;
    Limits(
      min,
      if c.max < min then Max(DEFAULT_MAX, min) else c.max,
      if c.freshMax <= 0 then DEFAULT_FRESH_MAX else c.freshMax)
  }

  /** The last handshake the tunnel's check read, and when it first read it. */
  datatype Seen = Seen(handshake: int, observedAt: int)

  predicate Fresh(seen: Option<Seen>, now: int) {
    seen.Some? && seen.value.handshake != 0
    && now - seen.value.observedAt < FRESH_FOR && now - seen.value.handshake < FRESH_FOR
  }

  /** How an attempt failed: a refusal that a retry does not mend, or anything else. */
  datatype Failure =
    | Unauthorized | PinMismatch | ServerVersion | Superseded | Revoked
    | ProtocolMismatch | PolicyViolation | OtherFailure

  predicate CapsWhileFresh(f: Failure) {
    f.OtherFailure?
  }

  datatype WaitEnd = Cancelled | Handshake | Elapsed

  /** One turn of the loop: how the attempt went, and, if the loop then waits, when and until what. */
  datatype Turn = Turn(
    cancelled: bool, reconnectNow: bool, longLived: bool, failure: Failure, seen: Option<Seen>, checkedAt: int,
    hasJoin: bool, recovers: bool, waitsAt: int, end: WaitEnd)

  /** The turn ends the loop before a wait. */
  predicate Ends(t: Turn) {
    t.cancelled || (!t.reconnectNow && t.failure.Unauthorized? && !t.recovers)
  }

  /** The turn tries again at once. */
  predicate TriesAgain(t: Turn) {
    t.reconnectNow || t.failure.Unauthorized? || (t.failure.PinMismatch? && t.hasJoin && t.recovers)
  }

  predicate Capped(t: Turn) {
    CapsWhileFresh(t.failure) && Fresh(t.seen, t.checkedAt)
  }

  /** The wait of a turn entered with backoff b. */
  function WaitOf(e: Limits, b: Duration, t: Turn): Duration {
    var b' := if t.longLived then e.min else b;
    if b' > e.freshMax && Capped(t) then e.freshMax else b'
  }

  /** Go's b *= 2 on an int64. */
  function Twice(b: Duration): Duration {
    if 2 * b >= INT64_END then 2 * b - 2 * INT64_END
    else if 2 * b < -INT64_END then 2 * b + 2 * INT64_END
    else 2 * b
  }

  function AfterWait(e: Limits, b: Duration, end: WaitEnd): Duration {
    if end.Handshake? then e.min else if Twice(b) > e.max then e.max else Twice(b)
  }

  /** A wait, as the loop waited it and as it published it. */
  datatype Wait = Wait(at: int, waited: Duration, backoff: Duration, retryAt: Option<int>)

  /** The waits of a run of the loop from backoff b on. */
  function Waits(e: Limits, b: Duration, ts: seq<Turn>): seq<Wait>
    decreases |ts|
  {
    if ts == [] || Ends(ts[0]) then []
    else if TriesAgain(ts[0]) then Waits(e, e.min, ts[1..])
    else
      var w := WaitOf(e, b, ts[0]);
      [Wait(ts[0].waitsAt, w, w, Some(ts[0].waitsAt + w))]
      + if ts[0].end.Cancelled? then [] else Waits(e, AfterWait(e, w, ts[0].end), ts[1..])
  }

  // ----- The loop -----

  /** What the loop publishes about its waits. */
  class StreamObs {
    var backoff: Duration
    var retryAt: Option<int>

    constructor ()
      ensures retryAt.None?
    {
      backoff, retryAt := 0, None;
    }

    method NoteAttempt()
      modifies this
      ensures retryAt.None? && backoff == old(backoff)
    {
      retryAt := None;
    }

    method NoteWaiting(now: int, wait: Duration)
      modifies this
      ensures backoff == wait && retryAt == Some(now + wait)
    {
      backoff, retryAt := wait, Some(now + wait);
    }
  }

  lemma Joined(ws: seq<Wait>, w: Wait, rest: seq<Wait>)
    ensures ws + [w] + rest == ws + ([w] + rest)
  {
  }

  /** streamLoop over the turns ts: the waits it enters, each with what it published meanwhile. */
  method StreamLoop(c: Limits, ts: seq<Turn>, obs: StreamObs) returns (waits: seq<Wait>)
    modifies obs
    ensures waits == Waits(Effective(c), Effective(c).min, ts)
  {
    var e := Effective(c);
    var backoff: Duration := e.min;
    waits := [];
    assert ts[0..] == ts;
    for i := 0 to |ts|
      invariant waits + Waits(e, backoff, ts[i..]) == Waits(e, e.min, ts)
    {
      var t := ts[i];
      assert ts[i..][1..] == ts[i + 1..];
      obs.NoteAttempt();
      if t.cancelled {
        return;
      }
      if t.reconnectNow {
        backoff := e.min;
        continue;
      }
      if t.longLived {
        backoff := e.min;
      }
      if backoff > e.freshMax && CapsWhileFresh(t.failure) && Fresh(t.seen, t.checkedAt) {
        backoff := e.freshMax;
      }
      if t.failure.Unauthorized? {
        if !t.recovers {
          return;
        }
        backoff := e.min;
        continue;
      }
      if t.failure.PinMismatch? && t.hasJoin && t.recovers {
        backoff := e.min;
        continue;
      }
      obs.NoteWaiting(t.waitsAt, backoff);
      var w := Wait(t.waitsAt, backoff, obs.backoff, obs.retryAt);
      Joined(waits, w, if t.end.Cancelled? then [] else Waits(e, AfterWait(e, backoff, t.end), ts[i + 1..]));
      waits := waits + [w];
      if t.end.Cancelled? {
        return;
      }
      backoff := AfterWait(e, backoff, t.end);
    }
    assert ts[|ts|..] == [];
  }

  // ----- How long the waits are -----

  predicate InRange(e: Limits, b: Duration) {
    Min(e.min, e.freshMax) <= b <= e.max
  }

  lemma {:induction false} WaitsStayInRange(e: Limits, b: Duration, ts: seq<Turn>)
    requires 0 < e.min <= e.max < INT64_END / 2 && 0 < e.freshMax && InRange(e, b)
    ensures forall i | 0 <= i < |Waits(e, b, ts)| :: InRange(e, Waits(e, b, ts)[i].waited)
    decreases |ts|
  {
    if ts != [] && !Ends(ts[0]) {
      if TriesAgain(ts[0]) {
        WaitsStayInRange(e, e.min, ts[1..]);
      } else {
        var w := WaitOf(e, b, ts[0]);
        WaitsStayInRange(e, AfterWait(e, w, ts[0].end), ts[1..]);
      }
    }
  }

  /** A turn that fails in an ordinary way with no fresh handshake, and waits to the end. */
  const PLAIN := Turn(false, false, false, OtherFailure, None, 0, false, false, 0, Elapsed)

  /** With a limit of 2^62 or more the doubling wraps, and a wait is negative. */
  lemma {:induction false} DoublingWraps(e: Limits, b: Duration) returns (ts: seq<Turn>)
    requires 0 < b <= e.max && INT64_END / 2 <= e.max
    ensures exists i | 0 <= i < |Waits(e, b, ts)| :: Waits(e, b, ts)[i].waited < 0
    decreases INT64_END - b
  {
    if INT64_END / 2 <= b {
      ts := [PLAIN, PLAIN];
      assert ts[1..] == [PLAIN];
      assert |Waits(e, Twice(b), [PLAIN])| == 1;
      assert Waits(e, b, ts)[1].waited == Twice(b);
    } else {
      var more := DoublingWraps(e, AfterWait(e, b, Elapsed));
      ts := [PLAIN] + more;
      assert ts[1..] == more;
      var rest := Waits(e, AfterWait(e, b, Elapsed), more);
      var i :| 0 <= i < |rest| && rest[i].waited < 0;
      assert Waits(e, b, ts)[i + 1].waited < 0;
    }
  }

  /**
    Every wait lies between min(backoffMin, freshMax) and backoffMax, for every sequence of outcomes,
    exactly when backoffMax is below 2^62 nanoseconds.
   */
  lemma WaitRange(c: Limits)
    ensures var e := Effective(c);
            (forall ts, i | 0 <= i < |Waits(e, e.min, ts)| :: InRange(e, Waits(e, e.min, ts)[i].waited))
            <==> e.max < INT64_END / 2
  {
    var e := Effective(c);
    if e.max < INT64_END / 2 {
      forall ts, i | 0 <= i < |Waits(e, e.min, ts)| ensures InRange(e, Waits(e, e.min, ts)[i].waited) {
        WaitsStayInRange(e, e.min, ts);
      }
    } else {
      var ts := DoublingWraps(e, e.min);
    }
  }

  /** The turns of a run that wait, in order. */
  function Waiting(ts: seq<Turn>): seq<Turn>
    decreases |ts|
  {
    if ts == [] || Ends(ts[0]) then []
    else if TriesAgain(ts[0]) then Waiting(ts[1..])
    else [ts[0]] + if ts[0].end.Cancelled? then [] else Waiting(ts[1..])
  }

  /**
    Wait by wait: what is published is the entry time plus the wait, and a failure of the capped kind
    with a fresh handshake waits no longer than freshMax.
   */
  lemma {:induction false} EachWait(e: Limits, b: Duration, ts: seq<Turn>, i: nat)
    requires i < |Waits(e, b, ts)|
    ensures |Waiting(ts)| == |Waits(e, b, ts)|
    ensures var w, t := Waits(e, b, ts)[i], Waiting(ts)[i];
            && w.at == t.waitsAt && w.backoff == w.waited && w.retryAt == Some(w.at + w.waited)
            && (Capped(t) ==> w.waited <= e.freshMax)
    decreases |ts|
  {
    if TriesAgain(ts[0]) {
      EachWait(e, e.min, ts[1..], i);
    } else {
      var b' := AfterWait(e, WaitOf(e, b, ts[0]), ts[0].end);
      if i > 0 {
        EachWait(e, b', ts[1..], i - 1);
      } else if !ts[0].end.Cancelled? {
        AsManyWaits(e, b', ts[1..]);
      }
    }
  }

  lemma {:induction false} AsManyWaits(e: Limits, b: Duration, ts: seq<Turn>)
    ensures |Waiting(ts)| == |Waits(e, b, ts)|
    decreases |ts|
  {
    if ts != [] && !Ends(ts[0]) {
      if TriesAgain(ts[0]) {
        AsManyWaits(e, e.min, ts[1..]);
      } else {
        AsManyWaits(e, AfterWait(e, WaitOf(e, b, ts[0]), ts[0].end), ts[1..]);
      }
    }
  }

  // ----- Exactly how long each wait is -----

  /** The loop gets as far as turn i. */
  predicate Reached(ts: seq<Turn>, i: nat)
    requires i < |ts|
  {
    forall j | 0 <= j < i :: !Ends(ts[j]) && (TriesAgain(ts[j]) || !ts[j].end.Cancelled?)
  }

  /** The loop waits in turn i. */
  predicate WaitsIn(ts: seq<Turn>, i: nat)
    requires i < |ts|
  {
    Reached(ts, i) && !Ends(ts[i]) && !TriesAgain(ts[i])
  }

  /** How many turns before i wait. */
  function WaitsBefore(ts: seq<Turn>, i: nat): nat
    requires i <= |ts|
  {
    if i == 0 then 0 else WaitsBefore(ts, i - 1) + if TriesAgain(ts[i - 1]) then 0 else 1
  }

  /** The backoff is back at its lower limit when turn i fails. */
  predicate ResetAt(ts: seq<Turn>, i: nat)
    requires i < |ts|
  {
    i == 0 || ts[i].longLived ||
    var t := ts[i - 1];
    || t.reconnectNow || t.end.Handshake?
    || (t.recovers && (t.failure.Unauthorized? || (t.failure.PinMismatch? && t.hasJoin)))
  }

  /** The last such turn up to i. */
  function LastReset(ts: seq<Turn>, i: nat): (r: nat)
    requires i < |ts|
    ensures r <= i && ResetAt(ts, r) && forall j | r < j <= i :: !ResetAt(ts, j)
  {
    if ResetAt(ts, i) then i else LastReset(ts, i - 1)
  }

  /** Turn j fails other than by a refusal, and a handshake was made and first seen less than three minutes before. */
  predicate CapAt(ts: seq<Turn>, j: nat)
    requires j < |ts|
  {
    && ts[j].failure.OtherFailure? && ts[j].seen.Some? && ts[j].seen.value.handshake != 0
    && ts[j].checkedAt < ts[j].seen.value.observedAt + 180 * SECOND
    && ts[j].checkedAt < ts[j].seen.value.handshake + 180 * SECOND
  }

  /** w is the least of max, min doubled per turn since the last reset, and freshMax doubled per turn since each cap. */
  predicate Exactly(e: Limits, ts: seq<Turn>, i: nat, w: int)
    requires i < |ts|
  {
    var r := LastReset(ts, i);
    && w <= e.max && w <= Pow2(i - r) * e.min
    && (forall j | r <= j <= i && CapAt(ts, j) :: w <= Pow2(i - j) * e.freshMax)
    && (w == e.max || w == Pow2(i - r) * e.min
        || exists j :: r <= j <= i && CapAt(ts, j) && w == Pow2(i - j) * e.freshMax)
  }

  /** The backoff with which a run from backoff b on enters turn i. */
  function Entry(e: Limits, b: Duration, ts: seq<Turn>, i: nat): Duration
    requires i < |ts|
  {
    if i == 0 then b
    else
      var t := ts[i - 1];
      if TriesAgain(t) then e.min else AfterWait(e, WaitOf(e, Entry(e, b, ts, i - 1), t), t.end)
  }

  lemma {:induction false} EntryOfTail(e: Limits, b: Duration, ts: seq<Turn>, i: nat)
    requires 0 < i < |ts|
    ensures Entry(e, b, ts, i) == Entry(e, Entry(e, b, ts, 1), ts[1..], i - 1)
    ensures WaitsBefore(ts, i) == WaitsBefore(ts, 1) + WaitsBefore(ts[1..], i - 1)
  {
    hide AfterWait, WaitOf, TriesAgain;
    if i > 1 {
      EntryOfTail(e, b, ts, i - 1);
    }
  }

  lemma {:induction false} WaitOfTurn(e: Limits, b: Duration, ts: seq<Turn>, i: nat)
    requires i < |ts| && WaitsIn(ts, i)
    ensures var n, ws := WaitsBefore(ts, i), Waits(e, b, ts);
            n < |ws| && ws[n].waited == WaitOf(e, Entry(e, b, ts, i), ts[i]) && ws[n].at == ts[i].waitsAt
    decreases |ts|
  {
    hide AfterWait, WaitOf, TriesAgain, Ends;
    if i > 0 {
      var t, rest := ts[0], ts[1..];
      assert !Ends(t) && (TriesAgain(t) || !t.end.Cancelled?);
      forall j | 0 <= j < i - 1 ensures !Ends(rest[j]) && (TriesAgain(rest[j]) || !rest[j].end.Cancelled?) {
        assert rest[j] == ts[j + 1];
      }
      EntryOfTail(e, b, ts, i);
      WaitOfTurn(e, Entry(e, b, ts, 1), rest, i - 1);
    }
  }

  lemma CapIs(e: Limits, b: Duration, ts: seq<Turn>, i: nat)
    requires i < |ts|
    ensures WaitOf(e, b, ts[i]) ==
            var v := if ts[i].longLived then e.min else b; if CapAt(ts, i) then Min(v, e.freshMax) else v
  {
  }

  lemma DoubledIs(e: Limits, b: Duration, end: WaitEnd)
    requires 0 < b <= e.max < INT64_END / 2
    ensures AfterWait(e, b, end) == if end.Handshake? then e.min else Min(2 * b, e.max)
  {
  }

  /** The turns before i reset the backoff as the waits and retries of the loop do. */
  lemma EntryStep(e: Limits, ts: seq<Turn>, i: nat)
    requires 0 < e.min <= e.max < INT64_END / 2 && 0 < e.freshMax
    requires i < |ts| && Reached(ts, i)
    ensures var b := WaitOf(e, Entry(e, e.min, ts, i), ts[i]);
            var v := if ResetAt(ts, i) then e.min else Min(2 * WaitOf(e, Entry(e, e.min, ts, i - 1), ts[i - 1]), e.max);
            b == if CapAt(ts, i) then Min(v, e.freshMax) else v
    decreases i
  {
    hide WaitOf, AfterWait, CapAt;
    CapIs(e, Entry(e, e.min, ts, i), ts, i);
    if i > 0 {
      var b := WaitOf(e, Entry(e, e.min, ts, i - 1), ts[i - 1]);
      EntryRange(e, ts, i - 1);
      DoubledIs(e, b, ts[i - 1].end);
      assert !Ends(ts[i - 1]);
    }
  }

  lemma {:induction false} EntryRange(e: Limits, ts: seq<Turn>, i: nat)
    requires 0 < e.min <= e.max < INT64_END / 2 && 0 < e.freshMax && i < |ts|
    ensures 0 < Entry(e, e.min, ts, i) <= e.max && 0 < WaitOf(e, Entry(e, e.min, ts, i), ts[i]) <= e.max
  {
    if i > 0 {
      EntryRange(e, ts, i - 1);
    }
  }

  lemma DoubledBound(x: int, n: nat, y: int)
    ensures x <= Pow2(n) * y ==> 2 * x <= Pow2(n + 1) * y
    ensures x == Pow2(n) * y ==> 2 * x == Pow2(n + 1) * y
  {
    assert Pow2(n + 1) * y == 2 * (Pow2(n) * y);
  }

  lemma ExactStep(e: Limits, ts: seq<Turn>, i: nat, w: int, w': int)
    requires 0 < e.min <= e.max && i + 1 < |ts| && !ResetAt(ts, i + 1) && Exactly(e, ts, i, w) && w > 0
    requires w' == if CapAt(ts, i + 1) then Min(Min(2 * w, e.max), e.freshMax) else Min(2 * w, e.max)
    ensures Exactly(e, ts, i + 1, w')
  {
    hide CapAt, Pow2;
    var r := LastReset(ts, i);
    assert LastReset(ts, i + 1) == r;
    DoubledBound(w, i - r, e.min);
    assert Pow2(0) * e.freshMax == e.freshMax by { PowZero(e.freshMax); }
    forall j | r <= j <= i + 1 && CapAt(ts, j) ensures w' <= Pow2(i + 1 - j) * e.freshMax {
      if j <= i {
        DoubledBound(w, i - j, e.freshMax);
      }
    }
    if w' == 2 * w && w != e.max && w != Pow2(i - r) * e.min {
      var j :| r <= j <= i && CapAt(ts, j) && w == Pow2(i - j) * e.freshMax;
      DoubledBound(w, i - j, e.freshMax);
      assert w' == Pow2(i + 1 - j) * e.freshMax;
    }
  }

  lemma PowZero(x: int)
    ensures Pow2(0) * x == x
  {
  }

  lemma {:induction false} EntryIsExact(e: Limits, ts: seq<Turn>, i: nat)
    requires 0 < e.min <= e.max < INT64_END / 2 && 0 < e.freshMax
    requires i < |ts| && Reached(ts, i)
    ensures Exactly(e, ts, i, WaitOf(e, Entry(e, e.min, ts, i), ts[i]))
    decreases i
  {
    hide WaitOf, Entry, CapAt, Exactly;
    EntryStep(e, ts, i);
    EntryRange(e, ts, i);
    if ResetAt(ts, i) {
      ExactReset(e, ts, i, WaitOf(e, Entry(e, e.min, ts, i), ts[i]));
    } else {
      EntryIsExact(e, ts, i - 1);
      EntryRange(e, ts, i - 1);
      var w := WaitOf(e, Entry(e, e.min, ts, i - 1), ts[i - 1]);
      ExactStep(e, ts, i - 1, w, WaitOf(e, Entry(e, e.min, ts, i), ts[i]));
    }
  }

  lemma ExactReset(e: Limits, ts: seq<Turn>, i: nat, w: int)
    requires e.min <= e.max && i < |ts| && ResetAt(ts, i) && w == if CapAt(ts, i) then Min(e.min, e.freshMax) else e.min
    ensures Exactly(e, ts, i, w)
  {
    hide CapAt, Pow2;
    PowZero(e.min);
    PowZero(e.freshMax);
  }

  /** Every wait of a run is the wait of some turn. */
  lemma {:induction false} TurnOfWait(e: Limits, b: Duration, ts: seq<Turn>, n: nat) returns (i: nat)
    requires n < |Waits(e, b, ts)|
    ensures i < |ts| && WaitsIn(ts, i) && WaitsBefore(ts, i) == n
    decreases |ts|
  {
    hide AfterWait, WaitOf, TriesAgain, Ends;
    var t, rest := ts[0], ts[1..];
    if !TriesAgain(t) && n == 0 {
      return 0;
    }
    var b' := if TriesAgain(t) then e.min else AfterWait(e, WaitOf(e, b, t), t.end);
    var j := TurnOfWait(e, b', rest, if TriesAgain(t) then n else n - 1);
    i := j + 1;
    forall k | 0 <= k < i ensures !Ends(ts[k]) && (TriesAgain(ts[k]) || !ts[k].end.Cancelled?) {
      if k > 0 {
        assert ts[k] == rest[k - 1];
      }
    }
    EntryOfTail(e, b, ts, i);
  }

  /**
    With a limit below 2^62 ns, for every sequence of outcomes: the wait in turn i is the least of backoffMax,
    backoffMin doubled for each wait since the backoff was last reset, and freshMax doubled for each wait since
    every cap after that.
   */
  lemma WaitIsExact(c: Limits, ts: seq<Turn>, i: nat)
    requires Effective(c).max < INT64_END / 2 && i < |ts| && WaitsIn(ts, i)
    ensures var e, n := Effective(c), WaitsBefore(ts, i);
            n < |Waits(e, e.min, ts)| && Exactly(e, ts, i, Waits(e, e.min, ts)[n].waited)
  {
    hide Waits, WaitOf, Entry, Exactly;
    var e := Effective(c);
    WaitOfTurn(e, e.min, ts, i);
    EntryIsExact(e, ts, i);
  }
}
