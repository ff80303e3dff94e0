/** Splitting a rule's port range in two, and merging two adjacent rules into one. */
module SplitMerge {
  import opened Wrappers
  import opened Decimal
  import opened RuleTypes
  import opened Targets
  import opened Rules
  import opened RuleSets

  datatype SplitErr = NotOnePort | OutsideRange | ProxyPiece

  /** Split: the ports before at keep the ID, those from at on get tailID and the target of their first port. */
  function Split(u: Tables, r: Rule, at: PortRange, tailID: string): Result<(Rule, Rule), SplitErr> {
    if at.lo != at.hi then Err(NotOnePort)
    else if at.lo <= r.listenPort.lo || at.lo > r.listenPort.hi then Err(OutsideRange)
    else
      var head := r.(listenPort := PortRange(r.listenPort.lo, at.lo - 1));
      var tail := r.(id := tailID, listenPort := PortRange(at.lo, r.listenPort.hi));
      if r.mode == PROXY && (head.listenPort.IsRange() || tail.listenPort.IsRange()) then Err(ProxyPiece)
      else Ok((head, tail.(target := Text(EffectiveTarget(u, ForAgent(r), at.lo)))))
  }

  /** Why two rules cannot be merged. */
  datatype Blocker =
    | Agents | Protos | Modes | NotAdjacent | TargetGap | ProxyRanges | DenyLists | AllowLists | Rates | EnabledFlags

  function Lower(a: Rule, b: Rule): Rule {
    if a.listenPort.lo > b.listenPort.lo then b else a
  }

  function Higher(a: Rule, b: Rule): Rule {
    if a.listenPort.lo > b.listenPort.lo then a else b
  }

  /** Go's p + 1 on a uint16. */
  function Next16(p: uint16): uint16 {
    (p + 1) % 0x1_0000
  }

  predicate TargetsMeet(u: Tables, lo: Rule, hi: Rule) {
    var eff := EffectiveTarget(u, ForAgent(lo), lo.listenPort.hi);
    eff.Some? && eff.value != "" && NextPort(eff.value) == hi.target
  }

  /** FindMergeBlocker: the first reason, if any; the lower rule's last target has to lead to the higher's. */
  function FindMergeBlocker(u: Tables, a: Rule, b: Rule): Option<Blocker> {
    var lo, hi := Lower(a, b), Higher(a, b);
    if lo.agent != hi.agent then Some(Agents)
    else if lo.proto != hi.proto then Some(Protos)
    else if lo.mode != hi.mode then Some(Modes)
    else if Next16(lo.listenPort.hi) != hi.listenPort.lo then Some(NotAdjacent)
    else if !TargetsMeet(u, lo, hi) then Some(TargetGap)
    else if lo.mode == PROXY then Some(ProxyRanges)
    else if Elements(lo.deny) != Elements(hi.deny) then Some(DenyLists)
    else if Elements(lo.allow) != Elements(hi.allow) then Some(AllowLists)
    else if lo.newFlowRate != hi.newFlowRate || lo.packetRate != hi.packetRate || lo.perSourceRate != hi.perSourceRate
    then Some(Rates)
    else if lo.enabled != hi.enabled then Some(EnabledFlags)
    else None
  }

  function Merge(u: Tables, self: Rule, other: Rule): Result<Rule, Blocker> {
    match FindMergeBlocker(u, self, other)
    case Some(b) => Err(b)
    case None =>
      var lo, hi := Lower(self, other), Higher(self, other);
      Ok(self.(listenPort := PortRange(lo.listenPort.lo, hi.listenPort.hi), target := lo.target))
  }

  /**
    A rule splits if and only if the point is one port past its first, and both pieces of a proxy are single
    ports; the pieces have its other fields and between them its ports.
   */
  lemma SplitsIff(u: Tables, r: Rule, at: PortRange, id: string)
    ensures Split(u, r, at, id).Ok? <==>
            && at.lo == at.hi && r.listenPort.lo < at.lo <= r.listenPort.hi
            && (r.mode == "proxy" ==> r.listenPort.hi == r.listenPort.lo + 1)
    ensures Split(u, r, at, id).Ok? ==>
              var (head, tail) := Split(u, r, at, id).value;
              && head == r.(listenPort := PortRange(r.listenPort.lo, at.lo - 1))
              && tail == r.(id := id, listenPort := PortRange(at.lo, r.listenPort.hi), target := tail.target)
    ensures Split(u, r, at, id) == Err(NotOnePort) <==> at.lo != at.hi
    ensures Split(u, r, at, id) == Err(OutsideRange) <==>
            at.lo == at.hi && !(r.listenPort.lo < at.lo <= r.listenPort.hi)
  {
    hide EffectiveTarget;
  }

  // ----- Effective targets -----

  lemma TailTarget(u: Tables, r: Rule, at: uint16, tail: Rule, p: uint16)
    requires r.listenPort.lo < at <= r.listenPort.hi
    requires tail.listenPort == PortRange(at, r.listenPort.hi)
    requires tail.target == Text(EffectiveTarget(u, ForAgent(r), at))
    requires at <= p <= r.listenPort.hi
    ensures EffectiveTarget(u, ForAgent(tail), p) == EffectiveTarget(u, ForAgent(r), p)
  {
    hide TargetAt;
    TargetAtShift(u, r.target, at - r.listenPort.lo, p - at);
  }

  /** A rule does with each of its ports what the piece with that port does. */
  lemma PiecesForward(u: Tables, r: Rule, at: PortRange, id: string, proto: string, p: uint16)
    requires Split(u, r, at, id).Ok?
    ensures var (head, tail) := Split(u, r, at, id).value;
            && (Takes(r, proto, p) <==> Takes(head, proto, p) || Takes(tail, proto, p))
            && !(Takes(head, proto, p) && Takes(tail, proto, p))
            && (Takes(head, proto, p) ==> ForwardOf(u, head, p) == ForwardOf(u, r, p))
            && (Takes(tail, proto, p) ==> ForwardOf(u, tail, p) == ForwardOf(u, r, p))
  {
    hide TargetAt;
    var (head, tail) := Split(u, r, at, id).value;
    if Takes(tail, proto, p) {
      TailTarget(u, r, at.lo, tail, p);
    }
  }

  /** Replacing a rule by its pieces changes nothing about any port, whatever the other rules are. */
  lemma SplitKeepsForwards(u: Tables, rules: seq<Rule>, i: nat, at: PortRange, id: string, proto: string, p: uint16)
    requires i < |rules| && Split(u, rules[i], at, id).Ok?
    ensures var (head, tail) := Split(u, rules[i], at, id).value;
            Forwards(u, rules[i := head] + [tail], proto, p) == Forwards(u, rules, proto, p)
  {
    var (head, tail) := Split(u, rules[i], at, id).value;
    var after := rules[i := head] + [tail];
    PiecesForward(u, rules[i], at, id, proto, p);
    forall f | f in Forwards(u, rules, proto, p) ensures f in Forwards(u, after, proto, p) {
      var k :| 0 <= k < |rules| && Takes(rules[k], proto, p) && ForwardOf(u, rules[k], p) == f;
      assert after[k] in after && after[|rules|] in after;
    }
    forall f | f in Forwards(u, after, proto, p) ensures f in Forwards(u, rules, proto, p) {
      var k :| 0 <= k < |after| && Takes(after[k], proto, p) && ForwardOf(u, after[k], p) == f;
      assert rules[i] in rules;
      assert k < |rules| && k != i ==> after[k] == rules[k];
    }
  }

  // ----- Merging keeps every port -----

  /** The order ParsePortRange gives every range. */
  predicate Ordered(range: PortRange) {
    range.lo <= range.hi
  }

  /** Rules that merge are adjacent without a wrap: from port 65535 no target leads on to a range at 0. */
  lemma MergedAreAdjacent(u: Tables, a: Rule, b: Rule)
    requires Merge(u, a, b).Ok?
    ensures Lower(a, b).listenPort.hi + 1 == Higher(a, b).listenPort.lo
  {
    hide SplitTarget, JoinHostPort, Itoa, NextPort, Elements;
    var lo := Lower(a, b);
    assert TargetsMeet(u, lo, Higher(a, b));
    PortIsPositive(u, lo.target);
  }

  /** Where the targets of two rules meet, the higher rule's ports go where the lower rule's would lead. */
  lemma MeetingTargets(u: Tables, lo: Rule, hi: Rule, off: nat)
    requires Ordered(lo.listenPort) && TargetsMeet(u, lo, hi)
    ensures TargetAt(u, hi.target, off) == TargetAt(u, lo.target, lo.listenPort.Len() + off)
  {
    hide SplitHostPort, JoinHostPort, Itoa, NextPort;
    var (host, port) := SplitTarget(u, lo.target).value;
    var n := port + lo.listenPort.Len() - 1;
    NextOfJoined(host, n);
    TargetOfJoined(u, lo.target, n + 1);
  }

  lemma MergedForwards(u: Tables, self: Rule, other: Rule, proto: string, p: uint16)
    requires Ordered(self.listenPort) && Ordered(other.listenPort) && Merge(u, self, other).Ok?
    ensures var m := Merge(u, self, other).value;
            && (Takes(m, proto, p) <==> Takes(self, proto, p) || Takes(other, proto, p))
            && (Takes(self, proto, p) ==> ForwardOf(u, self, p) == ForwardOf(u, m, p))
            && (Takes(other, proto, p) ==> ForwardOf(u, other, p) == ForwardOf(u, m, p))
  {
    hide TargetAt, TargetsMeet;
    MergedAreAdjacent(u, self, other);
    var lo, hi := Lower(self, other), Higher(self, other);
    if Takes(hi, proto, p) {
      MeetingTargets(u, lo, hi, p - hi.listenPort.lo);
    }
  }

  function Without<T>(s: seq<T>, j: nat): seq<T>
    requires j < |s|
  {
    s[..j] + s[j + 1..]
  }

  lemma WithoutMembers(rules: seq<Rule>, j: nat, r: Rule)
    requires j < |rules|
    ensures r in Without(rules, j) <==> exists k :: 0 <= k < |rules| && k != j && rules[k] == r
  {
    var s := Without(rules, j);
    if r in s {
      var k :| 0 <= k < |s| && s[k] == r;
      assert rules[if k < j then k else k + 1] == r;
    }
    if k :| 0 <= k < |rules| && k != j && rules[k] == r {
      assert s[if k < j then k else k - 1] == r;
    }
  }

  /** Replacing two rules by their merge changes nothing about any port. */
  lemma MergeKeepsForwards(u: Tables, rules: seq<Rule>, i: nat, j: nat, proto: string, p: uint16)
    requires i < |rules| && j < |rules| && i != j
    requires Ordered(rules[i].listenPort) && Ordered(rules[j].listenPort) && Merge(u, rules[i], rules[j]).Ok?
    ensures var m := Merge(u, rules[i], rules[j]).value;
            Forwards(u, Without(rules[i := m], j), proto, p) == Forwards(u, rules, proto, p)
  {
    var m := Merge(u, rules[i], rules[j]).value;
    var replaced := rules[i := m];
    var after := Without(replaced, j);
    MergedForwards(u, rules[i], rules[j], proto, p);
    hide Merge, ForwardOf;
    forall f | f in Forwards(u, rules, proto, p) ensures f in Forwards(u, after, proto, p) {
      var k :| 0 <= k < |rules| && Takes(rules[k], proto, p) && ForwardOf(u, rules[k], p) == f;
      WithoutMembers(replaced, j, if k == i || k == j then m else rules[k]);
      assert replaced[i] == m && (k != i ==> replaced[k] == rules[k]);
    }
    forall f | f in Forwards(u, after, proto, p) ensures f in Forwards(u, rules, proto, p) {
      var r :| r in after && Takes(r, proto, p) && ForwardOf(u, r, p) == f;
      WithoutMembers(replaced, j, r);
      var k :| 0 <= k < |rules| && k != j && replaced[k] == r;
      assert rules[i] in rules && rules[j] in rules && (k != i ==> rules[k] == r);
    }
  }

  // ----- Which rules merge -----

  /** hi goes on where lo ends: the next ports, to the next ports of the same host. */
  predicate Continues(u: Tables, lo: Rule, hi: Rule) {
    && lo.listenPort.lo <= lo.listenPort.hi && lo.listenPort.hi + 1 == hi.listenPort.lo
    && SplitTarget(u, lo.target).Some?
    && var (host, port) := SplitTarget(u, lo.target).value;
       var n := port + (lo.listenPort.hi - lo.listenPort.lo);
       n <= 65535 && hi.target == JoinHostPort(host, Itoa(n + 1))
  }

  /** The two rules treat what arrives alike, and are not proxies. */
  predicate TreatAlike(a: Rule, b: Rule) {
    && a.agent == b.agent && a.proto == b.proto && a.mode == b.mode && a.mode != "proxy" && a.enabled == b.enabled
    && Elements(a.allow) == Elements(b.allow) && Elements(a.deny) == Elements(b.deny)
    && a.newFlowRate == b.newFlowRate && a.packetRate == b.packetRate && a.perSourceRate == b.perSourceRate
  }

  lemma MeetIff(u: Tables, lo: Rule, hi: Rule)
    requires Ordered(lo.listenPort)
    ensures Continues(u, lo, hi) <==>
            && Next16(lo.listenPort.hi) == hi.listenPort.lo && hi.listenPort.lo > lo.listenPort.lo
            && TargetsMeet(u, lo, hi)
  {
    hide SplitTarget, JoinHostPort, Itoa, NextPort;
    if SplitTarget(u, lo.target).Some? {
      var (host, port) := SplitTarget(u, lo.target).value;
      var n := port + (lo.listenPort.hi - lo.listenPort.lo);
      NextOfJoined(host, n);
      JoinIsNotEmpty(host, Itoa(n));
    }
  }

  /**
    Two rules merge, in either order, if and only if they treat what arrives alike and one goes on where the
    other ends; the merge is the first one given, with the ports of both and the lower one's target.
   */
  lemma MergesIff(u: Tables, a: Rule, b: Rule)
    requires Ordered(a.listenPort) && Ordered(b.listenPort)
    ensures Merge(u, a, b).Ok? <==> TreatAlike(a, b) && (Continues(u, a, b) || Continues(u, b, a))
    ensures Merge(u, a, b).Ok? <==> Merge(u, b, a).Ok?
    ensures Merge(u, a, b).Ok? ==>
              var ports := if Continues(u, a, b) then PortRange(a.listenPort.lo, b.listenPort.hi)
                           else PortRange(b.listenPort.lo, a.listenPort.hi);
              Merge(u, a, b).value ==
              a.(listenPort := ports, target := if Continues(u, a, b) then a.target else b.target)
  {
    hide TargetsMeet, Continues, Elements;
    MeetIff(u, a, b);
    MeetIff(u, b, a);
    ContinuesUp(u, a, b);
    ContinuesUp(u, b, a);
    if Merge(u, a, b).Ok? {
      MergedAreAdjacent(u, a, b);
    }
    if Merge(u, b, a).Ok? {
      MergedAreAdjacent(u, b, a);
    }
  }

  /** What an error of Merge says about two rules, whichever is given first. */
  predicate Blocks(u: Tables, a: Rule, b: Rule, why: Blocker) {
    match why
    case Agents => a.agent != b.agent
    case Protos => a.proto != b.proto
    case Modes => a.mode != b.mode
    case NotAdjacent => a.listenPort.hi + 1 != b.listenPort.lo && b.listenPort.hi + 1 != a.listenPort.lo
    case TargetGap => !Continues(u, a, b) && !Continues(u, b, a)
    case ProxyRanges => a.mode == "proxy" && b.mode == "proxy"
    case DenyLists => Elements(a.deny) != Elements(b.deny)
    case AllowLists => Elements(a.allow) != Elements(b.allow)
    case Rates =>
      a.newFlowRate != b.newFlowRate || a.packetRate != b.packetRate || a.perSourceRate != b.perSourceRate
    case EnabledFlags => a.enabled != b.enabled
  }

  lemma BlockerTells(u: Tables, a: Rule, b: Rule)
    requires Ordered(a.listenPort) && Ordered(b.listenPort) && Merge(u, a, b).Err?
    ensures Blocks(u, a, b, Merge(u, a, b).error)
  {
    hide TargetsMeet, Continues, Elements;
    MeetIff(u, a, b);
    MeetIff(u, b, a);
    ContinuesUp(u, a, b);
    ContinuesUp(u, b, a);
  }

  lemma ContinuesUp(u: Tables, lo: Rule, hi: Rule)
    requires Ordered(lo.listenPort)
    ensures Continues(u, lo, hi) ==> lo.listenPort.lo < hi.listenPort.lo
  {
  }

  // ----- Split and merge undo each other -----

  lemma JoinIsNotEmpty(host: string, port: string)
    ensures JoinHostPort(host, port) != ""
  {
  }

  /** Whether the head's last target leads to the tail's. */
  lemma PiecesMeet(u: Tables, r: Rule, at: uint16, head: Rule, tail: Rule)
    requires r.listenPort.lo < at <= r.listenPort.hi
    requires head.listenPort == PortRange(r.listenPort.lo, at - 1) && head.target == r.target
    requires tail.target == Text(EffectiveTarget(u, ForAgent(r), at))
    ensures TargetsMeet(u, head, tail) <==> EffectiveTarget(u, ForAgent(r), at).Some?
  {
    hide SplitHostPort, JoinHostPort, Itoa, NextPort;
    if SplitTarget(u, r.target).Some? {
      var (host, port) := SplitTarget(u, r.target).value;
      var n := port + (at - 1 - r.listenPort.lo);
      NextOfJoined(host, n);
      JoinIsNotEmpty(host, Itoa(n));
      JoinIsNotEmpty(host, Itoa(n + 1));
    }
  }

  /** Merging the pieces of a rule gives the rule back, exactly when it is not a proxy and the tail has a target. */
  lemma MergeUndoesSplit(u: Tables, r: Rule, at: PortRange, id: string)
    requires Split(u, r, at, id).Ok?
    ensures var (head, tail) := Split(u, r, at, id).value;
            Merge(u, head, tail) == Ok(r) <==> r.mode != PROXY && EffectiveTarget(u, ForAgent(r), at.lo).Some?
  {
    hide EffectiveTarget, TargetsMeet;
    var (head, tail) := Split(u, r, at, id).value;
    PiecesMeet(u, r, at.lo, head, tail);
  }

  lemma MergedTail(u: Tables, lo: Rule, hi: Rule)
    requires Ordered(lo.listenPort) && TargetsMeet(u, lo, hi)
    ensures Text(TargetAt(u, lo.target, lo.listenPort.Len())) == hi.target <==> SplitTarget(u, hi.target).Some?
  {
    hide SplitHostPort, JoinHostPort, Itoa, NextPort;
    var (host, port) := SplitTarget(u, lo.target).value;
    var n := port + lo.listenPort.Len() - 1;
    NextOfJoined(host, n);
    TargetOfJoined(u, lo.target, n + 1);
    JoinIsNotEmpty(host, Itoa(n + 1));
  }

  /** Splitting a merge where its parts met restores both ranges and targets, when the higher target is one. */
  lemma SplitUndoesMerge(u: Tables, a: Rule, b: Rule, id: string)
    requires Ordered(a.listenPort) && Ordered(b.listenPort) && Merge(u, a, b).Ok?
    ensures var lo, hi := Lower(a, b), Higher(a, b);
            var s := Split(u, Merge(u, a, b).value, PortRange(hi.listenPort.lo, hi.listenPort.lo), id);
            && s.Ok? && s.value.0.listenPort == lo.listenPort && s.value.0.target == lo.target
            && s.value.1.listenPort == hi.listenPort && s.value.1.id == id
            && (s.value.1.target == hi.target <==> SplitTarget(u, hi.target).Some?)
  {
    hide TargetAt, TargetsMeet, SplitTarget;
    MergedAreAdjacent(u, a, b);
    MergedTail(u, Lower(a, b), Higher(a, b));
  }

  // ----- Valid sets stay valid -----

  predicate Compatible(a: Rule, b: Rule) {
    a.id != b.id && (a.proto == b.proto ==> !a.listenPort.Overlaps(b.listenPort))
  }

  predicate GoodAlone(u: Tables, r: Rule, reserved: Reserved) {
    Valid(u, r) && forall p <- reserved :: !r.listenPort.Contains(p)
  }

  predicate GoodSet(u: Tables, rules: seq<Rule>, reserved: Reserved) {
    && (forall i | 0 <= i < |rules| :: GoodAlone(u, rules[i], reserved))
    && (forall i, j | 0 <= i < j < |rules| :: Compatible(rules[i], rules[j]))
  }

  lemma GoodSetIsSetOK(u: Tables, rules: seq<Rule>, reserved: Reserved)
    ensures GoodSet(u, rules, reserved) <==> SetOK(u, rules, reserved, {})
  {
    hide Valid, WellFormed;
    forall i | 0 <= i < |rules| ensures Valid(u, rules[i]) <==> WellFormed(u, rules[i]) {
      ValidIff(u, rules[i]);
    }
    if SetOK(u, rules, reserved, {}) {
      forall i, j | 0 <= i < j < |rules| ensures Compatible(rules[i], rules[j]) {
        assert RowOK(u, rules, j, reserved, {});
      }
      forall i | 0 <= i < |rules| ensures GoodAlone(u, rules[i], reserved) {
        assert RowOK(u, rules, i, reserved, {});
      }
    }
    if GoodSet(u, rules, reserved) {
      forall i | 0 <= i < |rules| ensures RowOK(u, rules, i, reserved, {}) {
        assert GoodAlone(u, rules[i], reserved);
        assert forall j | 0 <= j < i :: Compatible(rules[j], rules[i]);
      }
    }
  }

  lemma {:induction false} Utf8LenJoins(a: string, b: string)
    ensures Utf8Len(a + b) == Utf8Len(a) + Utf8Len(b)
  {
    if a == [] {
      assert a + b == b;
    } else {
      assert (a + b)[1..] == a[1..] + b;
      Utf8LenJoins(a[1..], b);
    }
  }

  lemma {:induction false} DigitsLen(s: string)
    requires AllDigits(s)
    ensures Utf8Len(s) == |s|
  {
    if s != [] {
      DigitsLen(s[1..]);
    }
  }

  lemma JoinedLen(host: string, n: nat)
    ensures Utf8Len(JoinHostPort(host, Itoa(n))) == Utf8Len(host) + (if ':' in host then 3 else 1) + |Itoa(n)|
  {
    var port := Itoa(n);
    DigitsLen(port);
    if ':' in host {
      Utf8LenJoins("[" + host + "]:", port);
      Utf8LenJoins("[" + host, "]:");
      Utf8LenJoins("[", host);
      assert Utf8Len("[") == 1 && Utf8Len("]:") == 2;
    } else {
      Utf8LenJoins(host + ":", port);
      Utf8LenJoins(host, ":");
      assert Utf8Len(":") == 1;
    }
  }

  lemma JoinedGraphic(u: Tables, target: string, n: nat)
    requires AllGraphic(u, target) && SplitTarget(u, target).Some?
    ensures AllGraphic(u, JoinHostPort(SplitTarget(u, target).value.0, Itoa(n)))
  {
    var host := SplitTarget(u, target).value.0;
    NamedBySplit(target);
    assert forall c <- host :: c in target;
    assert forall c <- Itoa(n) :: IsDigit(c);
    assert forall c <- "[]:" :: Graphic(u, c);
  }

  /** The bytes of the target that a split at `at` gives the tail of a valid rule. */
  function TailLength(u: Tables, r: Rule, at: uint16): nat
    requires SplitTarget(u, r.target).Some? && r.listenPort.lo < at
  {
    var (host, port) := SplitTarget(u, r.target).value;
    Utf8Len(host) + (if ':' in host then 3 else 1) + |Itoa(port + (at - r.listenPort.lo))|
  }

  lemma ValidTarget(u: Tables, r: Rule)
    requires Valid(u, r)
    ensures SplitTarget(u, r.target).Some? && AllGraphic(u, r.target) && Utf8Len(r.target) <= MAX_TARGET_LEN
    ensures SplitTarget(u, r.target).value.1 + r.listenPort.Len() - 1 <= MAX_PORT
  {
    hide SplitTarget, AllGraphic, Utf8Len;
  }

  lemma TailTargetText(u: Tables, r: Rule, at: uint16)
    requires Valid(u, r) && r.listenPort.lo < at <= r.listenPort.hi
    ensures var t := Text(EffectiveTarget(u, ForAgent(r), at));
            var n := SplitTarget(u, r.target).value.1 + (at - r.listenPort.lo);
            && AllGraphic(u, t) && Utf8Len(t) == TailLength(u, r, at)
            && SplitTarget(u, t) == Some((SplitTarget(u, r.target).value.0, n))
  {
    hide SplitHostPort, JoinHostPort, Itoa, AllGraphic, Utf8Len, Valid;
    ValidTarget(u, r);
    var (host, port) := SplitTarget(u, r.target).value;
    var n := port + (at - r.listenPort.lo);
    JoinedLen(host, n);
    JoinedGraphic(u, r.target, n);
    TargetOfJoined(u, r.target, n);
  }

  lemma PiecesValid(u: Tables, r: Rule, at: PortRange, id: string)
    requires Valid(u, r) && Split(u, r, at, id).Ok?
    ensures SplitTarget(u, r.target).Some?
    ensures Valid(u, Split(u, r, at, id).value.0)
    ensures Valid(u, Split(u, r, at, id).value.1) <==>
            ValidateID(u, id).None? && TailLength(u, r, at.lo) <= MAX_TARGET_LEN
  {
    hide SplitTarget, EffectiveTarget, AllGraphic, Utf8Len, TailLength, ValidateID, ValidateLabels;
    ValidTarget(u, r);
    TailTargetText(u, r, at.lo);
    var (head, tail) := Split(u, r, at, id).value;
    assert ValidateLabels(head) == ValidateLabels(r) && ValidateLabels(tail) == ValidateLabels(r) by {
      SameLabels(head, r);
      SameLabels(tail, r);
    }
  }

  /**
    Replacing a rule of a valid set by its pieces gives a valid set exactly when the tail's ID is valid
    and new and its target is not too long; every other constraint survives by itself.
   */
  lemma SplitKeepsSet(u: Tables, rules: seq<Rule>, i: nat, at: PortRange, id: string, reserved: Reserved)
    requires i < |rules| && SetOK(u, rules, reserved, {}) && Split(u, rules[i], at, id).Ok?
    ensures SplitTarget(u, rules[i].target).Some?
    ensures var (head, tail) := Split(u, rules[i], at, id).value;
            SetOK(u, rules[i := head] + [tail], reserved, {}) <==>
            && ValidateID(u, id).None? && (forall k | 0 <= k < |rules| :: rules[k].id != id)
            && TailLength(u, rules[i], at.lo) <= MAX_TARGET_LEN
  {
    hide Valid, TailLength, ValidateID, EffectiveTarget, SplitTarget;
    var r, n := rules[i], |rules|;
    var (head, tail) := Split(u, r, at, id).value;
    var after := rules[i := head] + [tail];
    GoodSetIsSetOK(u, rules, reserved);
    GoodSetIsSetOK(u, after, reserved);
    assert GoodAlone(u, r, reserved);
    PiecesValid(u, r, at, id);
    if GoodSet(u, after, reserved) {
      assert GoodAlone(u, after[n], reserved);
      forall k | 0 <= k < n ensures rules[k].id != id {
        assert Compatible(after[k], after[n]);
      }
    } else if Valid(u, tail) && forall k | 0 <= k < n :: rules[k].id != id {
      SplitSetIsGood(u, rules, i, head, tail, reserved);
    }
  }

  lemma SplitSetIsGood(u: Tables, rules: seq<Rule>, i: nat, head: Rule, tail: Rule, reserved: Reserved)
    requires i < |rules| && GoodSet(u, rules, reserved) && Valid(u, head) && Valid(u, tail)
    requires head.id == rules[i].id && head.proto == rules[i].proto && tail.proto == rules[i].proto
    requires rules[i].listenPort.lo <= head.listenPort.lo <= head.listenPort.hi < tail.listenPort.lo
    requires tail.listenPort.lo <= tail.listenPort.hi <= rules[i].listenPort.hi
    requires forall k | 0 <= k < |rules| :: rules[k].id != tail.id
    ensures GoodSet(u, rules[i := head] + [tail], reserved)
  {
    hide Valid;
    var after := rules[i := head] + [tail];
    assert GoodAlone(u, rules[i], reserved);
    forall j | 0 <= j < |after| ensures GoodAlone(u, after[j], reserved) {
      assert j < |rules| ==> GoodAlone(u, rules[j], reserved);
    }
    forall j, k | 0 <= j < k < |after| ensures Compatible(after[j], after[k]) {
      if k < |rules| {
        assert Compatible(rules[j], rules[k]);
      } else if j != i {
        assert Compatible(rules[if j < i then j else i], rules[if j < i then i else j]);
      }
    }
  }

  /** A host of at most 253 bytes without a colon always leaves room for the port. */
  lemma ShortHostFits(u: Tables, r: Rule, at: uint16)
    requires Valid(u, r) && r.listenPort.lo < at <= r.listenPort.hi
    ensures SplitTarget(u, r.target).Some?
    ensures var host := SplitTarget(u, r.target).value.0;
            Utf8Len(host) <= 253 && ':' !in host ==> TailLength(u, r, at) <= MAX_TARGET_LEN
  {
    hide SplitTarget, Utf8Len, Valid;
    ValidTarget(u, r);
    PortLength(SplitTarget(u, r.target).value.1 + (at - r.listenPort.lo));
  }

  // ----- A host of 253 bytes is not always short enough -----

  /** A host with a colon, and a rule on it: the head's target has one digit, the tail's would have five. */
  const COLON_HOST: string := seq(253, k => if k == 0 then ':' else 'a')

  const LONG_RULE := Rule(
    "a", "b", "", "", UDP, PortRange(1, 20000), "[" + COLON_HOST + "]:1", KERNEL, false,
    None, None, None, None, None, true)

  lemma {:induction false} AsciiLen(s: string)
    requires forall i | 0 <= i < |s| :: s[i] < 0x80 as char
    ensures Utf8Len(s) == |s|
  {
    if s != [] {
      AsciiLen(s[1..]);
    }
  }

  lemma LongTargetIsJoined()
    ensures ':' in COLON_HOST && NoBrackets(COLON_HOST) && LONG_RULE.target == JoinHostPort(COLON_HOST, Itoa(1))
  {
    assert Itoa(1) == "1";
    assert ':' == COLON_HOST[0];
  }

  lemma LongTarget(u: Tables)
    requires !u.ipv6(COLON_HOST)
    ensures SplitTarget(u, LONG_RULE.target) == Some((COLON_HOST, 1))
    ensures Utf8Len(COLON_HOST) == 253 && Utf8Len(LONG_RULE.target) == 257
  {
    hide SplitHostPort, JoinHostPort, COLON_HOST;
    LongTargetIsJoined();
    DigitsArePlain(Itoa(1));
    SplitOfJoined(COLON_HOST, Itoa(1));
    ParseUndoesItoa(1, MAX_PORT);
    LongHostLen();
    JoinedLen(COLON_HOST, 1);
  }

  lemma LongHostLen()
    ensures Utf8Len(COLON_HOST) == 253 == |COLON_HOST|
  {
    AsciiLen(COLON_HOST);
  }

  /** Splitting this valid kernel-mode rule at port 10000 gives a tail whose target is too long. */
  lemma BracketedHostOverflows(u: Tables)
    requires !u.ipv6(COLON_HOST)
    ensures Valid(u, LONG_RULE) && Split(u, LONG_RULE, PortRange(10000, 10000), "c").Ok?
    ensures !Valid(u, Split(u, LONG_RULE, PortRange(10000, 10000), "c").value.1)
  {
    hide SplitTarget, Utf8Len, COLON_HOST, AllGraphic, EffectiveTarget, Valid;
    LongRuleIsValid(u);
    LongTarget(u);
    LongTargetIsJoined();
    assert |Itoa(10000)| == 5;
    PiecesValid(u, LONG_RULE, PortRange(10000, 10000), "c");
  }

  lemma LongTargetIsGraphic(u: Tables)
    ensures AllGraphic(u, LONG_RULE.target)
  {
  }

  lemma LongRuleIsValid(u: Tables)
    requires !u.ipv6(COLON_HOST)
    ensures Valid(u, LONG_RULE)
  {
    hide SplitTarget, COLON_HOST, AllGraphic, Utf8Len, ValidateID, ValidateTarget;
    LongTarget(u);
    LongTargetIsGraphic(u);
    LongRuleParts(u);
  }

  lemma LongRuleParts(u: Tables)
    requires SplitTarget(u, LONG_RULE.target) == Some((COLON_HOST, 1)) && Utf8Len(LONG_RULE.target) == 257
    requires AllGraphic(u, LONG_RULE.target)
    ensures ValidateID(u, LONG_RULE.id).None? && ValidateTarget(u, LONG_RULE.listenPort, LONG_RULE.target).None?
  {
    assert Utf8Len("a") == 1;
    hide SplitTarget, COLON_HOST, Utf8Len;
  }

  // ----- Merging keeps a valid set valid -----

  lemma MergedValid(u: Tables, self: Rule, other: Rule)
    requires Valid(u, self) && Valid(u, other) && Ordered(self.listenPort) && Ordered(other.listenPort)
    requires Merge(u, self, other).Ok?
    ensures Valid(u, Merge(u, self, other).value)
  {
    hide SplitTarget, TargetAt, TargetsMeet, AllGraphic, Utf8Len, ValidateID, ValidateLabels;
    MergedAreAdjacent(u, self, other);
    var lo, hi := Lower(self, other), Higher(self, other);
    ValidTarget(u, self);
    ValidTarget(u, other);
    MergedPortsFit(u, lo, hi);
    SameLabels(Merge(u, self, other).value, self);
  }

  /** The higher rule's ports fit, so the merged rule's do. */
  lemma MergedPortsFit(u: Tables, lo: Rule, hi: Rule)
    requires Ordered(lo.listenPort) && TargetsMeet(u, lo, hi)
    requires SplitTarget(u, hi.target).Some? && SplitTarget(u, lo.target).Some?
    ensures SplitTarget(u, hi.target).value.1 == SplitTarget(u, lo.target).value.1 + lo.listenPort.Len()
  {
    hide SplitHostPort, JoinHostPort, Itoa, NextPort;
    var (host, port) := SplitTarget(u, lo.target).value;
    var n := port + lo.listenPort.Len() - 1;
    NextOfJoined(host, n);
    TargetOfJoined(u, lo.target, n + 1);
  }

  lemma PairCompatible(u: Tables, rules: seq<Rule>, i: nat, j: nat, reserved: Reserved)
    requires GoodSet(u, rules, reserved) && i < |rules| && j < |rules| && i != j
    ensures Compatible(rules[i], rules[j])
  {
    hide Valid;
    assert Compatible(rules[if i < j then i else j], rules[if i < j then j else i]);
  }

  /** What fits beside both parts fits beside the rule that spans them. */
  lemma SpanFits(lo: PortRange, hi: PortRange, o: PortRange)
    requires Ordered(o) && lo.hi + 1 == hi.lo && !lo.Overlaps(o) && !hi.Overlaps(o)
    ensures !PortRange(lo.lo, hi.hi).Overlaps(o)
  {
  }

  lemma MergedFits(u: Tables, rules: seq<Rule>, i: nat, j: nat, reserved: Reserved, k: nat)
    requires i < |rules| && j < |rules| && i != j && GoodSet(u, rules, reserved)
    requires k < |rules| && k != i && k != j && Merge(u, rules[i], rules[j]).Ok?
    requires Ordered(rules[i].listenPort) && Ordered(rules[j].listenPort) && Ordered(rules[k].listenPort)
    ensures Compatible(Merge(u, rules[i], rules[j]).value, rules[k])
    ensures Compatible(rules[k], Merge(u, rules[i], rules[j]).value)
  {
    hide Valid, TargetsMeet, Elements;
    MergedAreAdjacent(u, rules[i], rules[j]);
    PairCompatible(u, rules, i, k, reserved);
    PairCompatible(u, rules, j, k, reserved);
    var lo, hi := Lower(rules[i], rules[j]), Higher(rules[i], rules[j]);
    if rules[k].proto == rules[i].proto {
      SpanFits(lo.listenPort, hi.listenPort, rules[k].listenPort);
    }
  }

  lemma MergedSetIsGood(u: Tables, rules: seq<Rule>, i: nat, j: nat, reserved: Reserved)
    requires i < |rules| && j < |rules| && i != j && GoodSet(u, rules, reserved)
    requires forall k | 0 <= k < |rules| :: Ordered(rules[k].listenPort)
    requires Merge(u, rules[i], rules[j]).Ok? && GoodAlone(u, Merge(u, rules[i], rules[j]).value, reserved)
    ensures GoodSet(u, Without(rules[i := Merge(u, rules[i], rules[j]).value], j), reserved)
  {
    hide Valid, Merge;
    var m := Merge(u, rules[i], rules[j]).value;
    var after := Without(rules[i := m], j);
    forall a | 0 <= a < |after| ensures GoodAlone(u, after[a], reserved) {
      assert GoodAlone(u, rules[if a < j then a else a + 1], reserved);
    }
    forall a, b | 0 <= a < b < |after| ensures Compatible(after[a], after[b]) {
      var a', b' := if a < j then a else a + 1, if b < j then b else b + 1;
      if a' == i {
        MergedFits(u, rules, i, j, reserved, b');
      } else if b' == i {
        MergedFits(u, rules, i, j, reserved, a');
      } else {
        PairCompatible(u, rules, a', b', reserved);
      }
    }
  }

  lemma MergedAlone(u: Tables, a: Rule, b: Rule, reserved: Reserved)
    requires Ordered(a.listenPort) && Ordered(b.listenPort) && GoodAlone(u, a, reserved) && GoodAlone(u, b, reserved)
    requires Merge(u, a, b).Ok?
    ensures GoodAlone(u, Merge(u, a, b).value, reserved)
  {
    hide Valid, TargetsMeet, Elements;
    MergedAreAdjacent(u, a, b);
    MergedValid(u, a, b);
    forall p | p in reserved ensures !Merge(u, a, b).value.listenPort.Contains(p) {
      assert !a.listenPort.Contains(p) && !b.listenPort.Contains(p);
    }
  }

  /** Replacing two rules of a valid set by their merge gives a valid set. */
  lemma MergeKeepsSet(u: Tables, rules: seq<Rule>, i: nat, j: nat, reserved: Reserved)
    requires i < |rules| && j < |rules| && i != j && SetOK(u, rules, reserved, {})
    requires forall k | 0 <= k < |rules| :: Ordered(rules[k].listenPort)
    requires Merge(u, rules[i], rules[j]).Ok?
    ensures SetOK(u, Without(rules[i := Merge(u, rules[i], rules[j]).value], j), reserved, {})
  {
    hide Valid, Merge;
    GoodSetIsSetOK(u, rules, reserved);
    GoodSetIsSetOK(u, Without(rules[i := Merge(u, rules[i], rules[j]).value], j), reserved);
    assert GoodAlone(u, rules[i], reserved) && GoodAlone(u, rules[j], reserved);
    MergedAlone(u, rules[i], rules[j], reserved);
    MergedSetIsGood(u, rules, i, j, reserved);
  }
}
