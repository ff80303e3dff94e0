/** Rule sets: the constraints between rules, and what every run of accepted batches keeps. */
module RuleSets {
  import opened Wrappers
  import opened RuleTypes
  import opened Targets
  import opened Rules

  type Reserved = map<uint16, string>

  /** Row i passes: it is valid or skipped, and neither its ID nor its ports are taken. */
  ghost predicate RowOK(u: Tables, rules: seq<Rule>, i: nat, reserved: Reserved, skip: set<string>)
    requires i < |rules|
  {
    var r := rules[i];
    && (r.id in skip || WellFormed(u, r))
    && (forall j | 0 <= j < i :: rules[j].id != r.id)
    && (forall p <- reserved :: !r.listenPort.Contains(p))
    && (forall j | 0 <= j < i :: rules[j].proto == r.proto ==> !rules[j].listenPort.Overlaps(r.listenPort))
  }

  ghost predicate SetOK(u: Tables, rules: seq<Rule>, reserved: Reserved, skip: set<string>) {
    forall i | 0 <= i < |rules| :: RowOK(u, rules, i, reserved, skip)
  }

  /** Why row i fails. */
  datatype SetErr =
    | BadRule(i: nat, e: RuleErr)
    | DuplicateID(i: nat)
    | ReservedPort(i: nat, p: uint16)
    | Overlap(i: nat, j: nat)

  predicate Explains(u: Tables, rules: seq<Rule>, reserved: Reserved, skip: set<string>, e: SetErr)
    requires e.i < |rules|
  {
    var r := rules[e.i];
    match e
    case BadRule(_, err) => r.id !in skip && Validate(u, r) == Some(err)
    case DuplicateID(i) => exists j :: 0 <= j < i && rules[j].id == r.id
    case ReservedPort(_, p) => p in reserved && r.listenPort.Contains(p)
    case Overlap(i, j) => j < i && rules[j].proto == r.proto && rules[j].listenPort.Overlaps(r.listenPort)
  }

  method FindReserved(range: PortRange, reserved: Reserved) returns (found: Option<uint16>)
    ensures found.None? <==> forall p <- reserved :: !range.Contains(p)
    ensures found.Some? ==> found.value in reserved && range.Contains(found.value)
  {
    var left := reserved.Keys;
    while left != {}
      invariant left <= reserved.Keys
      invariant forall p <- reserved.Keys - left :: !range.Contains(p)
    {
      var p :| p in left;
      if range.Contains(p) {
        return Some(p);
      }
      left := left - {p};
    }
    found := None;
  }

  method FindOverlap(rules: seq<Rule>, i: nat) returns (found: Option<nat>)
    requires i < |rules|
    ensures found.None? <==>
      forall j | 0 <= j < i :: rules[j].proto == rules[i].proto ==> !rules[j].listenPort.Overlaps(rules[i].listenPort)
    ensures found.Some? ==>
      found.value < i && rules[found.value].proto == rules[i].proto
      && rules[found.value].listenPort.Overlaps(rules[i].listenPort)
  {
    for j := 0 to i
      invariant forall k | 0 <= k < j ::
                  rules[k].proto == rules[i].proto ==> !rules[k].listenPort.Overlaps(rules[i].listenPort)
    {
      if rules[j].proto == rules[i].proto && rules[j].listenPort.Overlaps(rules[i].listenPort) {
        return Some(j);
      }
    }
    found := None;
  }

  method CheckRow(u: Tables, rules: seq<Rule>, i: nat, reserved: Reserved, skip: set<string>, ids: set<string>)
    returns (e: Option<SetErr>)
    requires i < |rules| && forall id :: id in ids <==> exists j :: 0 <= j < i && rules[j].id == id
    ensures e.None? <==> RowOK(u, rules, i, reserved, skip)
    ensures e.Some? ==> e.value.i == i && Explains(u, rules, reserved, skip, e.value)
  {
    hide WellFormed, Validate;
    var r := rules[i];
    ValidIff(u, r);
    if r.id !in skip && Validate(u, r).Some? {
      return Some(BadRule(i, Validate(u, r).value));
    }
    if r.id in ids {
      return Some(DuplicateID(i));
    }
    var p := FindReserved(r.listenPort, reserved);
    if p.Some? {
      return Some(ReservedPort(i, p.value));
    }
    var j := FindOverlap(rules, i);
    e := if j.Some? then Some(Overlap(i, j.value)) else None;
  }

  /** validateRuleSet: no error exactly when every row passes; an error names the first row that does not. */
  method ValidateRuleSet(u: Tables, rules: seq<Rule>, reserved: Reserved, skip: set<string>)
    returns (e: Option<SetErr>)
    ensures e.None? <==> SetOK(u, rules, reserved, skip)
    ensures e.Some? ==>
      && e.value.i < |rules| && Explains(u, rules, reserved, skip, e.value)
      && forall j | 0 <= j < e.value.i :: RowOK(u, rules, j, reserved, skip)
  {
    var ids: set<string> := {};
    for i := 0 to |rules|
      invariant forall j | 0 <= j < i :: RowOK(u, rules, j, reserved, skip)
      invariant forall id :: id in ids <==> exists j :: 0 <= j < i && rules[j].id == id
    {
      e := CheckRow(u, rules, i, reserved, skip, ids);
      if e.Some? {
        return;
      }
      ids := ids + {rules[i].id};
    }
    e := None;
  }

  // ----- Rows that a batch leaves as they were -----

  /** normalizeSources: empty source lists become nil. */
  function Normal(r: Rule): Rule {
    r.(allow := if Listed(r.allow) == [] then None else r.allow,
       deny := if Listed(r.deny) == [] then None else r.deny)
  }

  /** The last row with the ID. */
  function LastWith(rules: seq<Rule>, id: string): (r: Option<Rule>)
    ensures r.Some? ==> r.value in rules && r.value.id == id
  {
    if rules == [] then None
    else var n := |rules| - 1; if rules[n].id == id then Some(rules[n]) else LastWith(rules[..n], id)
  }

  predicate Unchanged(r: Rule, before: seq<Rule>) {
    LastWith(before, r.id).Some? && Normal(LastWith(before, r.id).value) == Normal(r)
  }

  function UnchangedOf(rules: seq<Rule>, before: seq<Rule>): set<string> {
    set r | r in rules && Unchanged(r, before) :: r.id
  }

  method UnchangedIDs(rules: seq<Rule>, before: seq<Rule>) returns (ids: set<string>)
    ensures ids == UnchangedOf(rules, before)
  {
    var byID: map<string, Rule> := map[];
    for i := 0 to |before|
      invariant forall id :: id in byID <==> LastWith(before[..i], id).Some?
      invariant forall id <- byID :: byID[id] == Normal(LastWith(before[..i], id).value)
    {
      assert before[..i + 1][..i] == before[..i];
      byID := byID[before[i].id := Normal(before[i])];
    }
    assert before[..|before|] == before;
    ids := {};
    for i := 0 to |rules|
      invariant ids == UnchangedOf(rules[..i], before)
    {
      var r := rules[i];
      UnchangedNext(rules, i, before);
      if r.id in byID && Normal(r) == byID[r.id] {
        ids := ids + {r.id};
      }
    }
    assert rules[..|rules|] == rules;
  }

  lemma UnchangedNext(rules: seq<Rule>, i: nat, before: seq<Rule>)
    requires i < |rules|
    ensures UnchangedOf(rules[..i + 1], before) ==
            UnchangedOf(rules[..i], before) + if Unchanged(rules[i], before) then {rules[i].id} else {}
  {
    assert rules[..i + 1] == rules[..i] + [rules[i]];
    assert rules[i] in rules[..i + 1];
  }

  // ----- Rules of each agent -----

  const MAX_RULES_PER_AGENT := 512

  function Count(rules: seq<Rule>, agent: string): nat {
    if rules == [] then 0
    else var n := |rules| - 1; Count(rules[..n], agent) + if rules[n].agent == agent then 1 else 0
  }

  function CountIn(counts: map<string, nat>, agent: string): nat {
    if agent in counts then counts[agent] else 0
  }

  method RuleCountsByAgent(rules: seq<Rule>) returns (counts: map<string, nat>)
    ensures forall a :: CountIn(counts, a) == Count(rules, a)
  {
    counts := map[];
    for i := 0 to |rules|
      invariant forall a :: CountIn(counts, a) == Count(rules[..i], a)
    {
      assert rules[..i + 1][..i] == rules[..i];
      counts := counts[rules[i].agent := CountIn(counts, rules[i].agent) + 1];
    }
    assert rules[..|rules|] == rules;
  }

  datatype LimitErr = LimitErr(agent: string, before: nat, after: nat)

  ghost predicate CountsOK(rules: seq<Rule>, before: seq<Rule>) {
    forall a :: Count(rules, a) <= Max(512, Count(before, a))
  }

  /** The order of names: character by character, which is the order of their UTF-8 bytes. */
  predicate NameBefore(a: string, b: string) {
    if b == [] then false
    else if a == [] then true
    else a[0] < b[0] || (a[0] == b[0] && NameBefore(a[1..], b[1..]))
  }

  lemma {:induction false} NamesAreOrdered(a: string, b: string)
    ensures a == b || NameBefore(a, b) || NameBefore(b, a)
  {
    if a != [] && b != [] && a[0] == b[0] {
      NamesAreOrdered(a[1..], b[1..]);
      assert a == [a[0]] + a[1..] && b == [b[0]] + b[1..];
    }
  }

  lemma {:induction false} NamesChain(a: string, b: string, c: string)
    requires NameBefore(a, b) && NameBefore(b, c)
    ensures NameBefore(a, c)
  {
    if a != [] && a[0] == b[0] == c[0] {
      NamesChain(a[1..], b[1..], c[1..]);
    }
  }

  predicate OverLimitFor(a: string, rules: seq<Rule>, before: seq<Rule>) {
    Count(rules, a) > 512 && Count(rules, a) > Count(before, a)
  }

  /**
    checkAgentRuleCounts: an agent may be over the limit, but not further over it than before; the error
    names the first such agent by name.
   */
  method CheckAgentRuleCounts(rules: seq<Rule>, before: seq<Rule>) returns (e: Option<LimitErr>)
    ensures e.None? <==> CountsOK(rules, before)
    ensures e.Some? ==>
      && e.value.before == Count(before, e.value.agent) && e.value.after == Count(rules, e.value.agent)
      && OverLimitFor(e.value.agent, rules, before)
      && forall a | OverLimitFor(a, rules, before) :: a == e.value.agent || NameBefore(e.value.agent, a)
  {
    var after := RuleCountsByAgent(rules);
    var prev := RuleCountsByAgent(before);
    assert forall a :: Count(rules, a) == CountIn(after, a) && Count(before, a) == CountIn(prev, a);
    var left := after.Keys;
    e := None;
    while left != {}
      invariant left <= after.Keys
      invariant e.None? ==> forall a <- after.Keys - left :: !OverLimitFor(a, rules, before)
      invariant e.Some? ==>
        && e.value.before == Count(before, e.value.agent) && e.value.after == Count(rules, e.value.agent)
        && OverLimitFor(e.value.agent, rules, before)
        && forall a <- after.Keys - left | OverLimitFor(a, rules, before) ::
             a == e.value.agent || NameBefore(e.value.agent, a)
    {
      var a :| a in left;
      if after[a] > MAX_RULES_PER_AGENT && after[a] > CountIn(prev, a) {
        if e.None? || NameBefore(a, e.value.agent) {
          if e.Some? {
            forall x | NameBefore(e.value.agent, x) ensures NameBefore(a, x) {
              NamesChain(a, e.value.agent, x);
            }
          }
          e := Some(LimitErr(a, CountIn(prev, a), after[a]));
        } else {
          NamesAreOrdered(a, e.value.agent);
        }
      }
      left := left - {a};
    }
    if e.None? {
      forall a ensures Count(rules, a) <= Max(MAX_RULES_PER_AGENT, Count(before, a)) {
        assert a in after.Keys ==> !OverLimitFor(a, rules, before);
        assert CountIn(after, a) == Count(rules, a);
      }
    } else {
      assert Count(rules, e.value.agent) > Max(MAX_RULES_PER_AGENT, Count(before, e.value.agent));
    }
  }

  // ----- Batches -----

  datatype UpsertErr = InSet(s: SetErr) | OverLimit(l: LimitErr)

  ghost predicate Accepts(u: Tables, rules: seq<Rule>, before: seq<Rule>, reserved: Reserved) {
    SetOK(u, rules, reserved, UnchangedOf(rules, before)) && CountsOK(rules, before)
  }

  /** The first row that fails, or, in a set that passes, an agent over its limit with its counts. */
  ghost predicate UpsertFails(u: Tables, rules: seq<Rule>, before: seq<Rule>, reserved: Reserved, e: UpsertErr) {
    var skip := UnchangedOf(rules, before);
    match e
    case InSet(s) =>
      && s.i < |rules| && Explains(u, rules, reserved, skip, s)
      && forall j | 0 <= j < s.i :: RowOK(u, rules, j, reserved, skip)
    case OverLimit(l) =>
      && SetOK(u, rules, reserved, skip) && OverLimitFor(l.agent, rules, before)
      && l.before == Count(before, l.agent) && l.after == Count(rules, l.agent)
  }

  method ValidateUpsert(u: Tables, rules: seq<Rule>, before: seq<Rule>, reserved: Reserved)
    returns (e: Option<UpsertErr>)
    ensures e.None? <==> Accepts(u, rules, before, reserved)
    ensures e.Some? ==> UpsertFails(u, rules, before, reserved, e.value)
  {
    var skip := UnchangedIDs(rules, before);
    var s := ValidateRuleSet(u, rules, reserved, skip);
    if s.Some? {
      return Some(InSet(s.value));
    }
    var l := CheckAgentRuleCounts(rules, before);
    e := if l.Some? then Some(OverLimit(l.value)) else None;
  }

  predicate UniqueIDs(rules: seq<Rule>) {
    forall i, j | 0 <= i < j < |rules| :: rules[i].id != rules[j].id
  }

  /** No two rules take the same port of the same protocol. */
  predicate OneRulePerPort(rules: seq<Rule>) {
    forall i, j, p | 0 <= i < j < |rules| && rules[i].listenPort.Contains(p) && rules[j].listenPort.Contains(p) ::
      rules[i].proto != rules[j].proto
  }

  predicate NothingReserved(rules: seq<Rule>, reserved: Reserved) {
    forall i, p | 0 <= i < |rules| && p in reserved :: !rules[i].listenPort.Contains(p)
  }

  /** The rule is valid, or the initial set had it, up to empty source lists. */
  ghost predicate ValidOrInitial(u: Tables, r: Rule, initial: seq<Rule>) {
    WellFormed(u, r) || exists b <- initial :: b.id == r.id && Normal(b) == Normal(r)
  }

  lemma NormalKeepsValid(u: Tables, a: Rule, b: Rule)
    requires Normal(a) == Normal(b)
    ensures Validate(u, a) == Validate(u, b)
  {
    hide ValidateID, ValidateTarget, ValidateMode, ValidateLabels;
    NormalFields(a, b);
    SameMode(a, b);
    SameLabels(a, b);
  }

  lemma NormalFields(a: Rule, b: Rule)
    requires Normal(a) == Normal(b)
    ensures a == b.(allow := a.allow, deny := a.deny)
    ensures Listed(a.allow) == Listed(b.allow) && Listed(a.deny) == Listed(b.deny)
  {
    assert a == Normal(a).(allow := a.allow, deny := a.deny) && b == Normal(b).(allow := b.allow, deny := b.deny);
    assert Listed(a.allow) == Listed(Normal(a).allow) && Listed(b.allow) == Listed(Normal(b).allow);
    assert Listed(a.deny) == Listed(Normal(a).deny) && Listed(b.deny) == Listed(Normal(b).deny);
  }

  lemma SameMode(a: Rule, b: Rule)
    requires a.mode == b.mode && a.proto == b.proto && a.listenPort == b.listenPort
    requires a.proxyProtocol == b.proxyProtocol
    ensures ValidateMode(a) == ValidateMode(b)
  {
  }

  lemma SameLabels(a: Rule, b: Rule)
    requires a.group == b.group && a.note == b.note
    requires Listed(a.allow) == Listed(b.allow) && Listed(a.deny) == Listed(b.deny)
    ensures ValidateLabels(a) == ValidateLabels(b)
  {
  }

  lemma SetIsDisjoint(u: Tables, rules: seq<Rule>, reserved: Reserved, skip: set<string>)
    requires SetOK(u, rules, reserved, skip)
    ensures UniqueIDs(rules) && OneRulePerPort(rules) && NothingReserved(rules, reserved)
  {
    forall i, j | 0 <= i < j < |rules|
      ensures rules[i].id != rules[j].id
      ensures rules[i].proto == rules[j].proto ==> !rules[i].listenPort.Overlaps(rules[j].listenPort)
    {
      assert RowOK(u, rules, j, reserved, skip);
    }
    forall i, p | 0 <= i < |rules| && p in reserved ensures !rules[i].listenPort.Contains(p) {
      assert RowOK(u, rules, i, reserved, skip);
    }
  }

  lemma SameAsInitial(u: Tables, b: Rule, r: Rule, initial: seq<Rule>)
    requires ValidOrInitial(u, b, initial) && b.id == r.id && Normal(b) == Normal(r)
    ensures ValidOrInitial(u, r, initial)
  {
    hide WellFormed, Validate;
    NormalKeepsValid(u, b, r);
    ValidIff(u, b);
    ValidIff(u, r);
  }

  /** A row whose ID is among the unchanged ones is itself unchanged, since no other row has the ID. */
  lemma SkippedRowIsUnchanged(rules: seq<Rule>, before: seq<Rule>, i: nat)
    requires UniqueIDs(rules) && i < |rules| && rules[i].id in UnchangedOf(rules, before)
    ensures Unchanged(rules[i], before)
  {
    var same :| same in rules && Unchanged(same, before) && same.id == rules[i].id;
    var j :| 0 <= j < |rules| && rules[j] == same;
    assert j < i || j == i || i < j;
  }

  lemma AcceptedRow(u: Tables, rules: seq<Rule>, before: seq<Rule>, reserved: Reserved, initial: seq<Rule>, i: nat)
    requires SetOK(u, rules, reserved, UnchangedOf(rules, before)) && i < |rules|
    requires forall b <- before :: ValidOrInitial(u, b, initial)
    ensures ValidOrInitial(u, rules[i], initial)
  {
    var r, skip := rules[i], UnchangedOf(rules, before);
    assert RowOK(u, rules, i, reserved, skip);
    if r.id in skip {
      SetIsDisjoint(u, rules, reserved, skip);
      SkippedRowIsUnchanged(rules, before, i);
      SameAsInitial(u, LastWith(before, r.id).value, r, initial);
    }
  }

  /** A row of the batch that is valid, or stored before with that ID up to empty source lists. */
  ghost predicate ValidOrStored(u: Tables, r: Rule, before: seq<Rule>) {
    WellFormed(u, r) || exists b <- before :: b.id == r.id && Normal(b) == Normal(r)
  }

  /** With repeated IDs, the row that counts is the last one. */
  lemma {:induction false} LastWithIsLast(rules: seq<Rule>, id: string)
    ensures LastWith(rules, id).None? <==> forall r <- rules :: r.id != id
    ensures LastWith(rules, id).Some? ==>
              exists i :: 0 <= i < |rules| && rules[i] == LastWith(rules, id).value
                          && forall j | i < j < |rules| :: rules[j].id != id
    decreases |rules|
  {
    if rules != [] {
      var n := |rules| - 1;
      assert rules == rules[..n] + [rules[n]];
      LastWithIsLast(rules[..n], id);
    }
  }

  lemma {:induction false} LastWithFinds(rules: seq<Rule>, r: Rule)
    requires UniqueIDs(rules) && r in rules
    ensures LastWith(rules, r.id) == Some(r)
    decreases |rules|
  {
    var n := |rules| - 1;
    var i :| 0 <= i < |rules| && rules[i] == r;
    if i < n {
      assert rules[..n][i] == r;
      LastWithFinds(rules[..n], r);
    }
  }

  lemma StoredIsUnchanged(before: seq<Rule>, r: Rule)
    requires UniqueIDs(before)
    ensures Unchanged(r, before) <==> exists b <- before :: b.id == r.id && Normal(b) == Normal(r)
  {
    if b :| b in before && b.id == r.id && Normal(b) == Normal(r) {
      LastWithFinds(before, b);
    }
  }

  lemma OrderedOverlap(a: PortRange, b: PortRange)
    requires a.lo <= a.hi && b.lo <= b.hi
    ensures a.Overlaps(b) <==> exists p: uint16 :: a.Contains(p) && b.Contains(p)
  {
    if a.Overlaps(b) {
      var p := Max(a.lo, b.lo);
      assert a.Contains(p) && b.Contains(p);
    }
  }

  /** The constraints between the rows of a set, port by port. */
  predicate Apart(rules: seq<Rule>, reserved: Reserved) {
    UniqueIDs(rules) && OneRulePerPort(rules) && NothingReserved(rules, reserved)
  }

  lemma ApartRow(u: Tables, rules: seq<Rule>, before: seq<Rule>, reserved: Reserved, i: nat)
    requires Apart(rules, reserved) && UniqueIDs(before) && i < |rules| && ValidOrStored(u, rules[i], before)
    requires forall r <- rules :: r.listenPort.lo <= r.listenPort.hi
    ensures RowOK(u, rules, i, reserved, UnchangedOf(rules, before))
  {
    hide WellFormed;
    StoredIsUnchanged(before, rules[i]);
    forall j | 0 <= j < i && rules[j].proto == rules[i].proto
      ensures !rules[j].listenPort.Overlaps(rules[i].listenPort)
    {
      OrderedOverlap(rules[j].listenPort, rules[i].listenPort);
    }
  }

  /**
    A batch is accepted if and only if its IDs are unique, no port has two rules of a protocol or is reserved,
    every row is valid or was stored before, and no agent gets over its limit: a stored row that later
    constraints would refuse stops no batch.
   */
  lemma AcceptsIff(u: Tables, rules: seq<Rule>, before: seq<Rule>, reserved: Reserved)
    requires UniqueIDs(before) && forall r <- rules :: r.listenPort.lo <= r.listenPort.hi
    ensures Accepts(u, rules, before, reserved) <==>
            && Apart(rules, reserved) && (forall r <- rules :: ValidOrStored(u, r, before))
            && CountsOK(rules, before)
  {
    hide WellFormed;
    var skip := UnchangedOf(rules, before);
    if SetOK(u, rules, reserved, skip) {
      SetIsDisjoint(u, rules, reserved, skip);
      forall r | r in rules ensures ValidOrStored(u, r, before) {
        var i :| 0 <= i < |rules| && rules[i] == r;
        assert RowOK(u, rules, i, reserved, skip);
        if r.id in skip {
          SkippedRowIsUnchanged(rules, before, i);
          StoredIsUnchanged(before, r);
        }
      }
    } else if Apart(rules, reserved) && forall r <- rules :: ValidOrStored(u, r, before) {
      forall i | 0 <= i < |rules| ensures RowOK(u, rules, i, reserved, skip) {
        ApartRow(u, rules, before, reserved, i);
      }
    }
  }

  ghost predicate Batches(u: Tables, sets: seq<seq<Rule>>, reserved: Reserved) {
    forall k | 0 < k < |sets| :: Accepts(u, sets[k], sets[k - 1], reserved)
  }

  /**
    After any run of accepted batches: IDs are unique, at most one rule takes each port, none takes a
    reserved one, every rule is valid or was in the initial set, and no agent has more rules than the
    larger of the limit and what it had at first.
   */
  lemma {:induction false} RunKeeps(u: Tables, sets: seq<seq<Rule>>, reserved: Reserved, k: nat)
    requires Batches(u, sets, reserved) && k < |sets|
    ensures k > 0 ==> UniqueIDs(sets[k]) && OneRulePerPort(sets[k]) && NothingReserved(sets[k], reserved)
    ensures forall r <- sets[k] :: ValidOrInitial(u, r, sets[0])
    ensures forall a :: Count(sets[k], a) <= Max(512, Count(sets[0], a))
    decreases k
  {
    if k > 0 {
      RunKeeps(u, sets, reserved, k - 1);
      assert Accepts(u, sets[k], sets[k - 1], reserved);
      SetIsDisjoint(u, sets[k], reserved, UnchangedOf(sets[k], sets[k - 1]));
      forall i | 0 <= i < |sets[k]| ensures ValidOrInitial(u, sets[k][i], sets[0]) {
        AcceptedRow(u, sets[k], sets[k - 1], reserved, sets[0], i);
      }
    }
  }
}
