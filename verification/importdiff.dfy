/** The difference between the current rules and the rules to import, and what an import makes of it. */
module ImportDiff {
  import opened Wrappers
  import opened Decimal
  import opened RuleTypes
  import opened Targets
  import opened Rules
  import opened RuleSets
  import opened SplitMerge

  // ----- What differs between two rules -----

  function BoolText(b: bool): string {
    if b then "true" else "false"
  }

  /** Rate.String, empty for no rate. */
  function RateText(r: Option<Rate>): string {
    if r.None? then "" else Itoa(r.value.count) + "/" + r.value.unit
  }

  function Display(u: Tables, r: Rule): string {
    TargetDisplay(u, r.listenPort, r.target)
  }

  /** No field is shown differently: texts are compared as printed, source lists as sets. */
  predicate ShownAlike(u: Tables, a: Rule, b: Rule) {
    && a.agent == b.agent && a.group == b.group && a.note == b.note && a.proto == b.proto
    && RangeText(a.listenPort) == RangeText(b.listenPort) && Display(u, a) == Display(u, b)
    && a.mode == b.mode && BoolText(a.proxyProtocol) == BoolText(b.proxyProtocol)
    && Elements(a.deny) == Elements(b.deny) && Elements(a.allow) == Elements(b.allow)
    && RateText(a.newFlowRate) == RateText(b.newFlowRate) && RateText(a.packetRate) == RateText(b.packetRate)
    && RateText(a.perSourceRate) == RateText(b.perSourceRate) && BoolText(a.enabled) == BoolText(b.enabled)
  }

  datatype Field =
    | AgentField | GroupField | NoteField | ProtoField | ListenPortField | TargetField | ModeField
    | ProxyProtocolField | DenyField | AllowField | NewFlowRateField | PacketRateField | PerSourceRateField
    | EnabledField

  function Named(field: Field, differs: bool): seq<Field> {
    if differs then [field] else []
  }

  /** The fields up to the mode that are shown differently. */
  function FirstChanges(u: Tables, a: Rule, b: Rule): seq<Field> {
    Named(AgentField, a.agent != b.agent)
    + Named(GroupField, a.group != b.group)
    + Named(NoteField, a.note != b.note)
    + Named(ProtoField, a.proto != b.proto)
    + Named(ListenPortField, RangeText(a.listenPort) != RangeText(b.listenPort))
    + Named(TargetField, Display(u, a) != Display(u, b))
    + Named(ModeField, a.mode != b.mode)
  }

  /** fieldChanges: the names of the fields that are shown differently, in order. */
  function ChangedFields(u: Tables, a: Rule, b: Rule): seq<Field> {
    FirstChanges(u, a, b)
    + Named(ProxyProtocolField, BoolText(a.proxyProtocol) != BoolText(b.proxyProtocol))
    + Named(DenyField, Elements(a.deny) != Elements(b.deny))
    + Named(AllowField, Elements(a.allow) != Elements(b.allow))
    + Named(NewFlowRateField, RateText(a.newFlowRate) != RateText(b.newFlowRate))
    + Named(PacketRateField, RateText(a.packetRate) != RateText(b.packetRate))
    + Named(PerSourceRateField, RateText(a.perSourceRate) != RateText(b.perSourceRate))
    + Named(EnabledField, BoolText(a.enabled) != BoolText(b.enabled))
  }

  method Add(out: seq<Field>, field: Field, was: string, now: string) returns (more: seq<Field>)
    ensures more == out + Named(field, was != now)
  {
    more := if was != now then out + [field] else out;
  }

  method FieldChanges(u: Tables, prev: Rule, next: Rule) returns (out: seq<Field>)
    ensures out == ChangedFields(u, prev, next)
  {
    hide RangeText, Display, BoolText, Elements, RateText, Named;
    out := [];
    out := Add(out, AgentField, prev.agent, next.agent);
    assert out == Named(AgentField, prev.agent != next.agent);
    out := Add(out, GroupField, prev.group, next.group);
    out := Add(out, NoteField, prev.note, next.note);
    out := Add(out, ProtoField, prev.proto, next.proto);
    out := Add(out, ListenPortField, RangeText(prev.listenPort), RangeText(next.listenPort));
    out := Add(out, TargetField, Display(u, prev), Display(u, next));
    out := Add(out, ModeField, prev.mode, next.mode);
    out := Add(out, ProxyProtocolField, BoolText(prev.proxyProtocol), BoolText(next.proxyProtocol));
    out := AddSources(out, DenyField, prev.deny, next.deny);
    out := AddSources(out, AllowField, prev.allow, next.allow);
    out := Add(out, NewFlowRateField, RateText(prev.newFlowRate), RateText(next.newFlowRate));
    out := Add(out, PacketRateField, RateText(prev.packetRate), RateText(next.packetRate));
    out := Add(out, PerSourceRateField, RateText(prev.perSourceRate), RateText(next.perSourceRate));
    out := Add(out, EnabledField, BoolText(prev.enabled), BoolText(next.enabled));
  }

  method AddSources(out: seq<Field>, field: Field, was: Sources, now: Sources) returns (more: seq<Field>)
    ensures more == out + Named(field, Elements(was) != Elements(now))
  {
    var same := EqualPrefixSet(Listed(was), Listed(now));
    more := if !same then out + [field] else out;
  }

  lemma NoChangesMeansAlike(u: Tables, a: Rule, b: Rule)
    ensures ChangedFields(u, a, b) == [] <==> ShownAlike(u, a, b)
  {
    hide RangeText, Display, BoolText, Elements, RateText;
  }

  lemma BoolTextInjective(a: bool, b: bool)
    ensures BoolText(a) == BoolText(b) <==> a == b
  {
    assert "true"[0] != "false"[0];
  }

  /** The two rules differ in what the field shows. */
  predicate DiffersIn(u: Tables, a: Rule, b: Rule, f: Field) {
    match f
    case AgentField => a.agent != b.agent
    case GroupField => a.group != b.group
    case NoteField => a.note != b.note
    case ProtoField => a.proto != b.proto
    case ListenPortField => a.listenPort != b.listenPort
    case TargetField => Display(u, a) != Display(u, b)
    case ModeField => a.mode != b.mode
    case ProxyProtocolField => a.proxyProtocol != b.proxyProtocol
    case DenyField => Elements(a.deny) != Elements(b.deny)
    case AllowField => Elements(a.allow) != Elements(b.allow)
    case NewFlowRateField => a.newFlowRate != b.newFlowRate
    case PacketRateField => a.packetRate != b.packetRate
    case PerSourceRateField => a.perSourceRate != b.perSourceRate
    case EnabledField => a.enabled != b.enabled
  }

  function Rank(f: Field): nat {
    match f
    case AgentField => 0
    case GroupField => 1
    case NoteField => 2
    case ProtoField => 3
    case ListenPortField => 4
    case TargetField => 5
    case ModeField => 6
    case ProxyProtocolField => 7
    case DenyField => 8
    case AllowField => 9
    case NewFlowRateField => 10
    case PacketRateField => 11
    case PerSourceRateField => 12
    case EnabledField => 13
  }

  lemma Ranks()
    ensures Rank(AgentField) == 0 && Rank(GroupField) == 1 && Rank(NoteField) == 2 && Rank(ProtoField) == 3
    ensures Rank(ListenPortField) == 4 && Rank(TargetField) == 5 && Rank(ModeField) == 6
    ensures Rank(ProxyProtocolField) == 7
    ensures Rank(DenyField) == 8 && Rank(AllowField) == 9 && Rank(NewFlowRateField) == 10 && Rank(PacketRateField) == 11
    ensures Rank(PerSourceRateField) == 12 && Rank(EnabledField) == 13
  {
  }

  predicate InOrder(fs: seq<Field>) {
    forall i, j | 0 <= i < j < |fs| :: Rank(fs[i]) < Rank(fs[j])
  }

  /** fs are, in order, the fields before rank k in which the two rules differ. */
  ghost predicate ListedTo(u: Tables, a: Rule, b: Rule, fs: seq<Field>, k: nat) {
    InOrder(fs) && forall f :: f in fs <==> Rank(f) < k && DiffersIn(u, a, b, f)
  }

  lemma ListedNext(u: Tables, a: Rule, b: Rule, fs: seq<Field>, g: Field, differs: bool)
    requires ListedTo(u, a, b, fs, Rank(g)) && differs == DiffersIn(u, a, b, g)
    ensures ListedTo(u, a, b, fs + Named(g, differs), Rank(g) + 1)
  {
    hide DiffersIn, Rank;
    var more := fs + Named(g, differs);
    forall f ensures f in more <==> Rank(f) < Rank(g) + 1 && DiffersIn(u, a, b, f) {
      RankInjective(f, g);
      assert f in more <==> f in fs || f in Named(g, differs);
    }
    forall i, j | 0 <= i < j < |more| ensures Rank(more[i]) < Rank(more[j]) {
      assert i < |fs| && more[i] in fs;
    }
  }

  lemma RankInjective(f: Field, g: Field)
    ensures Rank(f) == Rank(g) ==> f == g
  {
  }

  /** What is compared as text differs exactly when the values do. */
  lemma FirstDifferences(u: Tables, a: Rule, b: Rule)
    ensures DiffersIn(u, a, b, AgentField) == (a.agent != b.agent)
    ensures DiffersIn(u, a, b, GroupField) == (a.group != b.group)
    ensures DiffersIn(u, a, b, NoteField) == (a.note != b.note)
    ensures DiffersIn(u, a, b, ProtoField) == (a.proto != b.proto)
    ensures DiffersIn(u, a, b, ListenPortField) == (RangeText(a.listenPort) != RangeText(b.listenPort))
    ensures DiffersIn(u, a, b, TargetField) == (Display(u, a) != Display(u, b))
    ensures DiffersIn(u, a, b, ModeField) == (a.mode != b.mode)
  {
    hide RangeText, Display;
    RangesCompared(a.listenPort, b.listenPort);
  }

  lemma LastDifferences(u: Tables, a: Rule, b: Rule)
    ensures DiffersIn(u, a, b, ProxyProtocolField) == (BoolText(a.proxyProtocol) != BoolText(b.proxyProtocol))
    ensures DiffersIn(u, a, b, DenyField) == (Elements(a.deny) != Elements(b.deny))
    ensures DiffersIn(u, a, b, AllowField) == (Elements(a.allow) != Elements(b.allow))
    ensures DiffersIn(u, a, b, NewFlowRateField) == (RateText(a.newFlowRate) != RateText(b.newFlowRate))
    ensures DiffersIn(u, a, b, PacketRateField) == (RateText(a.packetRate) != RateText(b.packetRate))
    ensures DiffersIn(u, a, b, PerSourceRateField) == (RateText(a.perSourceRate) != RateText(b.perSourceRate))
    ensures DiffersIn(u, a, b, EnabledField) == (BoolText(a.enabled) != BoolText(b.enabled))
  {
    hide BoolText, Elements, RateText;
    BoolTextInjective(a.proxyProtocol, b.proxyProtocol);
    BoolTextInjective(a.enabled, b.enabled);
    RatesCompared(a.newFlowRate, b.newFlowRate);
    RatesCompared(a.packetRate, b.packetRate);
    RatesCompared(a.perSourceRate, b.perSourceRate);
  }

  lemma FirstListed(u: Tables, a: Rule, b: Rule)
    ensures ListedTo(u, a, b, FirstChanges(u, a, b), 7)
  {
    hide RangeText, Display, BoolText, Elements, RateText, Named, ListedTo, InOrder, DiffersIn, Rank;
    Ranks();
    FirstDifferences(u, a, b);
    NothingListed(u, a, b);
    var fs := ListedOne(u, a, b, [], AgentField, a.agent != b.agent);
    assert fs == Named(AgentField, a.agent != b.agent);
    fs := ListedOne(u, a, b, fs, GroupField, a.group != b.group);
    fs := ListedOne(u, a, b, fs, NoteField, a.note != b.note);
    fs := ListedOne(u, a, b, fs, ProtoField, a.proto != b.proto);
    fs := ListedOne(u, a, b, fs, ListenPortField, RangeText(a.listenPort) != RangeText(b.listenPort));
    fs := ListedOne(u, a, b, fs, TargetField, Display(u, a) != Display(u, b));
    fs := ListedOne(u, a, b, fs, ModeField, a.mode != b.mode);
  }

  lemma LastListed(u: Tables, a: Rule, b: Rule, before: seq<Field>)
    requires ListedTo(u, a, b, before, 10)
    ensures ListedTo(u, a, b, before
              + Named(NewFlowRateField, RateText(a.newFlowRate) != RateText(b.newFlowRate))
              + Named(PacketRateField, RateText(a.packetRate) != RateText(b.packetRate))
              + Named(PerSourceRateField, RateText(a.perSourceRate) != RateText(b.perSourceRate))
              + Named(EnabledField, BoolText(a.enabled) != BoolText(b.enabled)), 14)
  {
    hide RangeText, Display, BoolText, Elements, RateText, Named, ListedTo, InOrder, DiffersIn, Rank;
    Ranks();
    LastDifferences(u, a, b);
    var fs := ListedOne(u, a, b, before, NewFlowRateField, RateText(a.newFlowRate) != RateText(b.newFlowRate));
    fs := ListedOne(u, a, b, fs, PacketRateField, RateText(a.packetRate) != RateText(b.packetRate));
    fs := ListedOne(u, a, b, fs, PerSourceRateField, RateText(a.perSourceRate) != RateText(b.perSourceRate));
    fs := ListedOne(u, a, b, fs, EnabledField, BoolText(a.enabled) != BoolText(b.enabled));
  }

  lemma AllListed(u: Tables, a: Rule, b: Rule)
    ensures ListedTo(u, a, b, ChangedFields(u, a, b), 14)
  {
    hide RangeText, Display, BoolText, Elements, RateText, Named, ListedTo, InOrder, DiffersIn, FirstChanges, Rank;
    Ranks();
    LastDifferences(u, a, b);
    FirstListed(u, a, b);
    var fs := FirstChanges(u, a, b);
    fs := ListedOne(u, a, b, fs, ProxyProtocolField, BoolText(a.proxyProtocol) != BoolText(b.proxyProtocol));
    fs := ListedOne(u, a, b, fs, DenyField, Elements(a.deny) != Elements(b.deny));
    fs := ListedOne(u, a, b, fs, AllowField, Elements(a.allow) != Elements(b.allow));
    LastListed(u, a, b, fs);
  }

  lemma ListedOne(u: Tables, a: Rule, b: Rule, fs: seq<Field>, g: Field, differs: bool) returns (more: seq<Field>)
    requires ListedTo(u, a, b, fs, Rank(g)) && differs == DiffersIn(u, a, b, g)
    ensures more == fs + Named(g, differs)
    ensures ListedTo(u, a, b, more, Rank(g) + 1)
  {
    ListedNext(u, a, b, fs, g, differs);
    more := fs + Named(g, differs);
  }

  /** A field is listed if and only if the two rules differ in it, and the fields are listed in order. */
  lemma FieldsListed(u: Tables, a: Rule, b: Rule, f: Field)
    ensures f in ChangedFields(u, a, b) <==> DiffersIn(u, a, b, f)
    ensures InOrder(ChangedFields(u, a, b))
  {
    hide DiffersIn, ChangedFields;
    AllListed(u, a, b);
  }

  lemma RangesCompared(a: PortRange, b: PortRange)
    ensures RangeText(a) == RangeText(b) <==> a == b
  {
    hide RangeText;
    if RangeText(a) == RangeText(b) {
      RangeTextInjective(a, b);
    }
  }

  lemma NothingListed(u: Tables, a: Rule, b: Rule)
    ensures ListedTo(u, a, b, [], 0)
  {
  }

  lemma RatesCompared(a: Option<Rate>, b: Option<Rate>)
    ensures RateText(a) == RateText(b) <==> a == b
  {
    hide RateText;
    if RateText(a) == RateText(b) {
      RateTextInjective(a, b);
    }
  }

  lemma RateTextInjective(a: Option<Rate>, b: Option<Rate>)
    requires RateText(a) == RateText(b)
    ensures a == b
  {
    if a.Some? && b.Some? {
      var (m, n) := (Itoa(a.value.count), Itoa(b.value.count));
      DigitsArePlain(m);
      DigitsArePlain(n);
      IndexIs(m, '/', a.value.unit);
      IndexIs(n, '/', b.value.unit);
      assert RateText(a)[..|m|] == m && RateText(b)[..|n|] == n;
      assert RateText(a)[|m| + 1..] == a.value.unit && RateText(b)[|n| + 1..] == b.value.unit;
      ItoaInjective(a.value.count, b.value.count);
    }
  }

  /** Rules that are shown alike are the same rule up to ID, source list order and the target's spelling. */
  lemma AlikeMeansSame(u: Tables, a: Rule, b: Rule)
    requires ShownAlike(u, a, b)
    ensures a == b.(id := a.id, target := a.target, allow := a.allow, deny := a.deny)
    ensures Elements(a.allow) == Elements(b.allow) && Elements(a.deny) == Elements(b.deny)
  {
    hide Display, RangeText, RateText;
    RangeTextInjective(a.listenPort, b.listenPort);
    RateTextInjective(a.newFlowRate, b.newFlowRate);
    RateTextInjective(a.packetRate, b.packetRate);
    RateTextInjective(a.perSourceRate, b.perSourceRate);
    assert "true"[0] != "false"[0];
  }

  predicate ForwardAlike(u: Tables, a: Rule, b: Rule) {
    && a.proto == b.proto && a.listenPort == b.listenPort
    && forall p: uint16 | a.listenPort.Contains(p) :: ForwardOf(u, a, p) == ForwardOf(u, b, p)
  }

  lemma AlikeTargets(u: Tables, range: PortRange, t: string, t': string)
    requires Ordered(range) && TargetDisplay(u, range, t) == TargetDisplay(u, range, t')
    requires SplitTarget(u, t).Some? <==> SplitTarget(u, t').Some?
    ensures SplitTarget(u, t) == SplitTarget(u, t')
  {
    hide SplitTarget, TargetDisplay;
    if SplitTarget(u, t).Some? {
      DisplayInjective(u, range, t, t');
    }
  }

  /**
    Two rules an import shows as unchanged forward every port alike, exactly when both targets are
    well formed or neither is.
   */
  lemma UnchangedForwardsAlike(u: Tables, a: Rule, b: Rule)
    requires Ordered(a.listenPort) && ChangedFields(u, a, b) == []
    ensures ForwardAlike(u, a, b) <==> (SplitTarget(u, a.target).Some? <==> SplitTarget(u, b.target).Some?)
  {
    hide SplitTarget, TargetDisplay, ChangedFields, RangeText, RateText, JoinHostPort, Itoa;
    NoChangesMeansAlike(u, a, b);
    AlikeMeansSame(u, a, b);
    if SplitTarget(u, a.target).Some? <==> SplitTarget(u, b.target).Some? {
      AlikeTargets(u, a.listenPort, a.target, b.target);
    } else {
      var lo := a.listenPort.lo;
      assert EffectiveTarget(u, ForAgent(a), lo) != EffectiveTarget(u, ForAgent(b), lo);
      assert ForwardOf(u, a, lo) != ForwardOf(u, b, lo);
    }
  }

  /** A target that is not one can be shown like one that is, and then unchanged does not mean alike. */
  lemma BadTargetShownAlike(u: Tables, a: Rule, b: Rule)
    requires !u.ipv6("h") && a.listenPort == PortRange(1, 11) && a.target == "h:80-90" && b == a.(target := "h:80")
    ensures ChangedFields(u, a, b) == [] && !ForwardAlike(u, a, b)
  {
    BadTargets(u);
    NoChangesMeansAlike(u, a, b);
    UnchangedForwardsAlike(u, a, b);
  }

  lemma SmallNumbers()
    ensures Itoa(80) == "80" && Itoa(90) == "90"
  {
  }

  lemma GoodTarget(u: Tables)
    requires !u.ipv6("h")
    ensures SplitTarget(u, "h:80") == Some(("h", 80)) && JoinHostPort("h", "80") == "h:80"
  {
    hide SplitHostPort, Itoa;
    SmallNumbers();
    SplitOfBare("h", "80");
    ParseUndoesItoa(80, MAX_PORT);
    assert "h:80" == "h" + ":" + "80";
  }

  lemma RangeIsNoPort(u: Tables)
    ensures SplitTarget(u, "h:80-90").None?
  {
    hide SplitHostPort;
    assert PlainPort("80-90") && !IsDigit("80-90"[2]);
    SplitOfBare("h", "80-90");
    assert "h:80-90" == "h" + ":" + "80-90";
  }

  lemma BadTargets(u: Tables)
    requires !u.ipv6("h")
    ensures SplitTarget(u, "h:80") == Some(("h", 80)) && SplitTarget(u, "h:80-90").None?
    ensures TargetDisplay(u, PortRange(1, 11), "h:80") == "h:80-90"
  {
    hide SplitTarget, JoinHostPort, Itoa;
    SmallNumbers();
    GoodTarget(u);
    RangeIsNoPort(u);
    assert "h:80" + "-" + "90" == "h:80-90";
  }

  // ----- The diff -----

  datatype Kind = Added | Changed | Deleted | Unchanged

  /** One row: the imported rule, or the current one when it is deleted. */
  datatype Change = Change(kind: Kind, rule: Rule, previous: Option<Rule>, fields: seq<Field>)

  predicate HasID(rules: seq<Rule>, id: string) {
    exists i :: 0 <= i < |rules| && rules[i].id == id
  }

  function RowFor(u: Tables, current: seq<Rule>, d: Rule): Change {
    match LastWith(current, d.id)
    case None => Change(Added, d, None, [])
    case Some(c) =>
      var fields := ChangedFields(u, c, d);
      if fields == [] then Change(Unchanged, d, None, []) else Change(Changed, d, Some(c), fields)
  }

  function ImportRows(u: Tables, current: seq<Rule>, desired: seq<Rule>): (rows: seq<Change>)
    ensures |rows| == |desired| && forall i | 0 <= i < |rows| :: rows[i] == RowFor(u, current, desired[i])
  {
    if desired == [] then []
    else var n := |desired| - 1; ImportRows(u, current, desired[..n]) + [RowFor(u, current, desired[n])]
  }

  function DeleteRows(current: seq<Rule>, desired: seq<Rule>): seq<Change> {
    if current == [] then []
    else
      var n := |current| - 1;
      DeleteRows(current[..n], desired)
      + if HasID(desired, current[n].id) then [] else [Change(Deleted, current[n], None, [])]
  }

  function Diff(u: Tables, current: seq<Rule>, desired: seq<Rule>): seq<Change> {
    ImportRows(u, current, desired) + DeleteRows(current, desired)
  }

  method IndexByID(rules: seq<Rule>) returns (byID: map<string, Rule>)
    ensures forall id :: id in byID <==> LastWith(rules, id).Some?
    ensures forall id <- byID :: byID[id] == LastWith(rules, id).value
  {
    byID := map[];
    for i := 0 to |rules|
      invariant forall id :: id in byID <==> LastWith(rules[..i], id).Some?
      invariant forall id <- byID :: byID[id] == LastWith(rules[..i], id).value
    {
      assert rules[..i + 1][..i] == rules[..i];
      byID := byID[rules[i].id := rules[i]];
    }
    assert rules[..|rules|] == rules;
  }

  method MakeRow(u: Tables, current: seq<Rule>, byID: map<string, Rule>, d: Rule) returns (row: Change)
    requires d.id in byID <==> LastWith(current, d.id).Some?
    requires d.id in byID ==> byID[d.id] == LastWith(current, d.id).value
    ensures row == RowFor(u, current, d)
  {
    hide ChangedFields;
    if d.id !in byID {
      return Change(Added, d, None, []);
    }
    var fields := FieldChanges(u, byID[d.id], d);
    row := if |fields| > 0 then Change(Changed, d, Some(byID[d.id]), fields) else Change(Unchanged, d, None, []);
  }

  method DiffRules(u: Tables, current: seq<Rule>, desired: seq<Rule>) returns (out: seq<Change>)
    ensures out == Diff(u, current, desired)
  {
    hide RowFor;
    var byID := IndexByID(current);
    var seen: set<string> := {};
    out := [];
    for i := 0 to |desired|
      invariant out == ImportRows(u, current, desired[..i])
      invariant forall id :: id in seen <==> HasID(desired[..i], id)
    {
      assert desired[..i + 1][..i] == desired[..i];
      HasIDNext(desired, i);
      seen := seen + {desired[i].id};
      var row := MakeRow(u, current, byID, desired[i]);
      out := out + [row];
    }
    assert desired[..|desired|] == desired;
    ghost var rows := out;
    for i := 0 to |current|
      invariant out == rows + DeleteRows(current[..i], desired)
    {
      assert current[..i + 1][..i] == current[..i];
      if current[i].id !in seen {
        out := out + [Change(Deleted, current[i], None, [])];
      }
    }
    assert current[..|current|] == current;
  }

  lemma HasIDNext(rules: seq<Rule>, i: nat)
    requires i < |rules|
    ensures forall id :: HasID(rules[..i + 1], id) <==> HasID(rules[..i], id) || id == rules[i].id
  {
    assert rules[..i + 1] == rules[..i] + [rules[i]];
    assert (rules[..i] + [rules[i]])[i] == rules[i];
    forall id | HasID(rules[..i], id) ensures HasID(rules[..i + 1], id) {
      var j :| 0 <= j < i && rules[..i][j].id == id;
      assert rules[..i + 1][j].id == id;
    }
    forall id | HasID(rules[..i + 1], id) ensures HasID(rules[..i], id) || id == rules[i].id {
      var j :| 0 <= j < i + 1 && rules[..i + 1][j].id == id;
      assert j < i ==> rules[..i][j].id == id;
    }
  }

  /** A rule of current with d's ID, shown like d or not. */
  predicate Stored(u: Tables, current: seq<Rule>, d: Rule, c: Rule, alike: bool) {
    c in current && c.id == d.id && ShownAlike(u, c, d) == alike
  }

  /**
    The row of an imported rule: added if and only if no current rule has its ID, unchanged if and only if the
    one that has is shown alike, and otherwise changed from that one, with the fields in which they differ.
   */
  lemma RowKinds(u: Tables, current: seq<Rule>, desired: seq<Rule>, i: nat)
    requires UniqueIDs(current) && i < |desired|
    ensures var row, d := Diff(u, current, desired)[i], desired[i];
            && row.rule == d
            && (row.kind.Added? <==> !HasID(current, d.id))
            && (row.kind.Unchanged? <==> exists c :: Stored(u, current, d, c, true))
            && (row.kind.Changed? <==> exists c :: Stored(u, current, d, c, false))
            && (row.kind.Changed? ==>
                  row.previous.Some? && Stored(u, current, d, row.previous.value, false)
                  && forall f :: f in row.fields <==> DiffersIn(u, row.previous.value, d, f))
  {
    hide ChangedFields, ShownAlike, DiffersIn;
    var d := desired[i];
    assert Diff(u, current, desired)[i] == RowFor(u, current, d);
    if HasID(current, d.id) {
      var k :| 0 <= k < |current| && current[k].id == d.id;
      var c := current[k];
      LastWithFinds(current, c);
      NoChangesMeansAlike(u, c, d);
      assert Stored(u, current, d, c, ShownAlike(u, c, d));
      forall c' | c' in current && c'.id == d.id ensures c' == c {
        LastWithFinds(current, c');
      }
      forall f ensures f in ChangedFields(u, c, d) <==> DiffersIn(u, c, d, f) {
        FieldsListed(u, c, d, f);
      }
    }
  }

  // ----- What an import does -----

  /** DeletedIDs: the IDs of the rows that are deleted. */
  function DeletedOf(diff: seq<Change>): seq<string> {
    if diff == [] then []
    else var n := |diff| - 1; DeletedOf(diff[..n]) + if diff[n].kind.Deleted? then [diff[n].rule.id] else []
  }

  method DeletedIDs(diff: seq<Change>) returns (out: seq<string>)
    ensures out == DeletedOf(diff)
  {
    out := [];
    for i := 0 to |diff|
      invariant out == DeletedOf(diff[..i])
    {
      assert diff[..i + 1][..i] == diff[..i];
      if diff[i].kind.Deleted? {
        out := out + [diff[i].rule.id];
      }
    }
    assert diff[..|diff|] == diff;
  }

  lemma {:induction false} DeletedMembers(diff: seq<Change>, id: string)
    ensures id in DeletedOf(diff) <==> exists i :: 0 <= i < |diff| && diff[i].kind.Deleted? && diff[i].rule.id == id
    decreases |diff|
  {
    if diff != [] {
      DeletedMembers(diff[..|diff| - 1], id);
    }
  }

  lemma {:induction false} DeleteRowsMembers(current: seq<Rule>, desired: seq<Rule>, c: Change)
    ensures c in DeleteRows(current, desired) <==>
            c == Change(Deleted, c.rule, None, []) && c.rule in current && !HasID(desired, c.rule.id)
    decreases |current|
  {
    if current != [] {
      var n := |current| - 1;
      DeleteRowsMembers(current[..n], desired, c);
      assert current == current[..n] + [current[n]];
    }
  }

  /** The rules by ID. */
  function ByID(rules: seq<Rule>): (m: map<string, Rule>)
    ensures forall id :: id in m <==> HasID(rules, id)
  {
    if rules == [] then map[]
    else
      var n := |rules| - 1;
      HasIDNext(rules, n);
      assert rules[..n + 1] == rules;
      ByID(rules[..n])[rules[n].id := rules[n]]
  }

  /** An ID is deleted exactly when the current rules have it and the imported ones do not. */
  lemma DeletedExactly(u: Tables, current: seq<Rule>, desired: seq<Rule>, id: string)
    ensures id in DeletedOf(Diff(u, current, desired)) <==> HasID(current, id) && !HasID(desired, id)
  {
    hide RowFor;
    var diff, n := Diff(u, current, desired), |desired|;
    DeletedMembers(diff, id);
    if id in DeletedOf(diff) {
      var i :| 0 <= i < |diff| && diff[i].kind.Deleted? && diff[i].rule.id == id;
      if i < n {
        ImportRowKind(u, current, desired[i]);
      } else {
        assert diff[i] in DeleteRows(current, desired);
        DeleteRowsMembers(current, desired, diff[i]);
      }
    }
    if HasID(current, id) && !HasID(desired, id) {
      var k :| 0 <= k < |current| && current[k].id == id;
      var c := Change(Deleted, current[k], None, []);
      DeleteRowsMembers(current, desired, c);
      var i :| 0 <= i < |DeleteRows(current, desired)| && DeleteRows(current, desired)[i] == c;
      assert diff[n + i] == c;
    }
  }

  lemma ImportRowKind(u: Tables, current: seq<Rule>, d: Rule)
    ensures !RowFor(u, current, d).kind.Deleted? && RowFor(u, current, d).rule == d
  {
    hide ChangedFields;
  }

  /** Deleting the deleted IDs and upserting the imported rules turns the current rules into the imported ones. */
  lemma ImportGivesDesired(u: Tables, current: seq<Rule>, desired: seq<Rule>)
    ensures var gone := set id | id in DeletedOf(Diff(u, current, desired));
            ByID(current) - gone + ByID(desired) == ByID(desired)
  {
    hide Diff;
    var gone := set id | id in DeletedOf(Diff(u, current, desired));
    forall id ensures id in ByID(current) - gone ==> id in ByID(desired) {
      DeletedExactly(u, current, desired, id);
    }
  }

  predicate HasRow(diff: seq<Change>, id: string) {
    exists i :: 0 <= i < |diff| && diff[i].rule.id == id
  }

  predicate UniqueRows(diff: seq<Change>) {
    forall i, j | 0 <= i < j < |diff| :: diff[i].rule.id != diff[j].rule.id
  }

  lemma {:induction false} DeleteRowsUnique(current: seq<Rule>, desired: seq<Rule>)
    requires UniqueIDs(current)
    ensures UniqueRows(DeleteRows(current, desired))
    decreases |current|
  {
    if current != [] {
      var n := |current| - 1;
      DeleteRowsUnique(current[..n], desired);
      var rows := DeleteRows(current[..n], desired);
      forall i | 0 <= i < |rows| ensures rows[i].rule.id != current[n].id {
        DeleteRowsMembers(current[..n], desired, rows[i]);
      }
    }
  }

  /** Each ID of either set is in exactly one row. */
  lemma OneRowPerID(u: Tables, current: seq<Rule>, desired: seq<Rule>)
    requires UniqueIDs(current) && UniqueIDs(desired)
    ensures UniqueRows(Diff(u, current, desired))
    ensures forall id :: HasRow(Diff(u, current, desired), id) <==> HasID(current, id) || HasID(desired, id)
  {
    hide RowFor;
    var diff, n := Diff(u, current, desired), |desired|;
    DeleteRowsUnique(current, desired);
    forall i | 0 <= i < |diff|
      ensures i < n ==> diff[i].rule == desired[i]
      ensures i >= n ==> diff[i].rule in current && !HasID(desired, diff[i].rule.id)
    {
      if i < n {
        ImportRowKind(u, current, desired[i]);
      } else {
        assert diff[i] in DeleteRows(current, desired);
        DeleteRowsMembers(current, desired, diff[i]);
      }
    }
    forall id | HasID(current, id) || HasID(desired, id)
      ensures HasRow(diff, id)
    {
      if HasID(desired, id) {
        var k :| 0 <= k < n && desired[k].id == id;
        assert diff[k].rule.id == id;
      } else {
        var k :| 0 <= k < |current| && current[k].id == id;
        var c := Change(Deleted, current[k], None, []);
        DeleteRowsMembers(current, desired, c);
        var i :| 0 <= i < |DeleteRows(current, desired)| && DeleteRows(current, desired)[i] == c;
        assert diff[n + i].rule.id == id;
      }
    }
  }

  /** An unchanged row of valid rules changes nothing: its current rule forwards every port like the imported one. */
  lemma UnchangedRowsForwardAlike(u: Tables, current: seq<Rule>, desired: seq<Rule>, i: nat)
    requires i < |desired| && Diff(u, current, desired)[i].kind.Unchanged?
    requires forall c <- current + desired :: Valid(u, c) && Ordered(c.listenPort)
    ensures exists c <- current :: c.id == desired[i].id && ForwardAlike(u, c, desired[i])
  {
    hide ChangedFields, ForwardAlike, Valid, Ordered, SplitTarget;
    var d := desired[i];
    assert Diff(u, current, desired)[i] == RowFor(u, current, d);
    var c := LastWith(current, d.id).value;
    assert c in current + desired && d in current + desired;
    ValidTarget(u, c);
    ValidTarget(u, d);
    UnchangedForwardsAlike(u, c, d);
  }
}
