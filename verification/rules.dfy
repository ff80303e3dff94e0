/** Port-forwarding rules: what makes one valid, and where it sends each port. */
module Rules {
  import opened Wrappers
  import opened Decimal
  import opened RuleTypes
  import opened Targets

  type uint64 = x: int | 0 <= x < 0x1_0000_0000_0000_0000

  datatype Prefix = V4(addr: nat, bits: nat) | V6(addr: nat, bits: nat) | InvalidPrefix

  datatype Rate = Rate(count: uint64, unit: string)

  const KERNEL := "kernel"
  const PROXY := "proxy"

  /** A source list; None is Go's nil slice. */
  type Sources = Option<seq<Prefix>>

  function Listed(s: Sources): seq<Prefix> {
    if s.None? then [] else s.value
  }

  datatype Rule = Rule(
    id: string, agent: string, group: string, note: string, proto: string, listenPort: PortRange, target: string,
    mode: string, proxyProtocol: bool, allow: Sources, deny: Sources,
    newFlowRate: Option<Rate>, packetRate: Option<Rate>, perSourceRate: Option<Rate>, enabled: bool)

  function ForAgent(r: Rule): AgentRule {
    AgentRule(r.id, r.proto, r.listenPort, r.target, r.enabled)
  }

  // ----- Validation of one rule -----

  const MAX_ID_LEN := 128
  const MAX_TARGET_LEN := 259

  datatype RuleErr =
    | EmptyID | DotID | IDTooLong | IDNotGraphic | EmptyAgent | DotAgent | BadProto | NoListenPort
    | TargetTooLong | TargetNotGraphic | BadTarget | PortsExceed | ProxyNotTCP | ProxyRange | BadMode
    | ProxyProtocolWithoutProxy | BadGroup | NoteTooLong | SourceNotIPv4

  /** The bytes of a character in UTF-8. */
  function RuneLen(c: char): nat {
    if c < 0x80 as char then 1 else if c < 0x800 as char then 2 else if c < 0x1_0000 as char then 3 else 4
  }

  function Utf8Len(s: string): nat {
    if s == [] then 0 else RuneLen(s[0]) + Utf8Len(s[1..])
  }

  predicate Graphic(u: Tables, c: char) {
    if c < 0x80 as char then ' ' <= c <= '~' else u.graphic(c)
  }

  predicate AllGraphic(u: Tables, s: string) {
    forall c <- s :: Graphic(u, c)
  }

  predicate IsDotSegment(s: string) {
    s == "." || s == ".."
  }

  predicate GroupChar(c: char) {
    'a' <= c <= 'z' || 'A' <= c <= 'Z' || '0' <= c <= '9' || c == '-' || c == '_' || c == '.'
  }

  predicate AllIPv4(ps: seq<Prefix>) {
    forall p <- ps :: p.V4?
  }

  function ValidateID(u: Tables, id: string): Option<RuleErr> {
    if id == "" then Some(EmptyID)
    else if IsDotSegment(id) then Some(DotID)
    else if Utf8Len(id) > MAX_ID_LEN then Some(IDTooLong)
    else if !AllGraphic(u, id) then Some(IDNotGraphic)
    else None
  }

  function ValidateTarget(u: Tables, range: PortRange, target: string): Option<RuleErr> {
    if Utf8Len(target) > MAX_TARGET_LEN then Some(TargetTooLong)
    else if !AllGraphic(u, target) then Some(TargetNotGraphic)
    else if SplitTarget(u, target).None? then Some(BadTarget)
    else if SplitTarget(u, target).value.1 + range.Len() - 1 > MAX_PORT then Some(PortsExceed)
    else None
  }

  function ValidateMode(r: Rule): Option<RuleErr> {
    if r.mode != KERNEL && r.mode != PROXY then Some(BadMode)
    else if r.mode == PROXY && r.proto != TCP then Some(ProxyNotTCP)
    else if r.mode == PROXY && r.listenPort.IsRange() then Some(ProxyRange)
    else if r.proxyProtocol && r.mode != PROXY then Some(ProxyProtocolWithoutProxy)
    else None
  }

  function ValidateLabels(r: Rule): Option<RuleErr> {
    if |r.group| > 32 || exists c <- r.group :: !GroupChar(c) then Some(BadGroup)
    else if |r.note| > 120 then Some(NoteTooLong)
    else if !AllIPv4(Listed(r.allow)) || !AllIPv4(Listed(r.deny)) then Some(SourceNotIPv4)
    else None
  }

  /** Rule.Validate: the first constraint a rule breaks. */
  function Validate(u: Tables, r: Rule): Option<RuleErr> {
    if ValidateID(u, r.id).Some? then ValidateID(u, r.id)
    else if r.agent == "" then Some(EmptyAgent)
    else if IsDotSegment(r.agent) then Some(DotAgent)
    else if r.proto != TCP && r.proto != UDP then Some(BadProto)
    else if r.listenPort.lo == 0 then Some(NoListenPort)
    else OrElse(ValidateTarget(u, r.listenPort, r.target), OrElse(ValidateMode(r), ValidateLabels(r)))
  }

  predicate Valid(u: Tables, r: Rule) {
    Validate(u, r).None?
  }

  // ----- Which rules are valid -----

  /** How many characters of s are c or beyond. */
  function Beyond(s: string, c: char): nat {
    if s == [] then 0 else (if s[0] >= c then 1 else 0) + Beyond(s[1..], c)
  }

  /** Each character takes a byte, and one more from each of U+0080, U+0800 and U+10000 on. */
  function ByteLength(s: string): nat {
    |s| + Beyond(s, 0x80 as char) + Beyond(s, 0x800 as char) + Beyond(s, 0x1_0000 as char)
  }

  /** At most n bytes of characters that can be printed. */
  predicate Printable(u: Tables, s: string, n: nat) {
    ByteLength(s) <= n && forall c <- s :: if c < 0x80 as char then 0x20 as char <= c < 0x7f as char else u.graphic(c)
  }

  predicate Addressable(name: string) {
    name != "" && name != "." && name != ".."
  }

  /** The target names a host that is not an IPv6 address and, in decimal, a port. */
  predicate TargetNames(u: Tables, target: string, host: string, port: string) {
    && Names(target, host, port) && host != "" && !u.ipv6(host)
    && port != "" && AllDigits(port) && 1 <= Value(port) <= 65535
  }

  /** A rule that meets every constraint on one rule. */
  ghost predicate WellFormed(u: Tables, r: Rule) {
    && Addressable(r.id) && Printable(u, r.id, 128) && Addressable(r.agent)
    && r.proto in {"tcp", "udp"} && r.listenPort.lo >= 1
    && Printable(u, r.target, 259) && ReachesAll(u, r.listenPort, r.target)
    && r.mode in {"kernel", "proxy"}
    && (r.mode == "proxy" ==> r.proto == "tcp" && r.listenPort.lo == r.listenPort.hi)
    && (r.proxyProtocol ==> r.mode == "proxy")
    && |r.group| <= 32 && (forall c <- r.group :: GroupChar(c)) && |r.note| <= 120
    && (forall p <- Listed(r.allow) + Listed(r.deny) :: p.V4?)
  }

  /** The target is one, and every port of the range leads to a port from it on. */
  ghost predicate ReachesAll(u: Tables, range: PortRange, target: string) {
    exists host, port ::
      && TargetNames(u, target, host, port)
      && forall p: uint16 | range.Contains(p) :: Value(port) + (p - range.lo) <= 65535
  }

  lemma {:induction false} ByteLengthIs(s: string)
    ensures Utf8Len(s) == ByteLength(s)
  {
    if s != [] {
      ByteLengthIs(s[1..]);
    }
  }

  lemma TargetIsNamed(u: Tables, target: string, host: string, n: nat)
    ensures SplitTarget(u, target) == Some((host, n)) <==>
            exists port :: TargetNames(u, target, host, port) && Value(port) == n
  {
    hide SplitHostPort, Names, Value;
    if SplitTarget(u, target) == Some((host, n)) {
      var port := SplitHostPort(target).value.1;
      SplitIsNames(target, host, port);
      assert TargetNames(u, target, host, port) && Value(port) == n;
    }
    if port :| TargetNames(u, target, host, port) && Value(port) == n {
      SplitIsNames(target, host, port);
    }
  }

  lemma ReachesAllIff(u: Tables, range: PortRange, target: string)
    ensures ReachesAll(u, range, target) <==>
            SplitTarget(u, target).Some? && SplitTarget(u, target).value.1 + range.Len() - 1 <= MAX_PORT
  {
    hide SplitTarget, Names, Value;
    if SplitTarget(u, target).Some? {
      var (host, n) := SplitTarget(u, target).value;
      TargetIsNamed(u, target, host, n);
      var port :| TargetNames(u, target, host, port) && Value(port) == n;
      if n + range.Len() - 1 <= MAX_PORT {
        assert forall p: uint16 | range.Contains(p) :: Value(port) + (p - range.lo) <= 65535;
      }
    }
    if ReachesAll(u, range, target) {
      var host, port :| TargetNames(u, target, host, port)
                        && forall p: uint16 | range.Contains(p) :: Value(port) + (p - range.lo) <= 65535;
      NamedIsTarget(u, target, host, port);
      if range.lo <= range.hi {
        assert range.Contains(range.hi);
      }
    }
  }

  lemma NamedIsTarget(u: Tables, target: string, host: string, port: string)
    requires TargetNames(u, target, host, port)
    ensures 1 <= Value(port) <= 65535 && SplitTarget(u, target) == Some((host, Value(port)))
  {
    TargetIsNamed(u, target, host, Value(port));
  }

  lemma PrintableIff(u: Tables, s: string, n: nat)
    ensures Printable(u, s, n) <==> Utf8Len(s) <= n && AllGraphic(u, s)
  {
    hide Utf8Len, ByteLength;
    ByteLengthIs(s);
  }

  /** Validate accepts exactly the rules that meet every constraint. */
  lemma ValidIff(u: Tables, r: Rule)
    ensures Valid(u, r) <==> WellFormed(u, r)
  {
    hide SplitTarget, ReachesAll, Printable, AllGraphic, Utf8Len;
    PrintableIff(u, r.id, 128);
    PrintableIff(u, r.target, 259);
    ReachesAllIff(u, r.listenPort, r.target);
    LabelsIff(r);
  }

  /** The constraint that an error of Validate says a rule breaks. */
  ghost predicate Breaks(u: Tables, r: Rule, e: RuleErr) {
    match e
    case EmptyID => r.id == ""
    case DotID => r.id in {".", ".."}
    case IDTooLong => ByteLength(r.id) > 128
    case IDNotGraphic => ByteLength(r.id) <= 128 && !Printable(u, r.id, 128)
    case EmptyAgent => r.agent == ""
    case DotAgent => r.agent in {".", ".."}
    case BadProto => r.proto !in {"tcp", "udp"}
    case NoListenPort => r.listenPort.lo == 0
    case TargetTooLong => ByteLength(r.target) > 259
    case TargetNotGraphic => ByteLength(r.target) <= 259 && !Printable(u, r.target, 259)
    case BadTarget => forall host, port :: !TargetNames(u, r.target, host, port)
    case PortsExceed =>
      !ReachesAll(u, r.listenPort, r.target) && exists host, port :: TargetNames(u, r.target, host, port)
    case ProxyNotTCP => r.mode == "proxy" && r.proto != "tcp"
    case ProxyRange => r.mode == "proxy" && r.listenPort.lo != r.listenPort.hi
    case BadMode => r.mode !in {"kernel", "proxy"}
    case ProxyProtocolWithoutProxy => r.proxyProtocol && r.mode != "proxy"
    case BadGroup => |r.group| > 32 || exists c <- r.group :: !GroupChar(c)
    case NoteTooLong => |r.note| > 120
    case SourceNotIPv4 => exists p <- Listed(r.allow) + Listed(r.deny) :: !p.V4?
  }

  lemma TargetErrorTells(u: Tables, r: Rule)
    requires ValidateTarget(u, r.listenPort, r.target).Some?
    ensures Breaks(u, r, ValidateTarget(u, r.listenPort, r.target).value)
  {
    hide SplitTarget, AllGraphic, Utf8Len, Printable, ReachesAll, ByteLength, TargetNames;
    ByteLengthIs(r.target);
    PrintableIff(u, r.target, 259);
    ReachesAllIff(u, r.listenPort, r.target);
    if SplitTarget(u, r.target).Some? {
      SplitIsNamed(u, r.target);
    } else {
      forall host, port ensures !TargetNames(u, r.target, host, port) {
        if TargetNames(u, r.target, host, port) {
          NamedIsTarget(u, r.target, host, port);
        }
      }
    }
  }

  lemma SplitIsNamed(u: Tables, target: string)
    requires SplitTarget(u, target).Some?
    ensures exists host, port :: TargetNames(u, target, host, port)
  {
    hide SplitTarget, TargetNames;
    var (host, n) := SplitTarget(u, target).value;
    NamedTargetExists(u, target, host, n);
  }

  lemma NamedTargetExists(u: Tables, target: string, host: string, n: nat)
    requires SplitTarget(u, target) == Some((host, n))
    ensures exists port :: TargetNames(u, target, host, port)
  {
    TargetIsNamed(u, target, host, n);
  }

  lemma LabelErrorTells(u: Tables, r: Rule)
    requires ValidateLabels(r).Some?
    ensures Breaks(u, r, ValidateLabels(r).value)
  {
    if !AllIPv4(Listed(r.allow)) {
      var p :| p in Listed(r.allow) && !p.V4?;
      assert p in Listed(r.allow) + Listed(r.deny);
    } else if !AllIPv4(Listed(r.deny)) {
      var p :| p in Listed(r.deny) && !p.V4?;
      assert p in Listed(r.allow) + Listed(r.deny);
    }
  }

  /** The error of a rule that is refused names a constraint it breaks. */
  lemma ErrorTells(u: Tables, r: Rule)
    requires Validate(u, r).Some?
    ensures Breaks(u, r, Validate(u, r).value)
  {
    hide ValidateTarget, ValidateLabels, AllGraphic, Utf8Len, Printable, ReachesAll, ByteLength, TargetNames;
    ByteLengthIs(r.id);
    PrintableIff(u, r.id, 128);
    if ValidateTarget(u, r.listenPort, r.target).Some? {
      TargetErrorTells(u, r);
    }
    if ValidateLabels(r).Some? {
      LabelErrorTells(u, r);
    }
  }

  lemma LabelsIff(r: Rule)
    ensures ValidateLabels(r).None? <==>
            && |r.group| <= 32 && (forall c <- r.group :: GroupChar(c)) && |r.note| <= 120
            && (forall p <- Listed(r.allow) + Listed(r.deny) :: p.V4?)
  {
  }

  // ----- Where a rule sends a port -----

  /** What happens to a connection or datagram a rule takes: what the agent and the server do with it. */
  datatype Forward = Forward(
    agent: string, mode: string, proxyHeader: bool, target: Option<string>, allow: set<Prefix>, deny: set<Prefix>,
    newFlowRate: Option<Rate>, packetRate: Option<Rate>, perSourceRate: Option<Rate>, enabled: bool)

  function SetOf(list: seq<Prefix>): set<Prefix> {
    set p | p in list
  }

  function Elements(s: Sources): set<Prefix> {
    SetOf(Listed(s))
  }

  function ForwardOf(u: Tables, r: Rule, p: uint16): Forward {
    Forward(
      r.agent, r.mode, r.mode == PROXY && r.proxyProtocol, EffectiveTarget(u, ForAgent(r), p),
      Elements(r.allow), Elements(r.deny), r.newFlowRate, r.packetRate, r.perSourceRate, r.enabled)
  }

  predicate Takes(r: Rule, proto: string, p: uint16) {
    r.proto == proto && r.listenPort.Contains(p)
  }

  /** Everything the rules do with a port; in a valid set at most one rule does something. */
  function Forwards(u: Tables, rules: seq<Rule>, proto: string, p: uint16): set<Forward> {
    set r | r in rules && Takes(r, proto, p) :: ForwardOf(u, r, p)
  }

  // ----- Prefix lists as sets -----

  method ContainsPrefix(list: seq<Prefix>, p: Prefix) returns (found: bool)
    ensures found <==> p in list
  {
    for i := 0 to |list|
      invariant p !in list[..i]
    {
      if list[i] == p {
        return true;
      }
    }
    found := false;
  }

  predicate Distinct(list: seq<Prefix>) {
    forall i, j | 0 <= i < j < |list| :: list[i] != list[j]
  }

  /** dedupPrefixes: each element of list once. */
  method DedupPrefixes(list: seq<Prefix>) returns (out: seq<Prefix>)
    ensures Distinct(out) && forall p :: p in out <==> p in list
  {
    out := [];
    for i := 0 to |list|
      invariant Distinct(out) && forall p :: p in out <==> p in list[..i]
    {
      assert list[..i + 1] == list[..i] + [list[i]];
      var found := ContainsPrefix(out, list[i]);
      if !found {
        out := out + [list[i]];
      }
    }
    assert list[..|list|] == list;
  }

  /** equalPrefixSet compares as sets, whatever the order and the duplicates. */
  method EqualPrefixSet(a: seq<Prefix>, b: seq<Prefix>) returns (same: bool)
    ensures same <==> SetOf(a) == SetOf(b)
  {
    var da := DedupPrefixes(a);
    var db := DedupPrefixes(b);
    assert SetOf(da) == SetOf(a) && SetOf(db) == SetOf(b);
    DistinctSize(da);
    DistinctSize(db);
    if |da| != |db| {
      return false;
    }
    for i := 0 to |da|
      invariant forall j | 0 <= j < i :: da[j] in db
    {
      var found := ContainsPrefix(db, da[i]);
      if !found {
        assert da[i] in SetOf(a) && da[i] !in SetOf(b);
        return false;
      }
    }
    SubsetOfSameSize(SetOf(da), SetOf(db));
    same := true;
  }

  lemma {:induction false} DistinctSize(list: seq<Prefix>)
    requires Distinct(list)
    ensures |SetOf(list)| == |list|
    decreases |list|
  {
    if list != [] {
      var n := |list| - 1;
      DistinctSize(list[..n]);
      assert SetOf(list) == SetOf(list[..n]) + {list[n]};
    }
  }
}
