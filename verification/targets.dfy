/** A rule's target: host:port text as package net splits and joins it, and the ports a range maps to. */
module Targets {
  import opened Wrappers
  import opened Decimal
  import opened RuleTypes

  /** Where c first occurs in s, or -1. */
  function Index(s: string, c: char): (i: int)
    ensures -1 <= i < |s|
    ensures i < 0 <==> c !in s
    ensures i >= 0 ==> s[i] == c && c !in s[..i]
  {
    if s == [] then -1
    else if s[0] == c then 0
    else
      var j := Index(s[1..], c);
      if j < 0 then -1
      else
        assert s[..j + 1] == [s[0]] + s[1..][..j];
        j + 1
  }

  /** Where c last occurs in s, or -1. */
  function LastIndex(s: string, c: char): (i: int)
    ensures -1 <= i < |s|
    ensures i < 0 <==> c !in s
    ensures i >= 0 ==> s[i] == c && c !in s[i + 1..]
  {
    if s == [] then -1
    else
      var n := |s| - 1;
      if s[n] == c then n
      else
        var j := LastIndex(s[..n], c);
        assert s == s[..n] + [s[n]];
        if j < 0 then -1
        else
          assert s[j + 1..] == s[..n][j + 1..] + [s[n]];
          j
  }

  /** net.SplitHostPort. */
  function SplitHostPort(s: string): Option<(string, string)> {
    var i := LastIndex(s, ':');
    if i < 0 then None
    else if s[0] == '[' then
      var end := Index(s, ']');
      if end < 0 || end + 1 != i || '[' in s[1..] || ']' in s[end + 1..] then None
      else Some((s[1..end], s[i + 1..]))
    else if ':' in s[..i] || '[' in s || ']' in s then None
    else Some((s[..i], s[i + 1..]))
  }

  /** net.JoinHostPort: a host with a colon is put in brackets. */
  function JoinHostPort(host: string, port: string): string {
    if ':' in host then "[" + host + "]:" + port else host + ":" + port
  }

  predicate NoBrackets(s: string) {
    '[' !in s && ']' !in s
  }

  predicate PlainPort(s: string) {
    NoBrackets(s) && ':' !in s
  }

  /** The two forms that name a host and a port. */
  predicate Names(s: string, host: string, port: string) {
    && NoBrackets(host) && PlainPort(port)
    && (s == "[" + host + "]:" + port || (s == host + ":" + port && ':' !in host))
  }

  lemma {:induction false} LastIndexIs(a: string, c: char, b: string)
    requires c !in b
    ensures LastIndex(a + [c] + b, c) == |a|
    decreases |b|
  {
    var s, n := a + [c] + b, |a| + |b|;
    if b != [] {
      assert s[..n] == a + [c] + b[..|b| - 1] && s[n] == b[|b| - 1];
      LastIndexIs(a, c, b[..|b| - 1]);
    }
  }

  lemma {:induction false} IndexIs(a: string, c: char, b: string)
    requires c !in a
    ensures Index(a + [c] + b, c) == |a|
    decreases |a|
  {
    var s := a + [c] + b;
    if a != [] {
      assert s[1..] == a[1..] + [c] + b && s[0] == a[0];
      IndexIs(a[1..], c, b);
    }
  }

  lemma InConcat(a: string, b: string, c: char)
    ensures c in a + b <==> c in a || c in b
  {
  }

  lemma BracketedParts(host: string, port: string)
    ensures var s, n := "[" + host + "]:" + port, |host|;
            && s[0] == '[' && s[1..] == host + ("]:" + port) && s[1..n + 1] == host
            && s[n + 2..] == ":" + port && s[n + 3..] == port
  {
  }

  lemma Regrouped(host: string, port: string)
    ensures "[" + host + "]:" + port == ("[" + host + "]") + [':'] + port
    ensures "[" + host + "]:" + port == ("[" + host) + [']'] + (":" + port)
  {
  }

  lemma BracketedIndices(host: string, port: string)
    requires ']' !in host && ':' !in port
    ensures var s, n := "[" + host + "]:" + port, |host|;
            LastIndex(s, ':') == n + 2 && Index(s, ']') == n + 1
  {
    hide Index, LastIndex;
    Regrouped(host, port);
    LastIndexIs("[" + host + "]", ':', port);
    assert ']' !in "[" + host;
    IndexIs("[" + host, ']', ":" + port);
  }

  lemma SplitOfBracketed(host: string, port: string)
    requires NoBrackets(host) && PlainPort(port)
    ensures SplitHostPort("[" + host + "]:" + port) == Some((host, port))
  {
    BracketedParts(host, port);
    BracketedIndices(host, port);
    InConcat(host, "]:" + port, '[');
    InConcat("]:", port, '[');
    InConcat(":", port, ']');
  }

  lemma SplitOfBare(host: string, port: string)
    requires NoBrackets(host) && PlainPort(port) && ':' !in host
    ensures SplitHostPort(host + ":" + port) == Some((host, port))
  {
    var s := host + ":" + port;
    LastIndexIs(host, ':', port);
    assert s[..|host|] == host && s[|host| + 1..] == port;
  }

  lemma NamedBySplit(s: string)
    requires SplitHostPort(s).Some?
    ensures Names(s, SplitHostPort(s).value.0, SplitHostPort(s).value.1)
  {
    var (host, port) := SplitHostPort(s).value;
    var i := LastIndex(s, ':');
    assert s[i + 1..] == port;
    if s[0] == '[' {
      var end := Index(s, ']');
      assert s[..end][1..] == host;
      assert forall c <- host :: c in s[1..] && c in s[..end];
      assert forall c <- port :: c in s[1..] && c in s[end + 1..];
      assert s == "[" + host + "]:" + port;
    } else {
      assert forall c <- host :: c in s;
      assert forall c <- port :: c in s;
      assert s == host + ":" + port;
    }
  }

  /** SplitHostPort takes exactly the two forms, and the two parts it gives are the only ones. */
  lemma SplitIsNames(s: string, host: string, port: string)
    ensures SplitHostPort(s) == Some((host, port)) <==> Names(s, host, port)
  {
    if SplitHostPort(s).Some? {
      NamedBySplit(s);
    }
    if Names(s, host, port) {
      if s == "[" + host + "]:" + port {
        SplitOfBracketed(host, port);
      } else {
        SplitOfBare(host, port);
      }
    }
  }

  lemma DigitsArePlain(s: string)
    requires AllDigits(s)
    ensures PlainPort(s) && '-' !in s && '/' !in s
  {
  }

  /** Joining and splitting again gives the host and the port. */
  lemma SplitOfJoined(host: string, port: string)
    requires NoBrackets(host) && PlainPort(port)
    ensures SplitHostPort(JoinHostPort(host, port)) == Some((host, port))
  {
    if ':' in host {
      SplitOfBracketed(host, port);
    } else {
      SplitOfBare(host, port);
    }
  }

  // ----- Targets -----

  /** What unicode.IsGraphic says of characters beyond ASCII, and which hosts net.ParseIP reads as IPv6. */
  datatype Tables = Tables(graphic: char -> bool, ipv6: string -> bool)

  const MAX_PORT := 65535

  /** splitTarget: a host that is not an IPv6 address, and a port from 1 on. */
  function SplitTarget(u: Tables, target: string): Option<(string, uint16)> {
    match SplitHostPort(target)
    case None => None
    case Some((host, port)) =>
      if host == "" || u.ipv6(host) then None
      else
        match ParseUint(port, MAX_PORT)
        case None => None
        case Some(n) => if n == 0 then None else Some((host, n))
  }

  /** The target `off` ports on, if there is such a port. */
  function TargetAt(u: Tables, target: string, off: nat): Option<string> {
    match SplitTarget(u, target)
    case None => None
    case Some((host, port)) => if port + off > MAX_PORT then None else Some(JoinHostPort(host, Itoa(port + off)))
  }

  /** EffectiveTarget: where an agent sends what arrives at port p of the range. */
  function EffectiveTarget(u: Tables, r: AgentRule, p: uint16): Option<string> {
    if !r.listenPort.Contains(p) then None else TargetAt(u, r.target, p - r.listenPort.lo)
  }

  /** The text of an effective target, empty when there is none. */
  function Text(t: Option<string>): string {
    if t.None? then "" else t.value
  }

  /** The number at the start of s, 0 when there is none. */
  function LeadingNumber(s: string): nat {
    if s == [] || !IsDigit(s[0]) then 0
    else if AllDigits(s) then Value(s)
    else LeadingNumber(s[..|s| - 1])
  }

  /** nextPort: the text with its port one higher. */
  function NextPort(s: string): string {
    var i := LastIndex(s, ':');
    if i < 0 then s else s[..i] + ":" + Itoa(LeadingNumber(s[i + 1..]) + 1)
  }

  lemma PortIsPositive(u: Tables, target: string)
    requires SplitTarget(u, target).Some?
    ensures SplitTarget(u, target).value.1 >= 1
  {
    hide SplitHostPort;
  }

  lemma HostIsPlain(u: Tables, target: string)
    requires SplitTarget(u, target).Some?
    ensures NoBrackets(SplitTarget(u, target).value.0)
  {
    NamedBySplit(target);
  }

  /** A target's host with another port is a target with that port, when the port is one. */
  lemma TargetOfJoined(u: Tables, target: string, n: nat)
    requires SplitTarget(u, target).Some?
    ensures var host := SplitTarget(u, target).value.0;
            SplitTarget(u, JoinHostPort(host, Itoa(n))) == if 1 <= n <= MAX_PORT then Some((host, n)) else None
  {
    var host := SplitTarget(u, target).value.0;
    HostIsPlain(u, target);
    DigitsArePlain(Itoa(n));
    SplitOfJoined(host, Itoa(n));
    ParseUndoesItoa(n, MAX_PORT);
  }

  lemma EmptyTargetFails(u: Tables)
    ensures SplitTarget(u, "").None?
  {
    assert LastIndex("", ':') == -1;
  }

  /** Going on from an effective target is going on from the target. */
  lemma TargetAtShift(u: Tables, target: string, a: nat, b: nat)
    ensures TargetAt(u, Text(TargetAt(u, target, a)), b) == TargetAt(u, target, a + b)
  {
    hide SplitHostPort, JoinHostPort, Itoa;
    EmptyTargetFails(u);
    if SplitTarget(u, target).Some? {
      TargetOfJoined(u, target, SplitTarget(u, target).value.1 + a);
    }
  }

  lemma JoinedParts(host: string, port: string)
    ensures var before := if ':' in host then "[" + host + "]" else host;
            var s := JoinHostPort(host, port);
            s == before + [':'] + port && s[..|before|] == before && s[|before| + 1..] == port
  {
  }

  lemma NextOfJoined(host: string, n: nat)
    ensures NextPort(JoinHostPort(host, Itoa(n))) == JoinHostPort(host, Itoa(n + 1))
  {
    hide Itoa, LastIndex;
    var before := if ':' in host then "[" + host + "]" else host;
    JoinedParts(host, Itoa(n));
    JoinedParts(host, Itoa(n + 1));
    DigitsArePlain(Itoa(n));
    LastIndexIs(before, ':', Itoa(n));
    ValueOfItoa(n);
  }

  lemma JoinInjective(host: string, n: nat, host': string, n': nat)
    requires NoBrackets(host) && NoBrackets(host') && JoinHostPort(host, Itoa(n)) == JoinHostPort(host', Itoa(n'))
    ensures host == host' && n == n'
  {
    DigitsArePlain(Itoa(n));
    DigitsArePlain(Itoa(n'));
    SplitOfJoined(host, Itoa(n));
    SplitOfJoined(host', Itoa(n'));
    ItoaInjective(n, n');
  }

  // ----- Printed ranges -----

  /** PortRange.String. */
  function RangeText(r: PortRange): string {
    if r.lo == r.hi then Itoa(r.lo) else Itoa(r.lo) + "-" + Itoa(r.hi)
  }

  lemma DashSplits(a: string, n: nat, a': string, n': nat)
    requires a + "-" + Itoa(n) == a' + "-" + Itoa(n')
    ensures a == a' && n == n'
  {
    var s := a + "-" + Itoa(n);
    DigitsArePlain(Itoa(n));
    DigitsArePlain(Itoa(n'));
    LastIndexIs(a, '-', Itoa(n));
    LastIndexIs(a', '-', Itoa(n'));
    assert s[..|a|] == a && s[..|a|] == a';
    assert s[|a| + 1..] == Itoa(n) && s[|a| + 1..] == Itoa(n');
    ItoaInjective(n, n');
  }

  lemma DashMeansRange(r: PortRange)
    ensures '-' in RangeText(r) <==> r.IsRange()
  {
    DigitsArePlain(Itoa(r.lo));
    assert r.IsRange() ==> RangeText(r)[|Itoa(r.lo)|] == '-';
  }

  lemma RangeTextInjective(r: PortRange, r': PortRange)
    requires RangeText(r) == RangeText(r')
    ensures r == r'
  {
    DashMeansRange(r);
    DashMeansRange(r');
    if r.IsRange() {
      DashSplits(Itoa(r.lo), r.hi, Itoa(r'.lo), r'.hi);
    }
    ItoaInjective(r.lo, r'.lo);
  }

  /** TargetDisplay: the target, or for a range the host and the ports it maps to. */
  function TargetDisplay(u: Tables, range: PortRange, target: string): string {
    if range.lo == range.hi then target
    else
      match SplitTarget(u, target)
      case None => target
      case Some((host, port)) => JoinHostPort(host, Itoa(port)) + "-" + Signed(port + range.hi - range.lo)
  }

  function Signed(n: int): string {
    if n < 0 then "-" + Itoa(-n) else Itoa(n)
  }

  lemma DisplayOfRange(u: Tables, range: PortRange, target: string)
    requires range.lo < range.hi && SplitTarget(u, target).Some?
    ensures var (host, port) := SplitTarget(u, target).value;
            TargetDisplay(u, range, target) == JoinHostPort(host, Itoa(port)) + "-" + Itoa(port + range.hi - range.lo)
  {
  }

  lemma DisplayedPartsInjective(host: string, n: nat, w: nat, host': string, n': nat, w': nat)
    requires NoBrackets(host) && NoBrackets(host')
    requires JoinHostPort(host, Itoa(n)) + "-" + Itoa(w) == JoinHostPort(host', Itoa(n')) + "-" + Itoa(w')
    ensures host == host' && n == n'
  {
    DashSplits(JoinHostPort(host, Itoa(n)), w, JoinHostPort(host', Itoa(n')), w');
    JoinInjective(host, n, host', n');
  }

  /** On one range of ports, targets that are displayed alike are the same host and first port. */
  lemma DisplayInjective(u: Tables, range: PortRange, t: string, t': string)
    requires range.lo <= range.hi && SplitTarget(u, t).Some? && SplitTarget(u, t').Some?
    requires TargetDisplay(u, range, t) == TargetDisplay(u, range, t')
    ensures SplitTarget(u, t) == SplitTarget(u, t')
  {
    hide SplitTarget, JoinHostPort, Itoa;
    if range.lo < range.hi {
      var a, b, w := SplitTarget(u, t).value, SplitTarget(u, t').value, range.hi - range.lo;
      HostIsPlain(u, t);
      HostIsPlain(u, t');
      DisplayOfRange(u, range, t);
      DisplayOfRange(u, range, t');
      DisplayedPartsInjective(a.0, a.1, a.1 + w, b.0, b.1, b.1 + w);
    }
  }
}
