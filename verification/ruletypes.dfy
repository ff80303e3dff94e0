/** The rule and full-state records of package proto. */
module RuleTypes {
  import opened Wrappers

  type uint16 = x: int | 0 <= x < 0x1_0000

  /** Listening ports lo..hi; a single port has lo == hi. */
  datatype PortRange = PortRange(lo: uint16, hi: uint16) {
    function Len(): int { hi - lo + 1 }

    predicate Contains(p: uint16) { lo <= p <= hi }

    predicate IsRange() { lo != hi }

    predicate Overlaps(o: PortRange) { lo <= o.hi && o.lo <= hi }
  }

  const TCP := "tcp"
  const UDP := "udp"

  /** The part of a rule an agent receives. */
  datatype AgentRule = AgentRule(id: string, proto: string, listenPort: PortRange, target: string, enabled: bool)

  datatype WGConfig = WGConfig(
    serverPubkey: string, endpoint: string, address: string,
    mtu: int, keepalive: int, udpTimeout: int, udpTimeoutStream: int)

  /** The full state the server sends; `protocol` and `capabilities` are optional fields. */
  datatype State = State(
    generation: nat, wg: WGConfig, rules: seq<AgentRule>,
    protocol: Option<int>, capabilities: Option<seq<string>>, agentDisabled: bool)
}
