/**
  The messages of the DUT frame protocol, their kinds and bodies, and that encoding and decoding are
  inverse for every kind.
 */
module Messages {
  import opened Wrappers
  import opened Bytes
  import opened Sequences
  import opened Wire

  type u16 = x: int | 0 <= x < U16_END
  type u32 = x: int | 0 <= x < U32_END
  type u64 = x: int | 0 <= x < U64_END

  const SEED_LEN := 64

  /** Requests and responses without fields. */
  datatype EmptyKind = Now | Events | Stats | Bound | Held | OK | WouldBlock

  /** Requests and responses whose only field is a handle. */
  datatype HandleKind = Accept | Close | CloseWrite | Abort | CloseForDelivery | Delivered | PingClose | HandleResp

  datatype Limit = Limit(name: Bytes, value: u64)

  datatype BoostEvent = BoostEvent(h: u32, boosted: bool)

  /** Requests to the engine as a whole. */
  datatype EngineRequest =
    | Hello(
        version: u16, clock: byte, addr: Addr, mtu: u32, seed: Bytes, limits: seq<Limit>, boost: byte, congestion: byte)
    | Inject(packets: seq<Bytes>)
    | Poll(max: u32)
    | Advance(d: i64)
    | TCPListen(port: u16)
    | UDPListen(port: u16)
    | PingOpen(to: Addr)

  /** Requests on the listener, connection, socket or endpoint of a handle. */
  datatype SocketRequest =
    | Read(h: u32, max: u32)
    | Write(h: u32, data: Bytes)
    | BoostPolicy(h: u32, floor: bool)
    | UDPRecv(h: u32, max: u32)
    | UDPSend(h: u32, to: Addr, port: u16, data: Bytes)
    | PingSend(h: u32, data: Bytes)
    | PingRecv(h: u32, max: u32)
    | RTOAt(h: u32, at: i64)
    | ConnSocket(h: u32, path: Bytes)

  /** Responses. */
  datatype Response =
    | HelloOK(engine: Bytes, version: u16)
    | Error(kind: byte, msg: Bytes)
    | PacketsOut(packets: seq<Bytes>)
    | Time(now: i64)
    | Accepted(h: u32, remote: Addr, port: u16)
    | Data(data: Bytes)
    | Wrote(n: u32)
    | Answer(v: bool)
    | EventList(events: seq<BoostEvent>)
    | Datagram(from: Addr, port: u16, data: Bytes)
    | Text(s: Bytes)
    | RTO(known: bool, rto: i64)

  /**
    One request or response. Enums are the bytes their Go types hold, strings are bytes, and an
    address with a port is two fields.
   */
  datatype Msg =
    | Empty(e: EmptyKind)
    | OnHandle(k: HandleKind, h: u32)
    | Engine(q: EngineRequest)
    | Socket(s: SocketRequest)
    | Reply(r: Response)

  function EmptyByte(e: EmptyKind): byte {
    match e
    case Now => 0x05
    case Events => 0x11
    case Stats => 0x18
    case Bound => 0x19
    case Held => 0x1a
    case OK => 0x81
    case WouldBlock => 0x83
  }

  function HandleByte(k: HandleKind): byte {
    match k
    case Accept => 0x08
    case Close => 0x0b
    case CloseWrite => 0x0c
    case Abort => 0x0d
    case CloseForDelivery => 0x0e
    case Delivered => 0x0f
    case PingClose => 0x17
    case HandleResp => 0x86
  }

  function EmptyKindOf(k: byte): Option<EmptyKind> {
    match k
    case 0x05 => Some(Now)
    case 0x11 => Some(Events)
    case 0x18 => Some(Stats)
    case 0x19 => Some(Bound)
    case 0x1a => Some(Held)
    case 0x81 => Some(OK)
    case 0x83 => Some(WouldBlock)
    case _ => None
  }

  function HandleKindOf(k: byte): Option<HandleKind> {
    match k
    case 0x08 => Some(Accept)
    case 0x0b => Some(Close)
    case 0x0c => Some(CloseWrite)
    case 0x0d => Some(Abort)
    case 0x0e => Some(CloseForDelivery)
    case 0x0f => Some(Delivered)
    case 0x17 => Some(PingClose)
    case 0x86 => Some(HandleResp)
    case _ => None
  }

  const LIMITS := List(10, [AsStr, AsUint(8)])
  const PACKETS := List(4, [AsBytes])
  const EVENTS := List(5, [AsUint(4), AsBool])

  function LimitRow(l: Limit): seq<Item> { [Str(l.name), Uint(8, l.value)] }
  function PacketRow(p: Bytes): seq<Item> { [Blob(p)] }
  function EventRow(e: BoostEvent): seq<Item> { [Uint(4, e.h), Bool(e.boosted)] }

  function LimitRows(ls: seq<Limit>): seq<seq<Item>> { seq(|ls|, i requires 0 <= i < |ls| => LimitRow(ls[i])) }
  function PacketRows(ps: seq<Bytes>): seq<seq<Item>> { seq(|ps|, i requires 0 <= i < |ps| => PacketRow(ps[i])) }
  function EventRows(es: seq<BoostEvent>): seq<seq<Item>> { seq(|es|, i requires 0 <= i < |es| => EventRow(es[i])) }

  // What a scalar field holds; a field of another format reads as the zero value.

  function AsNum(f: Field, end: int): (n: int)
    requires end > 0
    ensures 0 <= n < end
  {
    if f.Single? && f.item.Uint? && f.item.n < end then f.item.n else 0
  }

  function AsU16(f: Field): u16 { AsNum(f, U16_END) }
  function AsU32(f: Field): u32 { AsNum(f, U32_END) }
  function AsFlag(f: Field): bool { f.Single? && f.item.Bool? && f.item.v }
  function AsNanos(f: Field): i64 { if f.Single? && f.item.Dur? then f.item.ns else 0 }
  function AsBlob(f: Field): Bytes { if f.Single? && f.item.Blob? then f.item.bs else [] }
  function AsText(f: Field): Bytes { if f.Single? && f.item.Str? then f.item.text else [] }
  function AsIP(f: Field): Addr { if f.Single? && f.item.IP? then f.item.addr else OtherAddr }
  function AsChoice(f: Field): byte { if f.Single? && f.item.Enum? then f.item.e else 0 }
  function AsRaw(f: Field): Bytes { if f.Single? && f.item.Fixed? then f.item.raw else [] }

  function At<T>(s: seq<T>, i: nat, zero: T): T { if i < |s| then s[i] else zero }
  function FieldAt(fs: seq<Field>, i: nat): Field { At(fs, i, Rows([])) }
  function ItemAt(r: seq<Item>, i: nat): Field { Single(At(r, i, Bool(false))) }
  function RowsIn(f: Field): seq<seq<Item>> { if f.Rows? then f.rows else [] }

  function LimitOf(r: seq<Item>): Limit { Limit(AsText(ItemAt(r, 0)), AsNum(ItemAt(r, 1), U64_END)) }
  function PacketOf(r: seq<Item>): Bytes { AsBlob(ItemAt(r, 0)) }
  function EventOf(r: seq<Item>): BoostEvent { BoostEvent(AsU32(ItemAt(r, 0)), AsFlag(ItemAt(r, 1))) }

  function AsLimits(f: Field): seq<Limit> {
    var rows := RowsIn(f); seq(|rows|, i requires 0 <= i < |rows| => LimitOf(rows[i]))
  }

  function AsPackets(f: Field): seq<Bytes> {
    var rows := RowsIn(f); seq(|rows|, i requires 0 <= i < |rows| => PacketOf(rows[i]))
  }

  function AsEvents(f: Field): seq<BoostEvent> {
    var rows := RowsIn(f); seq(|rows|, i requires 0 <= i < |rows| => EventOf(rows[i]))
  }

  // For each group of messages: its kinds, the fields encode writes, the formats decode reads, the
  // makers of zero messages, and the message decode fills in.

  function EngineKind(m: EngineRequest): byte {
    match m
    case Hello(_, _, _, _, _, _, _, _) => 0x01
    case Inject(_) => 0x02
    case Poll(_) => 0x03
    case Advance(_) => 0x04
    case TCPListen(_) => 0x06
    case UDPListen(_) => 0x07
    case PingOpen(_) => 0x14
  }

  function EngineFields(m: EngineRequest): seq<Field> {
    match m
    case Hello(version, clock, addr, mtu, seed, limits, boost, congestion) =>
      [ Single(Uint(2, version)), Single(Enum(2, clock)), Single(IP(addr)), Single(Uint(4, mtu)),
        Single(Fixed(SEED_LEN, seed)), Rows(LimitRows(limits)), Single(Enum(3, boost)), Single(Enum(2, congestion)) ]
    case Inject(packets) => [Rows(PacketRows(packets))]
    case Poll(max) => [Single(Uint(4, max))]
    case Advance(d) => [Single(Dur(d))]
    case TCPListen(port) => [Single(Uint(2, port))]
    case UDPListen(port) => [Single(Uint(2, port))]
    case PingOpen(to) => [Single(IP(to))]
  }

  function EngineTys(m: EngineRequest): seq<Ty> {
    match m
    case Hello(_, _, _, _, _, _, _, _) =>
      [ One(AsUint(2)), One(AsEnum(2)), One(AsAddr), One(AsUint(4)),
        One(AsFixed(SEED_LEN)), LIMITS, One(AsEnum(3)), One(AsEnum(2)) ]
    case Inject(_) => [PACKETS]
    case Poll(_) => [One(AsUint(4))]
    case Advance(_) => [One(AsDur)]
    case TCPListen(_) => [One(AsUint(2))]
    case UDPListen(_) => [One(AsUint(2))]
    case PingOpen(_) => [One(AsAddr)]
  }

  function EngineMake(k: byte): Option<EngineRequest> {
    match k
    case 0x01 => Some(Hello(0, 0, OtherAddr, 0, [], [], 0, 0))
    case 0x02 => Some(Inject([]))
    case 0x03 => Some(Poll(0))
    case 0x04 => Some(Advance(0))
    case 0x06 => Some(TCPListen(0))
    case 0x07 => Some(UDPListen(0))
    case 0x14 => Some(PingOpen(OtherAddr))
    case _ => None
  }

  function EngineFill(m: EngineRequest, fs: seq<Field>): EngineRequest {
    match m
    case Hello(_, _, _, _, _, _, _, _) =>
      Hello(
        AsU16(FieldAt(fs, 0)), AsChoice(FieldAt(fs, 1)), AsIP(FieldAt(fs, 2)), AsU32(FieldAt(fs, 3)),
        AsRaw(FieldAt(fs, 4)), AsLimits(FieldAt(fs, 5)), AsChoice(FieldAt(fs, 6)), AsChoice(FieldAt(fs, 7)))
    case Inject(_) => Inject(AsPackets(FieldAt(fs, 0)))
    case Poll(_) => Poll(AsU32(FieldAt(fs, 0)))
    case Advance(_) => Advance(AsNanos(FieldAt(fs, 0)))
    case TCPListen(_) => TCPListen(AsU16(FieldAt(fs, 0)))
    case UDPListen(_) => UDPListen(AsU16(FieldAt(fs, 0)))
    case PingOpen(_) => PingOpen(AsIP(FieldAt(fs, 0)))
  }

  function SocketKind(m: SocketRequest): byte {
    match m
    case Read(_, _) => 0x09
    case Write(_, _) => 0x0a
    case BoostPolicy(_, _) => 0x10
    case UDPRecv(_, _) => 0x12
    case UDPSend(_, _, _, _) => 0x13
    case PingSend(_, _) => 0x15
    case PingRecv(_, _) => 0x16
    case RTOAt(_, _) => 0x1b
    case ConnSocket(_, _) => 0x1c
  }

  function SocketFields(m: SocketRequest): seq<Field> {
    match m
    case Read(h, max) => [Single(Uint(4, h)), Single(Uint(4, max))]
    case Write(h, data) => [Single(Uint(4, h)), Single(Blob(data))]
    case BoostPolicy(h, floor) => [Single(Uint(4, h)), Single(Bool(floor))]
    case UDPRecv(h, max) => [Single(Uint(4, h)), Single(Uint(4, max))]
    case UDPSend(h, to, port, data) => [Single(Uint(4, h)), Single(IP(to)), Single(Uint(2, port)), Single(Blob(data))]
    case PingSend(h, data) => [Single(Uint(4, h)), Single(Blob(data))]
    case PingRecv(h, max) => [Single(Uint(4, h)), Single(Uint(4, max))]
    case RTOAt(h, at) => [Single(Uint(4, h)), Single(Dur(at))]
    case ConnSocket(h, path) => [Single(Uint(4, h)), Single(Str(path))]
  }

  function SocketTys(m: SocketRequest): seq<Ty> {
    match m
    case Read(_, _) => [One(AsUint(4)), One(AsUint(4))]
    case Write(_, _) => [One(AsUint(4)), One(AsBytes)]
    case BoostPolicy(_, _) => [One(AsUint(4)), One(AsBool)]
    case UDPRecv(_, _) => [One(AsUint(4)), One(AsUint(4))]
    case UDPSend(_, _, _, _) => [One(AsUint(4)), One(AsAddr), One(AsUint(2)), One(AsBytes)]
    case PingSend(_, _) => [One(AsUint(4)), One(AsBytes)]
    case PingRecv(_, _) => [One(AsUint(4)), One(AsUint(4))]
    case RTOAt(_, _) => [One(AsUint(4)), One(AsDur)]
    case ConnSocket(_, _) => [One(AsUint(4)), One(AsStr)]
  }

  function SocketMake(k: byte): Option<SocketRequest> {
    match k
    case 0x09 => Some(Read(0, 0))
    case 0x0a => Some(Write(0, []))
    case 0x10 => Some(BoostPolicy(0, false))
    case 0x12 => Some(UDPRecv(0, 0))
    case 0x13 => Some(UDPSend(0, OtherAddr, 0, []))
    case 0x15 => Some(PingSend(0, []))
    case 0x16 => Some(PingRecv(0, 0))
    case 0x1b => Some(RTOAt(0, 0))
    case 0x1c => Some(ConnSocket(0, []))
    case _ => None
  }

  function SocketFill(m: SocketRequest, fs: seq<Field>): SocketRequest {
    match m
    case Read(_, _) => Read(AsU32(FieldAt(fs, 0)), AsU32(FieldAt(fs, 1)))
    case Write(_, _) => Write(AsU32(FieldAt(fs, 0)), AsBlob(FieldAt(fs, 1)))
    case BoostPolicy(_, _) => BoostPolicy(AsU32(FieldAt(fs, 0)), AsFlag(FieldAt(fs, 1)))
    case UDPRecv(_, _) => UDPRecv(AsU32(FieldAt(fs, 0)), AsU32(FieldAt(fs, 1)))
    case UDPSend(_, _, _, _) =>
      UDPSend(AsU32(FieldAt(fs, 0)), AsIP(FieldAt(fs, 1)), AsU16(FieldAt(fs, 2)), AsBlob(FieldAt(fs, 3)))
    case PingSend(_, _) => PingSend(AsU32(FieldAt(fs, 0)), AsBlob(FieldAt(fs, 1)))
    case PingRecv(_, _) => PingRecv(AsU32(FieldAt(fs, 0)), AsU32(FieldAt(fs, 1)))
    case RTOAt(_, _) => RTOAt(AsU32(FieldAt(fs, 0)), AsNanos(FieldAt(fs, 1)))
    case ConnSocket(_, _) => ConnSocket(AsU32(FieldAt(fs, 0)), AsText(FieldAt(fs, 1)))
  }

  function ReplyKind(m: Response): byte {
    match m
    case HelloOK(_, _) => 0x80
    case Error(_, _) => 0x82
    case PacketsOut(_) => 0x84
    case Time(_) => 0x85
    case Accepted(_, _, _) => 0x87
    case Data(_) => 0x88
    case Wrote(_) => 0x89
    case Answer(_) => 0x8a
    case EventList(_) => 0x8b
    case Datagram(_, _, _) => 0x8c
    case Text(_) => 0x8d
    case RTO(_, _) => 0x8e
  }

  function ReplyFields(m: Response): seq<Field> {
    match m
    case HelloOK(engine, version) => [Single(Str(engine)), Single(Uint(2, version))]
    case Error(kind, msg) => [Single(Enum(6, kind)), Single(Str(msg))]
    case PacketsOut(packets) => [Rows(PacketRows(packets))]
    case Time(now) => [Single(Dur(now))]
    case Accepted(h, remote, port) => [Single(Uint(4, h)), Single(IP(remote)), Single(Uint(2, port))]
    case Data(data) => [Single(Blob(data))]
    case Wrote(n) => [Single(Uint(4, n))]
    case Answer(v) => [Single(Bool(v))]
    case EventList(events) => [Rows(EventRows(events))]
    case Datagram(from, port, data) => [Single(IP(from)), Single(Uint(2, port)), Single(Blob(data))]
    case Text(s) => [Single(Str(s))]
    case RTO(known, rto) => [Single(Bool(known)), Single(Dur(rto))]
  }

  function ReplyTys(m: Response): seq<Ty> {
    match m
    case HelloOK(_, _) => [One(AsStr), One(AsUint(2))]
    case Error(_, _) => [One(AsEnum(6)), One(AsStr)]
    case PacketsOut(_) => [PACKETS]
    case Time(_) => [One(AsDur)]
    case Accepted(_, _, _) => [One(AsUint(4)), One(AsAddr), One(AsUint(2))]
    case Data(_) => [One(AsBytes)]
    case Wrote(_) => [One(AsUint(4))]
    case Answer(_) => [One(AsBool)]
    case EventList(_) => [EVENTS]
    case Datagram(_, _, _) => [One(AsAddr), One(AsUint(2)), One(AsBytes)]
    case Text(_) => [One(AsStr)]
    case RTO(_, _) => [One(AsBool), One(AsDur)]
  }

  function ReplyMake(k: byte): Option<Response> {
    match k
    case 0x80 => Some(HelloOK([], 0))
    case 0x82 => Some(Error(0, []))
    case 0x84 => Some(PacketsOut([]))
    case 0x85 => Some(Time(0))
    case 0x87 => Some(Accepted(0, OtherAddr, 0))
    case 0x88 => Some(Data([]))
    case 0x89 => Some(Wrote(0))
    case 0x8a => Some(Answer(false))
    case 0x8b => Some(EventList([]))
    case 0x8c => Some(Datagram(OtherAddr, 0, []))
    case 0x8d => Some(Text([]))
    case 0x8e => Some(RTO(false, 0))
    case _ => None
  }

  function ReplyFill(m: Response, fs: seq<Field>): Response {
    match m
    case HelloOK(_, _) => HelloOK(AsText(FieldAt(fs, 0)), AsU16(FieldAt(fs, 1)))
    case Error(_, _) => Error(AsChoice(FieldAt(fs, 0)), AsText(FieldAt(fs, 1)))
    case PacketsOut(_) => PacketsOut(AsPackets(FieldAt(fs, 0)))
    case Time(_) => Time(AsNanos(FieldAt(fs, 0)))
    case Accepted(_, _, _) => Accepted(AsU32(FieldAt(fs, 0)), AsIP(FieldAt(fs, 1)), AsU16(FieldAt(fs, 2)))
    case Data(_) => Data(AsBlob(FieldAt(fs, 0)))
    case Wrote(_) => Wrote(AsU32(FieldAt(fs, 0)))
    case Answer(_) => Answer(AsFlag(FieldAt(fs, 0)))
    case EventList(_) => EventList(AsEvents(FieldAt(fs, 0)))
    case Datagram(_, _, _) => Datagram(AsIP(FieldAt(fs, 0)), AsU16(FieldAt(fs, 1)), AsBlob(FieldAt(fs, 2)))
    case Text(_) => Text(AsText(FieldAt(fs, 0)))
    case RTO(_, _) => RTO(AsFlag(FieldAt(fs, 0)), AsNanos(FieldAt(fs, 1)))
  }

  function KindOf(m: Msg): byte {
    match m
    case Empty(e) => EmptyByte(e)
    case OnHandle(k, _) => HandleByte(k)
    case Engine(q) => EngineKind(q)
    case Socket(s) => SocketKind(s)
    case Reply(r) => ReplyKind(r)
  }

  /** A message's fields, in the order its encode method writes them. */
  function Fields(m: Msg): seq<Field> {
    match m
    case Empty(_) => []
    case OnHandle(_, h) => [Single(Uint(4, h))]
    case Engine(q) => EngineFields(q)
    case Socket(s) => SocketFields(s)
    case Reply(r) => ReplyFields(r)
  }

  /** The formats of a message's fields, in the order its decode method reads them. */
  function TysOf(m: Msg): seq<Ty> {
    match m
    case Empty(_) => []
    case OnHandle(_, _) => [One(AsUint(4))]
    case Engine(q) => EngineTys(q)
    case Socket(s) => SocketTys(s)
    case Reply(r) => ReplyTys(r)
  }

  /** The makers table: a zero message of each kind that has one. */
  function Make(k: byte): Option<Msg> {
    if EmptyKindOf(k).Some? then Some(Empty(EmptyKindOf(k).value))
    else if HandleKindOf(k).Some? then Some(OnHandle(HandleKindOf(k).value, 0))
    else if EngineMake(k).Some? then Some(Engine(EngineMake(k).value))
    else if SocketMake(k).Some? then Some(Socket(SocketMake(k).value))
    else if ReplyMake(k).Some? then Some(Reply(ReplyMake(k).value))
    else None
  }

  /** The message decoding fills in: of m's kind, with the fields fs. */
  function Fill(m: Msg, fs: seq<Field>): Msg {
    match m
    case Empty(_) => m
    case OnHandle(k, _) => OnHandle(k, AsU32(FieldAt(fs, 0)))
    case Engine(q) => Engine(EngineFill(q, fs))
    case Socket(s) => Socket(SocketFill(s, fs))
    case Reply(r) => Reply(ReplyFill(r, fs))
  }

  // ----- Encode and Decode -----

  function Encode(m: Msg): Result<Bytes, EncErr> {
    var r := PutAll(EncState([], None), Fields(m));
    if r.err.Some? then Err(r.err.value) else Ok(r.b)
  }

  predicate PacketsFit(ps: seq<Bytes>) {
    |ps| < U32_END && forall p <- ps :: |p| < U32_END
  }

  predicate EngineFit(m: EngineRequest) {
    (m.Hello? ==> |m.limits| < U32_END) && (m.Inject? ==> PacketsFit(m.packets))
  }

  predicate SocketFit(m: SocketRequest) {
    m.Write? || m.UDPSend? || m.PingSend? ==> |m.data| < U32_END
  }

  predicate ReplyFit(m: Response) {
    && (m.PacketsOut? ==> PacketsFit(m.packets))
    && (m.Data? || m.Datagram? ==> |m.data| < U32_END)
    && (m.EventList? ==> |m.events| < U32_END)
  }

  /** Every byte string and list of m has a length that fits the 32 bits the body gives it. */
  predicate LengthsFit(m: Msg) {
    match m
    case Engine(q) => EngineFit(q)
    case Socket(s) => SocketFit(s)
    case Reply(r) => ReplyFit(r)
    case _ => true
  }

  lemma LimitsAreCarried(ls: seq<Limit>)
    requires |ls| < U32_END && FieldError(Rows(LimitRows(ls))).None?
    ensures CarriedField(LIMITS, Rows(LimitRows(ls)))
  {
    var rows := LimitRows(ls);
    Widths();
    NoErrorAt(RowError, rows);
    EachAt(CarriedRow, Repeat(LIMITS.row, |rows|), rows);
    forall i | 0 <= i < |rows| ensures CarriedRow(LIMITS.row, rows[i]) {
      NoErrorAt(Refusal, rows[i]);
      EachAt(CarriedAs, LIMITS.row, rows[i]);
    }
  }

  lemma PacketsAreCarried(ps: seq<Bytes>)
    requires PacketsFit(ps)
    ensures CarriedField(PACKETS, Rows(PacketRows(ps)))
  {
    var rows := PacketRows(ps);
    EachAt(CarriedRow, Repeat(PACKETS.row, |rows|), rows);
    forall i | 0 <= i < |rows| ensures CarriedRow(PACKETS.row, rows[i]) {
      EachAt(CarriedAs, PACKETS.row, rows[i]);
    }
  }

  lemma EventsAreCarried(es: seq<BoostEvent>)
    requires |es| < U32_END
    ensures CarriedField(EVENTS, Rows(EventRows(es)))
  {
    var rows := EventRows(es);
    Widths();
    EachAt(CarriedRow, Repeat(EVENTS.row, |rows|), rows);
    forall i | 0 <= i < |rows| ensures CarriedRow(EVENTS.row, rows[i]) {
      EachAt(CarriedAs, EVENTS.row, rows[i]);
    }
  }

  lemma ListsReadBack(ls: seq<Limit>, ps: seq<Bytes>, es: seq<BoostEvent>)
    ensures AsLimits(Rows(LimitRows(ls))) == ls
    ensures AsPackets(Rows(PacketRows(ps))) == ps
    ensures AsEvents(Rows(EventRows(es))) == es
  {
  }

  lemma RowShape(t: Ty, f: Field, i: nat)
    requires t.List? && CarriedField(t, f) && i < |f.rows|
    ensures |f.rows[i]| == |t.row| && forall j | 0 <= j < |t.row| :: CarriedAs(t.row[j], f.rows[i][j])
  {
    EachAt(CarriedRow, Repeat(t.row, |f.rows|), f.rows);
    EachAt(CarriedAs, t.row, f.rows[i]);
  }

  lemma LimitsWriteBack(f: Field)
    requires CarriedField(LIMITS, f)
    ensures Rows(LimitRows(AsLimits(f))) == f
  {
    Widths();
    forall i | 0 <= i < |f.rows| ensures LimitRow(LimitOf(f.rows[i])) == f.rows[i] {
      RowShape(LIMITS, f, i);
      assert CarriedAs(LIMITS.row[0], f.rows[i][0]) && CarriedAs(LIMITS.row[1], f.rows[i][1]);
    }
  }

  lemma PacketsWriteBack(f: Field)
    requires CarriedField(PACKETS, f)
    ensures Rows(PacketRows(AsPackets(f))) == f && PacketsFit(AsPackets(f))
  {
    forall i | 0 <= i < |f.rows|
      ensures PacketRow(PacketOf(f.rows[i])) == f.rows[i] && |PacketOf(f.rows[i])| < U32_END
    {
      RowShape(PACKETS, f, i);
      assert CarriedAs(PACKETS.row[0], f.rows[i][0]);
    }
  }

  lemma EventsWriteBack(f: Field)
    requires CarriedField(EVENTS, f)
    ensures Rows(EventRows(AsEvents(f))) == f
  {
    Widths();
    forall i | 0 <= i < |f.rows| ensures EventRow(EventOf(f.rows[i])) == f.rows[i] {
      RowShape(EVENTS, f, i);
      assert CarriedAs(EVENTS.row[0], f.rows[i][0]) && CarriedAs(EVENTS.row[1], f.rows[i][1]);
    }
  }

  lemma EngineFieldIsCarried(m: EngineRequest, i: nat)
    requires EngineFit(m) && i < |EngineFields(m)| && FieldError(EngineFields(m)[i]).None?
    ensures |EngineTys(m)| == |EngineFields(m)| && CarriedField(EngineTys(m)[i], EngineFields(m)[i])
  {
    Widths();
    match m
    case Hello(_, _, _, _, _, limits, _, _) => if i == 5 { LimitsAreCarried(limits); }
    case Inject(ps) => PacketsAreCarried(ps);
    case Poll(_) =>
    case Advance(_) =>
    case TCPListen(_) =>
    case UDPListen(_) =>
    case PingOpen(_) =>
  }

  lemma EngineFillGivesMessage(m: EngineRequest)
    ensures var z := EngineMake(EngineKind(m));
            z.Some? && EngineTys(z.value) == EngineTys(m) && EngineFill(z.value, EngineFields(m)) == m
  {
    match m
    case Hello(_, _, _, _, _, limits, _, _) => ListsReadBack(limits, [], []);
    case Inject(ps) => ListsReadBack([], ps, []);
    case Poll(_) =>
    case Advance(_) =>
    case TCPListen(_) =>
    case UDPListen(_) =>
    case PingOpen(_) =>
  }

  lemma EngineFieldOfFilled(z: EngineRequest, fs: seq<Field>, i: nat)
    requires |fs| == |EngineTys(z)| && i < |fs| && CarriedField(EngineTys(z)[i], fs[i])
    ensures |EngineFields(EngineFill(z, fs))| == |fs| && EngineFields(EngineFill(z, fs))[i] == fs[i]
  {
    Widths();
    match z
    case Hello(_, _, _, _, _, _, _, _) => if i == 5 { LimitsWriteBack(fs[i]); }
    case Inject(_) => PacketsWriteBack(fs[i]);
    case Poll(_) =>
    case Advance(_) =>
    case TCPListen(_) =>
    case UDPListen(_) =>
    case PingOpen(_) =>
  }

  lemma SocketFieldIsCarried(m: SocketRequest, i: nat)
    requires SocketFit(m) && i < |SocketFields(m)| && FieldError(SocketFields(m)[i]).None?
    ensures |SocketTys(m)| == |SocketFields(m)| && CarriedField(SocketTys(m)[i], SocketFields(m)[i])
  {
    Widths();
    match m
    case Read(_, _) =>
    case Write(_, _) =>
    case BoostPolicy(_, _) =>
    case UDPRecv(_, _) =>
    case UDPSend(_, _, _, _) =>
    case PingSend(_, _) =>
    case PingRecv(_, _) =>
    case RTOAt(_, _) =>
    case ConnSocket(_, _) =>
  }

  lemma SocketFillGivesMessage(m: SocketRequest)
    ensures var z := SocketMake(SocketKind(m));
            z.Some? && SocketTys(z.value) == SocketTys(m) && SocketFill(z.value, SocketFields(m)) == m
  {
    match m
    case Read(_, _) =>
    case Write(_, _) =>
    case BoostPolicy(_, _) =>
    case UDPRecv(_, _) =>
    case UDPSend(_, _, _, _) =>
    case PingSend(_, _) =>
    case PingRecv(_, _) =>
    case RTOAt(_, _) =>
    case ConnSocket(_, _) =>
  }

  lemma SocketFieldOfFilled(z: SocketRequest, fs: seq<Field>, i: nat)
    requires |fs| == |SocketTys(z)| && i < |fs| && CarriedField(SocketTys(z)[i], fs[i])
    ensures |SocketFields(SocketFill(z, fs))| == |fs| && SocketFields(SocketFill(z, fs))[i] == fs[i]
  {
    Widths();
    match z
    case Read(_, _) =>
    case Write(_, _) =>
    case BoostPolicy(_, _) =>
    case UDPRecv(_, _) =>
    case UDPSend(_, _, _, _) =>
    case PingSend(_, _) =>
    case PingRecv(_, _) =>
    case RTOAt(_, _) =>
    case ConnSocket(_, _) =>
  }

  lemma ReplyFieldIsCarried(m: Response, i: nat)
    requires ReplyFit(m) && i < |ReplyFields(m)| && FieldError(ReplyFields(m)[i]).None?
    ensures |ReplyTys(m)| == |ReplyFields(m)| && CarriedField(ReplyTys(m)[i], ReplyFields(m)[i])
  {
    Widths();
    match m
    case HelloOK(_, _) =>
    case Error(_, _) =>
    case PacketsOut(ps) => PacketsAreCarried(ps);
    case Time(_) =>
    case Accepted(_, _, _) =>
    case Data(_) =>
    case Wrote(_) =>
    case Answer(_) =>
    case EventList(es) => EventsAreCarried(es);
    case Datagram(_, _, _) =>
    case Text(_) =>
    case RTO(_, _) =>
  }

  lemma ReplyFillGivesMessage(m: Response)
    ensures var z := ReplyMake(ReplyKind(m));
            z.Some? && ReplyTys(z.value) == ReplyTys(m) && ReplyFill(z.value, ReplyFields(m)) == m
  {
    match m
    case HelloOK(_, _) =>
    case Error(_, _) =>
    case PacketsOut(ps) => ListsReadBack([], ps, []);
    case Time(_) =>
    case Accepted(_, _, _) =>
    case Data(_) =>
    case Wrote(_) =>
    case Answer(_) =>
    case EventList(es) => ListsReadBack([], [], es);
    case Datagram(_, _, _) =>
    case Text(_) =>
    case RTO(_, _) =>
  }

  lemma ReplyFieldOfFilled(z: Response, fs: seq<Field>, i: nat)
    requires |fs| == |ReplyTys(z)| && i < |fs| && CarriedField(ReplyTys(z)[i], fs[i])
    ensures |ReplyFields(ReplyFill(z, fs))| == |fs| && ReplyFields(ReplyFill(z, fs))[i] == fs[i]
  {
    Widths();
    match z
    case HelloOK(_, _) =>
    case Error(_, _) =>
    case PacketsOut(_) => PacketsWriteBack(fs[i]);
    case Time(_) =>
    case Accepted(_, _, _) =>
    case Data(_) =>
    case Wrote(_) =>
    case Answer(_) =>
    case EventList(_) => EventsWriteBack(fs[i]);
    case Datagram(_, _, _) =>
    case Text(_) =>
    case RTO(_, _) =>
  }

  /** A field the encoder takes, of a message whose lengths fit, is one the message's decoder reads. */
  lemma FieldIsCarried(m: Msg, i: nat)
    requires LengthsFit(m) && i < |Fields(m)| && FieldError(Fields(m)[i]).None?
    ensures |TysOf(m)| == |Fields(m)| && CarriedField(TysOf(m)[i], Fields(m)[i])
  {
    Widths();
    match m
    case Empty(_) =>
    case OnHandle(_, _) =>
    case Engine(q) => EngineFieldIsCarried(q, i);
    case Socket(s) => SocketFieldIsCarried(s, i);
    case Reply(r) => ReplyFieldIsCarried(r, i);
  }

  lemma FieldsAreCarried(m: Msg)
    requires Encode(m).Ok? && LengthsFit(m)
    ensures CarriedAll(TysOf(m), Fields(m))
  {
    var fs, ts := Fields(m), TysOf(m);
    PutAllMeaning(fs);
    NoErrorAt(FieldError, fs);
    if fs != [] {
      FieldIsCarried(m, 0);
    }
    forall i | 0 <= i < |ts| ensures CarriedField(ts[i], fs[i]) {
      FieldIsCarried(m, i);
    }
    EachAt(CarriedField, ts, fs);
  }

  /** The maker of a message's kind, filled with the message's fields, is the message. */
  lemma FillGivesMessage(m: Msg)
    ensures var z := Make(KindOf(m));
            z.Some? && TysOf(z.value) == TysOf(m) && Fill(z.value, Fields(m)) == m
  {
    KindsAreDistinct(m);
    match m
    case Empty(_) =>
    case OnHandle(_, _) =>
    case Engine(q) => EngineFillGivesMessage(q);
    case Socket(s) => SocketFillGivesMessage(s);
    case Reply(r) => ReplyFillGivesMessage(r);
  }

  /** No two groups of messages share a kind. */
  lemma KindsAreDistinct(m: Msg)
    ensures var k := KindOf(m);
            && EmptyKindOf(k).Some? == m.Empty? && HandleKindOf(k).Some? == m.OnHandle?
            && EngineMake(k).Some? == m.Engine? && SocketMake(k).Some? == m.Socket? && ReplyMake(k).Some? == m.Reply?
  {
  }

  lemma FieldOfFilled(z: Msg, fs: seq<Field>, i: nat)
    requires |fs| == |TysOf(z)| && i < |fs| && CarriedField(TysOf(z)[i], fs[i])
    ensures |Fields(Fill(z, fs))| == |fs| && Fields(Fill(z, fs))[i] == fs[i]
  {
    Widths();
    match z
    case Empty(_) =>
    case OnHandle(_, _) =>
    case Engine(q) => EngineFieldOfFilled(q, fs, i);
    case Socket(s) => SocketFieldOfFilled(s, fs, i);
    case Reply(r) => ReplyFieldOfFilled(r, fs, i);
  }

  lemma EngineFilledFits(z: EngineRequest, fs: seq<Field>)
    requires |fs| == |EngineTys(z)| && forall i | 0 <= i < |fs| :: CarriedField(EngineTys(z)[i], fs[i])
    ensures EngineFit(EngineFill(z, fs))
  {
    if z.Hello? {
      assert CarriedField(LIMITS, fs[5]);
    } else if z.Inject? {
      PacketsWriteBack(fs[0]);
    }
  }

  lemma SocketFilledFits(z: SocketRequest, fs: seq<Field>)
    requires |fs| == |SocketTys(z)| && forall i | 0 <= i < |fs| :: CarriedField(SocketTys(z)[i], fs[i])
    ensures SocketFit(SocketFill(z, fs))
  {
    if z.Write? || z.PingSend? {
      assert CarriedField(One(AsBytes), fs[1]);
    } else if z.UDPSend? {
      assert CarriedField(One(AsBytes), fs[3]);
    }
  }

  lemma ReplyFilledFits(z: Response, fs: seq<Field>)
    requires |fs| == |ReplyTys(z)| && forall i | 0 <= i < |fs| :: CarriedField(ReplyTys(z)[i], fs[i])
    ensures ReplyFit(ReplyFill(z, fs))
  {
    if z.PacketsOut? {
      PacketsWriteBack(fs[0]);
    } else if z.EventList? {
      assert CarriedField(EVENTS, fs[0]);
    } else if z.Data? {
      assert CarriedField(One(AsBytes), fs[0]);
    } else if z.Datagram? {
      assert CarriedField(One(AsBytes), fs[2]);
    }
  }

  lemma FilledLengthsFit(z: Msg, fs: seq<Field>)
    requires |fs| == |TysOf(z)| && forall i | 0 <= i < |fs| :: CarriedField(TysOf(z)[i], fs[i])
    ensures LengthsFit(Fill(z, fs))
  {
    match z
    case Engine(q) => EngineFilledFits(q, fs);
    case Socket(s) => SocketFilledFits(s, fs);
    case Reply(r) => ReplyFilledFits(r, fs);
    case _ =>
  }

  lemma FillKeepsKind(z: Msg, fs: seq<Field>)
    ensures KindOf(Fill(z, fs)) == KindOf(z) && |Fields(Fill(z, fs))| == |TysOf(z)|
  {
  }

  /** The filled message has exactly the fields it was filled with. */
  lemma FieldsOfFilled(z: Msg, fs: seq<Field>)
    requires CarriedAll(TysOf(z), fs)
    ensures Fields(Fill(z, fs)) == fs
  {
    var ts, gs := TysOf(z), Fields(Fill(z, fs));
    EachAt(CarriedField, ts, fs);
    FillKeepsKind(z, fs);
    forall i | 0 <= i < |fs| ensures gs[i] == fs[i] {
      FieldOfFilled(z, fs, i);
    }
  }

  lemma MakersMatchKinds(k: byte)
    ensures Make(k).Some? ==> KindOf(Make(k).value) == k
  {
  }

  // ----- The two directions -----

  lemma ListsAreSound()
    ensures Sound(LIMITS) && Sound(PACKETS) && Sound(EVENTS)
  {
    assert LIMITS.row[1..] == [AsUint(8)] && EVENTS.row[1..] == [AsBool] && PACKETS.row[1..] == [];
    assert MinRow(LIMITS.row) == 10 && MinRow(PACKETS.row) == 4 && MinRow(EVENTS.row) == 5;
  }

  lemma EngineLayoutsAreSound(m: EngineRequest)
    ensures SoundAll(EngineTys(m))
  {
    hide MinRow;
    ListsAreSound();
  }

  lemma SocketLayoutsAreSound(m: SocketRequest)
    ensures SoundAll(SocketTys(m))
  {
    hide MinRow;
  }

  lemma ReplyLayoutsAreSound(m: Response)
    ensures SoundAll(ReplyTys(m))
  {
    hide MinRow;
    ListsAreSound();
  }

  lemma LayoutsAreSound(m: Msg)
    ensures SoundAll(TysOf(m))
  {
    hide MinRow, EngineTys, SocketTys, ReplyTys;
    match m
    case Empty(_) =>
    case OnHandle(_, _) =>
    case Engine(q) => EngineLayoutsAreSound(q);
    case Socket(s) => SocketLayoutsAreSound(s);
    case Reply(r) => ReplyLayoutsAreSound(r);
  }

  /** What decoding a body of kind k gives: the first failure, or the message. */
  function Decode(k: byte, body: Bytes): Result<Msg, DecErr> {
    if Make(k).None? then Err(UnknownKind)
    else
      var z := Make(k).value;
      match ParseAll(TysOf(z), body)
      case Bad(e) => Err(e)
      case Got(fs, rest) =>
        if rest != [] then Err(TrailingBytes)
        else
          LayoutsAreSound(z);
          WriteUndoesParseAll(TysOf(z), body);
          Ok(Fill(z, fs))
  }

  /**
    A message Encode takes decodes to itself exactly when its byte strings and lists have lengths that
    fit 32 bits; Encode itself does not look at those lengths.
   */
  lemma DecodeUndoesEncode(m: Msg)
    requires Encode(m).Ok?
    ensures Decode(KindOf(m), Encode(m).value) == Ok(m) <==> LengthsFit(m)
  {
    var k, fs := KindOf(m), Fields(m);
    PutAllMeaning(fs);
    if LengthsFit(m) {
      FieldsAreCarried(m);
      LayoutsAreSound(m);
      ParseUndoesWriteAll(TysOf(m), fs, []);
      assert WrittenAll(fs) + [] == WrittenAll(fs);
      FillGivesMessage(m);
    } else if Decode(k, Encode(m).value) == Ok(m) {
      EncodeUndoesDecode(k, Encode(m).value);
    }
  }

  /**
    Every body Decode accepts, of every kind, is re-encoded to exactly the same bytes by the message
    it decodes to, so no message has two encodings.
   */
  lemma EncodeUndoesDecode(k: byte, body: Bytes)
    requires Decode(k, body).Ok?
    ensures var m := Decode(k, body).value;
            KindOf(m) == k && Encode(m) == Ok(body) && LengthsFit(m)
  {
    var z := Make(k).value;
    var ts := TysOf(z);
    var fs := ParseAll(ts, body).v;
    LayoutsAreSound(z);
    WriteUndoesParseAll(ts, body);
    FieldsOfFilled(z, fs);
    FillKeepsKind(z, fs);
    EachAt(CarriedField, ts, fs);
    FilledLengthsFit(z, fs);
    MakersMatchKinds(k);
    PutAllMeaning(fs);
    CarriedHasNoError(ts, fs);
    assert WrittenAll(fs) + [] == WrittenAll(fs);
  }

  lemma CarriedRowHasNoError(row: seq<Scalar>, items: seq<Item>)
    requires CarriedRow(row, items)
    ensures RowError(items).None?
  {
    EachAt(CarriedAs, row, items);
    NoErrorAt(Refusal, items);
    assert forall i | 0 <= i < |items| :: CarriedAs(row[i], items[i]);
  }

  lemma CarriedHasNoError(ts: seq<Ty>, fs: seq<Field>)
    requires CarriedAll(ts, fs)
    ensures FirstError(FieldError, fs).None?
  {
    EachAt(CarriedField, ts, fs);
    NoErrorAt(FieldError, fs);
    forall i | 0 <= i < |fs| ensures FieldError(fs[i]).None? {
      assert CarriedField(ts[i], fs[i]);
      if fs[i].Rows? {
        EachAt(CarriedRow, Repeat(ts[i].row, |fs[i].rows|), fs[i].rows);
        forall j | 0 <= j < |fs[i].rows| ensures RowError(fs[i].rows[j]).None? {
          CarriedRowHasNoError(ts[i].row, fs[i].rows[j]);
        }
        NoErrorAt(RowError, fs[i].rows);
      }
    }
  }

  lemma {:induction false} PartsAreNoLonger<T>(write: T -> Bytes, vs: seq<T>, i: nat)
    requires i < |vs|
    ensures |write(vs[i])| <= |WriteSeq(write, vs)|
    decreases |vs|
  {
    if i > 0 {
      PartsAreNoLonger(write, vs[1..], i - 1);
    }
  }

  lemma {:induction false} RowsTakeBytes(rows: seq<seq<Item>>)
    requires forall row <- rows :: |WrittenRow(row)| >= 1
    ensures |rows| <= |WriteSeq(WrittenRow, rows)|
  {
    if rows != [] {
      RowsTakeBytes(rows[1..]);
    }
  }

  lemma PacketRowLength(p: Bytes)
    ensures |WrittenRow(PacketRow(p))| == 4 + |p|
  {
    assert WriteSeq(Written, PacketRow(p)[1..]) == [];
  }

  lemma ShortPacketsFit(ps: seq<Bytes>)
    requires |WrittenField(Rows(PacketRows(ps)))| < U32_END
    ensures PacketsFit(ps)
  {
    var rows := PacketRows(ps);
    forall i | 0 <= i < |ps| ensures |WrittenRow(rows[i])| == 4 + |ps[i]| {
      PacketRowLength(ps[i]);
    }
    RowsTakeBytes(rows);
    forall i | 0 <= i < |ps| ensures |ps[i]| < U32_END {
      PartsAreNoLonger(WrittenRow, rows, i);
    }
  }

  lemma ShortEngineFits(m: EngineRequest)
    requires |WrittenAll(EngineFields(m))| < U32_END
    ensures EngineFit(m)
  {
    if m.Hello? {
      PartsAreNoLonger(WrittenField, EngineFields(m), 5);
      RowsTakeBytes(LimitRows(m.limits));
    } else if m.Inject? {
      PartsAreNoLonger(WrittenField, EngineFields(m), 0);
      ShortPacketsFit(m.packets);
    }
  }

  lemma ShortSocketFits(m: SocketRequest)
    requires |WrittenAll(SocketFields(m))| < U32_END
    ensures SocketFit(m)
  {
    if m.Write? || m.PingSend? {
      PartsAreNoLonger(WrittenField, SocketFields(m), 1);
    } else if m.UDPSend? {
      PartsAreNoLonger(WrittenField, SocketFields(m), 3);
    }
  }

  lemma ShortReplyFits(m: Response)
    requires |WrittenAll(ReplyFields(m))| < U32_END
    ensures ReplyFit(m)
  {
    match m
    case PacketsOut(ps) =>
      PartsAreNoLonger(WrittenField, ReplyFields(m), 0);
      ShortPacketsFit(ps);
    case Data(_) => PartsAreNoLonger(WrittenField, ReplyFields(m), 0);
    case Datagram(_, _, _) => PartsAreNoLonger(WrittenField, ReplyFields(m), 2);
    case EventList(es) =>
      PartsAreNoLonger(WrittenField, ReplyFields(m), 0);
      RowsTakeBytes(EventRows(es));
    case _ =>
  }

  /** A body of less than 2^32 bytes has no length over 32 bits in it. */
  lemma ShortBodiesFit(m: Msg)
    requires Encode(m).Ok? && |Encode(m).value| < U32_END
    ensures LengthsFit(m)
  {
    PutAllMeaning(Fields(m));
    match m
    case Engine(q) => ShortEngineFits(q);
    case Socket(s) => ShortSocketFits(s);
    case Reply(r) => ShortReplyFits(r);
    case _ =>
  }

  /**
    Where each scalar of an encoded message stands: after the bytes that the scalars before it take, integers
    and lengths with their least significant byte first.
   */
  lemma EncodedAt(m: Msg, k: nat)
    requires Encode(m).Ok? && k < |Flat(Fields(m))|
    ensures var body, items := Encode(m).value, Flat(Fields(m));
            Holds(body, Sizes(items[..k]), items[k]) && |body| == Sizes(items)
  {
    hide Flat, Holds, Sizes;
    PutAllMeaning(Fields(m));
    ScalarAt(Fields(m), k);
  }

  /** Two messages with the same kind and the same encoding are the same message. */
  lemma EncodingIsInjective(m: Msg, n: Msg)
    requires LengthsFit(m) && LengthsFit(n) && KindOf(m) == KindOf(n)
    requires Encode(m).Ok? && Encode(m) == Encode(n)
    ensures m == n
  {
    DecodeUndoesEncode(m);
    DecodeUndoesEncode(n);
  }

  /** A byte string of 2^32 bytes is encoded without an error, and does not decode to itself. */
  lemma LongDataDoesNotRoundTrip()
    ensures var m := Reply(Data(seq(U32_END, _ => 0)));
            Encode(m).Ok? && Decode(KindOf(m), Encode(m).value) != Ok(m)
  {
    var m := Reply(Data(seq(U32_END, _ => 0)));
    PutAllMeaning(Fields(m));
    NoErrorAt(FieldError, Fields(m));
    DecodeUndoesEncode(m);
  }
}
