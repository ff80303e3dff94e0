/**
  The table of frame kinds and bodies in the design's appendix, byte by byte, and that the encoder and the
  decoder keep to it.
 */
module Appendix {
  import opened Wrappers
  import opened Bytes
  import opened Sequences
  import opened Wire
  import opened Messages

  // ----- The types of the appendix -----

  /** u8, u16, u32 and u64 are integers of 1, 2, 4 and 8 bytes, the least significant first. */
  function U(bytes: nat, n: nat): (b: Bytes)
    ensures |b| == bytes
  {
    seq(bytes, i requires 0 <= i < bytes => DigitAt(n, i))
  }

  function OfBool(v: bool): Bytes { if v then [1] else [0] }

  function OfBytes(bs: Bytes): Bytes { U(4, |bs|) + bs }

  function OfString(s: Bytes): Bytes { U(2, |s|) + s }

  /** An address in network order; only IPv4 addresses have a form. */
  function OfAddr(a: Addr): Bytes { if a.V4? then [a.a, a.b, a.c, a.d] else [] }

  /** Nanoseconds; only those from 0 on have a form. */
  function OfDur(ns: i64): Bytes { if ns >= 0 then U(8, ns) else [] }

  function OfList<T>(form: T -> Bytes, xs: seq<T>): Bytes { U(4, |xs|) + WriteSeq(form, xs) }

  function OfLimit(l: Limit): Bytes { OfString(l.name) + U(8, l.value) }

  function OfEvent(e: BoostEvent): Bytes { U(4, e.h) + OfBool(e.boosted) }

  // ----- The table -----

  function Number(m: Msg): byte {
    match m
    case Engine(q) =>
      (match q
       case Hello(_, _, _, _, _, _, _, _) => 0x01
       case Inject(_) => 0x02
       case Poll(_) => 0x03
       case Advance(_) => 0x04
       case TCPListen(_) => 0x06
       case UDPListen(_) => 0x07
       case PingOpen(_) => 0x14)
    case Socket(s) =>
      (match s
       case Read(_, _) => 0x09
       case Write(_, _) => 0x0a
       case BoostPolicy(_, _) => 0x10
       case UDPRecv(_, _) => 0x12
       case UDPSend(_, _, _, _) => 0x13
       case PingSend(_, _) => 0x15
       case PingRecv(_, _) => 0x16
       case RTOAt(_, _) => 0x1b
       case ConnSocket(_, _) => 0x1c)
    case OnHandle(k, _) =>
      (match k
       case Accept => 0x08
       case Close => 0x0b
       case CloseWrite => 0x0c
       case Abort => 0x0d
       case CloseForDelivery => 0x0e
       case Delivered => 0x0f
       case PingClose => 0x17
       case HandleResp => 0x86)
    case Empty(e) =>
      (match e
       case Now => 0x05
       case Events => 0x11
       case Stats => 0x18
       case Bound => 0x19
       case Held => 0x1a
       case OK => 0x81
       case WouldBlock => 0x83)
    case Reply(r) =>
      (match r
       case HelloOK(_, _) => 0x80
       case Error(_, _) => 0x82
       case PacketsOut(_) => 0x84
       case Time(_) => 0x85
       case Accepted(_, _, _) => 0x87
       case Data(_) => 0x88
       case Wrote(_) => 0x89
       case Answer(_) => 0x8a
       case EventList(_) => 0x8b
       case Datagram(_, _, _) => 0x8c
       case Text(_) => 0x8d
       case RTO(_, _) => 0x8e)
  }

  function EngineBody(q: EngineRequest): Bytes {
    match q
    case Hello(version, clock, addr, mtu, seed, limits, boost, congestion) =>
      U(2, version) + [clock] + OfAddr(addr) + U(4, mtu) + seed + OfList(OfLimit, limits) + [boost] + [congestion]
    case Inject(packets) => OfList(OfBytes, packets)
    case Poll(max) => U(4, max)
    case Advance(d) => OfDur(d)
    case TCPListen(port) => U(2, port)
    case UDPListen(port) => U(2, port)
    case PingOpen(to) => OfAddr(to)
  }

  function SocketBody(s: SocketRequest): Bytes {
    match s
    case Read(h, max) => U(4, h) + U(4, max)
    case Write(h, data) => U(4, h) + OfBytes(data)
    case BoostPolicy(h, floor) => U(4, h) + OfBool(floor)
    case UDPRecv(h, max) => U(4, h) + U(4, max)
    case UDPSend(h, to, port, data) => U(4, h) + OfAddr(to) + U(2, port) + OfBytes(data)
    case PingSend(h, data) => U(4, h) + OfBytes(data)
    case PingRecv(h, max) => U(4, h) + U(4, max)
    case RTOAt(h, at) => U(4, h) + OfDur(at)
    case ConnSocket(h, path) => U(4, h) + OfString(path)
  }

  function ReplyBody(r: Response): Bytes {
    match r
    case HelloOK(engine, version) => OfString(engine) + U(2, version)
    case Error(kind, msg) => [kind] + OfString(msg)
    case PacketsOut(packets) => OfList(OfBytes, packets)
    case Time(now) => OfDur(now)
    case Accepted(h, remote, port) => U(4, h) + OfAddr(remote) + U(2, port)
    case Data(data) => OfBytes(data)
    case Wrote(n) => U(4, n)
    case Answer(v) => OfBool(v)
    case EventList(events) => OfList(OfEvent, events)
    case Datagram(from, port, data) => OfAddr(from) + U(2, port) + OfBytes(data)
    case Text(s) => OfString(s)
    case RTO(known, rto) => OfBool(known) + OfDur(rto)
  }

  function Body(m: Msg): Bytes {
    match m
    case Empty(_) => []
    case OnHandle(_, h) => U(4, h)
    case Engine(q) => EngineBody(q)
    case Socket(s) => SocketBody(s)
    case Reply(r) => ReplyBody(r)
  }

  // ----- What the encoder writes has the appendix's form -----

  lemma LEIsU(n: nat, w: nat)
    ensures LE(n, w) == U(w, n)
  {
    hide LE, DigitAt;
    forall i | 0 <= i < w ensures LE(n, w)[i] == DigitAt(n, i) {
      LEDigits(n, w, i);
    }
  }

  /** A scalar in the appendix's form. */
  function OfItem(i: Item): Bytes {
    match i
    case Uint(w, n) => U(w, n)
    case Enum(_, e) => [e]
    case Bool(v) => OfBool(v)
    case Dur(ns) => OfDur(ns)
    case Blob(bs) => OfBytes(bs)
    case Str(s) => OfString(s)
    case IP(a) => OfAddr(a)
    case Fixed(_, raw) => raw
  }

  lemma WrittenIsItem(i: Item)
    requires Refusal(i).None?
    ensures Written(i) == OfItem(i)
  {
    hide LE, U, ValidUTF8;
    match i
    case Uint(w, n) => LEIsU(n, w);
    case Dur(ns) => LEIsU(ns, 8);
    case Blob(bs) => LEIsU(|bs|, 4);
    case Str(s) => LEIsU(|s|, 2);
    case _ =>
  }

  lemma {:induction false} FormsAgree<T, S>(f: T -> Bytes, xs: seq<T>, g: S -> Bytes, ys: seq<S>)
    requires |xs| == |ys| && forall i | 0 <= i < |xs| :: f(xs[i]) == g(ys[i])
    ensures WriteSeq(f, xs) == WriteSeq(g, ys)
    decreases |xs|
  {
    if xs != [] {
      assert f(xs[0]) == g(ys[0]);
      FormsAgree(f, xs[1..], g, ys[1..]);
    }
  }

  lemma PairIs(x: Item, y: Item)
    requires Refusal(x).None? && Refusal(y).None?
    ensures WrittenRow([x, y]) == OfItem(x) + OfItem(y)
  {
    hide OfItem, Refusal, LE;
    WrittenIsItem(x);
    assert [x, y][1..] == [y];
    SingleIs(y);
  }

  lemma SingleIs(x: Item)
    requires Refusal(x).None?
    ensures WrittenRow([x]) == OfItem(x)
  {
    hide OfItem, Refusal, LE;
    WrittenIsItem(x);
    assert [x][1..] == [] && Written(x) + [] == Written(x);
    assert WriteSeq(Written, [x]) == Written(x) + WriteSeq(Written, []);
  }

  lemma LimitsForm(ls: seq<Limit>)
    requires FieldError(Rows(LimitRows(ls))).None?
    ensures WrittenField(Rows(LimitRows(ls))) == OfList(OfLimit, ls)
  {
    hide LE, U;
    var rows := LimitRows(ls);
    LEIsU(|ls|, 4);
    NoErrorAt(RowError, rows);
    forall i | 0 <= i < |ls| ensures WrittenRow(rows[i]) == OfLimit(ls[i]) {
      NoErrorAt(Refusal, rows[i]);
      assert Refusal(rows[i][0]).None?;
      PairIs(Str(ls[i].name), Uint(8, ls[i].value));
    }
    FormsAgree(WrittenRow, rows, OfLimit, ls);
  }

  lemma PacketsForm(ps: seq<Bytes>)
    ensures WrittenField(Rows(PacketRows(ps))) == OfList(OfBytes, ps)
  {
    hide LE, U;
    var rows := PacketRows(ps);
    LEIsU(|ps|, 4);
    forall i | 0 <= i < |ps| ensures WrittenRow(rows[i]) == OfBytes(ps[i]) {
      SingleIs(Blob(ps[i]));
    }
    FormsAgree(WrittenRow, rows, OfBytes, ps);
  }

  lemma EventsForm(es: seq<BoostEvent>)
    ensures WrittenField(Rows(EventRows(es))) == OfList(OfEvent, es)
  {
    hide LE, U;
    var rows := EventRows(es);
    LEIsU(|es|, 4);
    forall i | 0 <= i < |es| ensures WrittenRow(rows[i]) == OfEvent(es[i]) {
      PairIs(Uint(4, es[i].h), Bool(es[i].boosted));
    }
    FormsAgree(WrittenRow, rows, OfEvent, es);
  }

  /** The form of a scalar field, and [] for a list. */
  function OfField(f: Field): Bytes {
    if f.Single? then OfItem(f.item) else []
  }

  lemma ScalarsForm(fs: seq<Field>)
    requires FirstError(FieldError, fs).None?
    ensures forall i | 0 <= i < |fs| && fs[i].Single? :: WrittenField(fs[i]) == OfField(fs[i])
  {
    hide Written, OfItem, Refusal;
    NoErrorAt(FieldError, fs);
    forall i | 0 <= i < |fs| && fs[i].Single? ensures WrittenField(fs[i]) == OfField(fs[i]) {
      assert FieldError(fs[i]).None?;
      WrittenIsItem(fs[i].item);
    }
  }

  /** The bytes of a body of up to four fields. */
  lemma Joined(fs: seq<Field>)
    requires |fs| <= 4
    ensures WrittenAll(fs) ==
            if |fs| == 0 then []
            else if |fs| == 1 then WrittenField(fs[0])
            else if |fs| == 2 then WrittenField(fs[0]) + WrittenField(fs[1])
            else if |fs| == 3 then WrittenField(fs[0]) + WrittenField(fs[1]) + WrittenField(fs[2])
            else WrittenField(fs[0]) + WrittenField(fs[1]) + WrittenField(fs[2]) + WrittenField(fs[3])
  {
    hide WrittenField;
    if |fs| > 0 {
      var n := |fs| - 1;
      assert fs == fs[..n] + [fs[n]] && [fs[n]][1..] == [];
      WriteSeqJoins(WrittenField, fs[..n], [fs[n]]);
      Joined(fs[..n]);
    }
  }

  lemma SocketForm(s: SocketRequest)
    requires FirstError(FieldError, SocketFields(s)).None?
    ensures WrittenAll(SocketFields(s)) == SocketBody(s)
  {
    hide WrittenField, U, FirstError, FieldError;
    Joined(SocketFields(s));
    ScalarsForm(SocketFields(s));
  }

  lemma ReplyForm(r: Response)
    requires FirstError(FieldError, ReplyFields(r)).None?
    ensures WrittenAll(ReplyFields(r)) == ReplyBody(r)
  {
    hide WrittenField, U, FirstError, FieldError, PacketRows, EventRows, OfList;
    Joined(ReplyFields(r));
    ScalarsForm(ReplyFields(r));
    if r.PacketsOut? {
      PacketsForm(r.packets);
    } else if r.EventList? {
      EventsForm(r.events);
    }
  }

  /** The first and the last four fields of HELLO. */
  lemma HelloParts(q: EngineRequest)
    requires q.Hello? && FirstError(FieldError, EngineFields(q)).None?
    ensures WrittenAll(EngineFields(q)[..4]) == U(2, q.version) + [q.clock] + OfAddr(q.addr) + U(4, q.mtu)
    ensures WrittenAll(EngineFields(q)[4..]) == q.seed + OfList(OfLimit, q.limits) + [q.boost] + [q.congestion]
  {
    hide WrittenField, WrittenAll, U, FirstError, FieldError, LimitRows, OfList, OfAddr;
    var fs := EngineFields(q);
    Joined(fs[..4]);
    Joined(fs[4..]);
    ScalarsForm(fs);
    HelloLimits(q);
    assert fs[..4][0] == fs[0] && fs[..4][1] == fs[1] && fs[..4][2] == fs[2] && fs[..4][3] == fs[3];
    assert fs[4..][0] == fs[4] && fs[4..][1] == fs[5] && fs[4..][2] == fs[6] && fs[4..][3] == fs[7];
  }

  lemma HelloForm(q: EngineRequest)
    requires q.Hello? && FirstError(FieldError, EngineFields(q)).None?
    ensures WrittenAll(EngineFields(q)) == EngineBody(q)
  {
    hide WrittenField, U, FirstError, FieldError, EngineFields, OfList, OfAddr;
    var fs := EngineFields(q);
    HelloHasEight(q);
    assert fs == fs[..4] + fs[4..];
    WriteSeqJoins(WrittenField, fs[..4], fs[4..]);
    HelloParts(q);
  }

  lemma HelloHasEight(q: EngineRequest)
    requires q.Hello?
    ensures |EngineFields(q)| == 8
  {
  }

  lemma HelloLimits(q: EngineRequest)
    requires q.Hello? && FirstError(FieldError, EngineFields(q)).None?
    ensures WrittenField(EngineFields(q)[5]) == OfList(OfLimit, q.limits)
  {
    hide FieldError, WrittenField, OfList, LimitRows;
    NoErrorAt(FieldError, EngineFields(q));
    assert FieldError(EngineFields(q)[5]).None?;
    LimitsForm(q.limits);
  }

  lemma EngineForm(q: EngineRequest)
    requires FirstError(FieldError, EngineFields(q)).None?
    ensures WrittenAll(EngineFields(q)) == EngineBody(q)
  {
    hide WrittenField, U, FirstError, FieldError, PacketRows, OfList;
    if q.Hello? {
      HelloForm(q);
    } else {
      Joined(EngineFields(q));
      ScalarsForm(EngineFields(q));
      if q.Inject? {
        PacketsForm(q.packets);
      }
    }
  }

  /** Every message that is encoded has the appendix's number, and its body is the one the appendix gives. */
  lemma EncodesAsListed(m: Msg)
    ensures KindOf(m) == Number(m)
    ensures Encode(m).Ok? ==> Encode(m).value == Body(m)
  {
    hide WrittenAll, EngineFields, SocketFields, ReplyFields, EngineBody, SocketBody, ReplyBody, FirstError;
    PutAllMeaning(Fields(m));
    if Encode(m).Ok? {
      match m
      case Empty(_) => Joined([]);
      case OnHandle(_, h) =>
        Joined([Single(Uint(4, h))]);
        LEIsU(h, 4);
      case Engine(q) => EngineForm(q);
      case Socket(s) => SocketForm(s);
      case Reply(r) => ReplyForm(r);
    }
  }

  /**
    Decoding gives a message if and only if the kind is its number, the body the one the appendix gives it, and
    the message one that is encoded with all its lengths.
   */
  lemma DecodesAsListed(k: byte, body: Bytes, m: Msg)
    ensures Decode(k, body) == Ok(m) <==> k == Number(m) && body == Body(m) && Encode(m).Ok? && LengthsFit(m)
  {
    hide Decode, Encode, KindOf, Number, Body, LengthsFit;
    EncodesAsListed(m);
    if Decode(k, body) == Ok(m) {
      EncodeUndoesDecode(k, body);
    }
    if k == Number(m) && body == Body(m) && Encode(m).Ok? && LengthsFit(m) {
      DecodeUndoesEncode(m);
    }
  }
}
