/**
  Frames on a byte stream: what a reader gets from a stream that is cut anywhere, and which byte
  strings a recording's splitter takes.
 */
module Frames {
  import opened Wrappers
  import opened Bytes
  import opened Sequences
  import opened Wire
  import Messages

  const MAX_FRAME := 0x400_0000

  /** A frame: its kind byte and its body. */
  datatype Frame = Frame(kind: byte, body: Bytes)

  /** A frame on the wire, its length cut to 32 bits. */
  function FrameBytes(f: Frame): Bytes {
    LE(1 + |f.body|, 4) + [f.kind] + f.body
  }

  predicate Small(f: Frame) {
    1 + |f.body| <= MAX_FRAME
  }

  predicate AllSmall(fs: seq<Frame>) {
    forall i | 0 <= i < |fs| :: Small(fs[i])
  }

  function Concat(fs: seq<Frame>): Bytes {
    if fs == [] then [] else FrameBytes(fs[0]) + Concat(fs[1..])
  }

  datatype StreamErr = EOF | UnexpectedEOF | LengthOutOfRange | Undecodable(e: DecErr)

  /** What one ReadFrame gets from a stream that holds b. */
  function ReadOne(b: Bytes): Parse<Frame, StreamErr> {
    if b == [] then Bad(EOF)
    else if |b| < 4 then Bad(UnexpectedEOF)
    else
      var n := FromLE(b[..4]);
      if n == 0 || n > MAX_FRAME then Bad(LengthOutOfRange)
      else if |b| < 4 + n then Bad(UnexpectedEOF)
      else Got(Frame(b[4], b[5..4 + n]), b[4 + n..])
  }

  /** What reading until an error gets: the frames, and the error that ended it. */
  function ReadAll(b: Bytes): (seq<Frame>, StreamErr)
    decreases |b|
  {
    match ReadOne(b)
    case Bad(e) => ([], e)
    case Got(f, rest) => var (fs, e) := ReadAll(rest); ([f] + fs, e)
  }

  // ----- The reader and the writer as objects -----

  /** An io.Reader over the bytes a stream still holds. */
  class Stream {
    var b: Bytes

    constructor (b: Bytes)
      ensures this.b == b
    {
      this.b := b;
    }

    /** io.ReadFull: n bytes, EOF when there is none, UnexpectedEOF when there are fewer. */
    method ReadFull(n: nat) returns (r: Result<Bytes, StreamErr>)
      modifies this
      ensures r.Ok? <==> n <= |old(b)|
      ensures r.Ok? ==> r.value == old(b)[..n] && b == old(b)[n..]
      ensures r.Err? ==> b == [] && r.error == if old(b) == [] then EOF else UnexpectedEOF
    {
      if n <= |b| {
        r := Ok(b[..n]);
        b := b[n..];
      } else {
        r := Err(if b == [] then EOF else UnexpectedEOF);
        b := [];
      }
    }

    method ReadFrame() returns (r: Result<Frame, StreamErr>)
      modifies this
      ensures r.Ok? ==> ReadOne(old(b)) == Got(r.value, b)
      ensures r.Err? ==> ReadOne(old(b)) == Bad(r.error)
    {
      var header := ReadFull(4);
      if header.Err? {
        return Err(header.error);
      }
      var n := FromLE(header.value);
      if n == 0 || n > MAX_FRAME {
        return Err(LengthOutOfRange);
      }
      var kind := ReadFull(1);
      if kind.Err? {
        return Err(UnexpectedEOF);
      }
      var body := ReadFull(n - 1);
      if body.Err? {
        return Err(UnexpectedEOF);
      }
      r := Ok(Frame(kind.value[0], body.value));
      assert old(b)[4..][1..][..n - 1] == old(b)[5..4 + n];
      assert old(b)[4..][1..][n - 1..] == old(b)[4 + n..];
    }
  }

  datatype WriteErr = FrameTooLong | WriterFailed

  /** An io.Writer that takes `room` more bytes and then fails. */
  class Sink {
    var out: Bytes
    var room: nat

    constructor (room: nat)
      ensures out == [] && this.room == room
    {
      out, this.room := [], room;
    }

    method Write(b: Bytes) returns (ok: bool)
      modifies this
      ensures ok <==> |b| <= old(room)
      ensures out == old(out) + (if ok then b else b[..old(room)])
      ensures room == if ok then old(room) - |b| else 0
    {
      if |b| <= room {
        out, room := out + b, room - |b|;
        return true;
      }
      out, room := out + b[..room], 0;
      return false;
    }
  }

  /**
    WriteFrame: a frame that is too long is refused before anything is written; otherwise the writer gets
    the frame, or as much of it as it takes before it fails.
   */
  method WriteFrame(w: Sink, f: Frame) returns (r: Result<(), WriteErr>)
    modifies w
    ensures r == if !Small(f) then Err(FrameTooLong)
                 else if |FrameBytes(f)| <= old(w.room) then Ok(())
                 else Err(WriterFailed)
    ensures !Small(f) ==> w.out == old(w.out) && w.room == old(w.room)
    ensures r.Ok? ==> w.out == old(w.out) + FrameBytes(f) && w.room == old(w.room) - |FrameBytes(f)|
    ensures Small(f) && r.Err? ==> w.out == old(w.out) + FrameBytes(f)[..old(w.room)] && w.room == 0
  {
    hide LE;
    if 1 + |f.body| > MAX_FRAME {
      return Err(FrameTooLong);
    }
    var header := LE(1 + |f.body|, 4) + [f.kind];
    assert FrameBytes(f) == header + f.body;
    var ok := w.Write(header);
    if !ok {
      assert FrameBytes(f)[..old(w.room)] == header[..old(w.room)];
      return Err(WriterFailed);
    }
    ok := w.Write(f.body);
    if !ok {
      assert FrameBytes(f)[..old(w.room)] == header + f.body[..old(w.room) - 5];
      return Err(WriterFailed);
    }
    r := Ok(());
  }

  // ----- Reading back what was written -----

  predicate FitsLength(f: Frame) {
    1 + |f.body| < U32_END
  }

  /** The bytes of a frame followed by others: its length, kind and body, and what follows. */
  lemma FrameParts(f: Frame, rest: Bytes)
    requires FitsLength(f)
    ensures var b, n := FrameBytes(f) + rest, 1 + |f.body|;
            && FromLE(b[..4]) == n && b[4] == f.kind && b[5..4 + n] == f.body && b[4 + n..] == rest
  {
    Widths();
    LEReadsBack(1 + |f.body|, 4);
    assert (FrameBytes(f) + rest)[..4] == LE(1 + |f.body|, 4);
  }

  /** A frame byte by byte: its length with the least significant byte first, its kind and its body. */
  lemma FrameAt(f: Frame, i: nat)
    requires i < |FrameBytes(f)|
    ensures |FrameBytes(f)| == 5 + |f.body|
    ensures FrameBytes(f)[i] ==
            if i < 4 then DigitAt(1 + |f.body|, i) else if i == 4 then f.kind else f.body[i - 5]
  {
    hide LE;
    if i < 4 {
      LEDigits(1 + |f.body|, 4, i);
    }
  }

  /** The length a reader takes from the first four bytes. */
  lemma LengthRead(b: Bytes)
    requires |b| >= 4
    ensures FromLE(b[..4]) ==
            b[0] as int + 0x100 * (b[1] as int) + 0x1_0000 * (b[2] as int) + 0x100_0000 * (b[3] as int)
  {
    var h := b[..4];
    FromLEIsDigitSum(h);
    Widths();
    assert DigitSum(h, 4) == DigitSum(h, 3) + h[3] * Pow256(3);
    assert DigitSum(h, 3) == DigitSum(h, 2) + h[2] * Pow256(2);
    assert DigitSum(h, 2) == DigitSum(h, 1) + h[1] * Pow256(1);
    assert DigitSum(h, 1) == DigitSum(h, 0) + h[0] * Pow256(0);
    assert Pow256(3) == 256 * Pow256(2);
  }

  /** What a stream begins with decides what reading a frame from it gives. */
  lemma ReadOneTells(b: Bytes)
    ensures ReadOne(b) == Bad(EOF) <==> b == []
    ensures ReadOne(b) == Bad(LengthOutOfRange) <==> |b| >= 4 && !(1 <= FromLE(b[..4]) <= 64 * 1024 * 1024)
    ensures ReadOne(b).Got? <==> |b| >= 4 && 1 <= FromLE(b[..4]) <= 64 * 1024 * 1024 && |b| >= 4 + FromLE(b[..4])
    ensures ReadOne(b).Bad? ==> ReadOne(b).e in {EOF, LengthOutOfRange, UnexpectedEOF}
  {
    hide FromLE;
  }

  lemma FrameRejoins(b: Bytes)
    requires |b| >= 5 && 0 < FromLE(b[..4]) <= |b| - 4
    ensures var n := FromLE(b[..4]); var f := Frame(b[4], b[5..4 + n]);
            FitsLength(f) && b == FrameBytes(f) + b[4 + n..]
  {
    Widths();
    LEWritesBack(b[..4]);
    var n := FromLE(b[..4]);
    assert b == b[..4] + [b[4]] + b[5..4 + n] + b[4 + n..];
  }

  lemma ReadOneOfFrame(f: Frame, rest: Bytes)
    requires Small(f)
    ensures ReadOne(FrameBytes(f) + rest) == Got(f, rest)
  {
    FrameParts(f, rest);
  }

  lemma ReadOneOfPart(f: Frame, c: nat)
    requires Small(f) && c < |FrameBytes(f)|
    ensures ReadOne(FrameBytes(f)[..c]) == Bad(if c == 0 then EOF else UnexpectedEOF)
  {
    FrameParts(f, []);
    assert FrameBytes(f) + [] == FrameBytes(f);
    if c >= 4 {
      assert FrameBytes(f)[..c][..4] == FrameBytes(f)[..4];
    }
  }

  lemma CutPastFrame(f: Frame, tail: Bytes, c: nat)
    requires Small(f) && |FrameBytes(f)| <= c <= |FrameBytes(f)| + |tail|
    ensures var r := ReadAll(tail[..c - |FrameBytes(f)|]);
            ReadAll((FrameBytes(f) + tail)[..c]) == ([f] + r.0, r.1)
  {
    var rest := tail[..c - |FrameBytes(f)|];
    assert (FrameBytes(f) + tail)[..c] == FrameBytes(f) + rest;
    ReadOneOfFrame(f, rest);
  }

  lemma CutInFrame(f: Frame, tail: Bytes, c: nat)
    requires Small(f) && c < |FrameBytes(f)|
    ensures ReadAll((FrameBytes(f) + tail)[..c]) == ([], if c == 0 then EOF else UnexpectedEOF)
  {
    assert (FrameBytes(f) + tail)[..c] == FrameBytes(f)[..c];
    ReadOneOfPart(f, c);
  }

  lemma PrefixesOfTail(fs: seq<Frame>, i: nat)
    requires 0 < i <= |fs|
    ensures |Concat(fs[..i])| == |FrameBytes(fs[0])| + |Concat(fs[1..][..i - 1])|
    ensures fs[..i] == [fs[0]] + fs[1..][..i - 1]
  {
    assert fs[..i][1..] == fs[1..][..i - 1];
  }

  /**
    A stream of frames cut after c bytes, inside frame i or just before it, reads as the i frames
    that are whole and then EOF on the boundary, UnexpectedEOF inside a frame.
   */
  lemma {:induction false} CutStream(fs: seq<Frame>, i: nat, c: nat)
    requires AllSmall(fs)
    requires i <= |fs| && |Concat(fs[..i])| <= c <= |Concat(fs)| && (i < |fs| ==> c < |Concat(fs[..i + 1])|)
    ensures ReadAll(Concat(fs)[..c]) == (fs[..i], if c == |Concat(fs[..i])| then EOF else UnexpectedEOF)
    decreases |fs|
  {
    if fs != [] {
      var tail := Concat(fs[1..]);
      if i < |fs| {
        PrefixesOfTail(fs, i + 1);
      }
      if i == 0 {
        CutInFrame(fs[0], tail, c);
      } else {
        PrefixesOfTail(fs, i);
        CutPastFrame(fs[0], tail, c);
        CutStream(fs[1..], i - 1, c - |FrameBytes(fs[0])|);
      }
    }
  }

  // ----- Messages on a stream -----

  /** The frame of a message, with an empty body for one that does not encode. */
  function FrameOf(m: Messages.Msg): Frame {
    Frame(Messages.KindOf(m), if Messages.Encode(m).Ok? then Messages.Encode(m).value else [])
  }

  /** WriteMsg takes the message: it encodes, and into a frame that is not too long. */
  predicate Writable(m: Messages.Msg) {
    Messages.Encode(m).Ok? && Small(FrameOf(m))
  }

  predicate AllWritable(ms: seq<Messages.Msg>) {
    forall i | 0 <= i < |ms| :: Writable(ms[i])
  }

  function FramesOf(ms: seq<Messages.Msg>): seq<Frame> {
    seq(|ms|, i requires 0 <= i < |ms| => FrameOf(ms[i]))
  }

  /** What calling ReadMsg until an error gets from a stream that holds b. */
  function ReadMsgs(b: Bytes): (seq<Messages.Msg>, StreamErr)
    decreases |b|
  {
    match ReadOne(b)
    case Bad(e) => ([], e)
    case Got(f, rest) =>
      match Messages.Decode(f.kind, f.body)
      case Err(e) => ([], Undecodable(e))
      case Ok(m) => var (ms, e) := ReadMsgs(rest); ([m] + ms, e)
  }

  lemma {:induction false} ReadMsgsDecodes(b: Bytes, ms: seq<Messages.Msg>)
    requires AllWritable(ms)
    requires ReadAll(b).0 == FramesOf(ms)
    ensures ReadMsgs(b) == (ms, ReadAll(b).1)
    decreases |b|
  {
    hide Messages.Decode, Messages.Encode, Messages.KindOf, FromLE;
    if ReadOne(b).Got? {
      var f, rest := ReadOne(b).v, ReadOne(b).rest;
      assert f == FramesOf(ms)[0] == FrameOf(ms[0]);
      assert ReadAll(rest).0 == FramesOf(ms)[1..] == FramesOf(ms[1..]);
      WritableRoundTrips(ms[0]);
      ReadMsgsDecodes(rest, ms[1..]);
      assert [ms[0]] + ms[1..] == ms;
    }
  }

  /** A message that fits a frame has no length over 32 bits, so it decodes to itself. */
  lemma WritableRoundTrips(m: Messages.Msg)
    requires Writable(m)
    ensures Messages.Decode(Messages.KindOf(m), Messages.Encode(m).value) == Ok(m)
  {
    Messages.ShortBodiesFit(m);
    Messages.DecodeUndoesEncode(m);
  }

  /**
    Whatever messages are sent, and wherever the stream ends, the other side reads exactly the
    messages whose frames are whole, and knows whether it lost part of one.
   */
  lemma SentMessagesReadBack(ms: seq<Messages.Msg>, i: nat, c: nat)
    requires AllWritable(ms)
    requires i <= |ms| && |Concat(FramesOf(ms)[..i])| <= c <= |Concat(FramesOf(ms))|
    requires i < |ms| ==> c < |Concat(FramesOf(ms)[..i + 1])|
    ensures ReadMsgs(Concat(FramesOf(ms))[..c]) ==
            (ms[..i], if c == |Concat(FramesOf(ms)[..i])| then EOF else UnexpectedEOF)
  {
    CutStream(FramesOf(ms), i, c);
    assert FramesOf(ms)[..i] == FramesOf(ms[..i]);
    ReadMsgsDecodes(Concat(FramesOf(ms))[..c], ms[..i]);
  }

  lemma LongFrameIsNotOneMessage(f: Frame, m: Messages.Msg)
    requires !Small(f)
    ensures ReadMsgs(FrameBytes(f)) != ([m], EOF)
  {
    var b := FrameBytes(f);
    Widths();
    if FitsLength(f) {
      FrameParts(f, []);
      assert b + [] == b;
    } else if ReadOne(b).Got? {
      assert ReadMsgs(ReadOne(b).rest) != ([], EOF);
    }
  }

  /** Frame and AppendFrame, which do not look at the frame's length, read back exactly when it is not too long. */
  lemma FrameReadsBack(m: Messages.Msg)
    requires Messages.Encode(m).Ok?
    ensures ReadMsgs(FrameBytes(FrameOf(m))) == ([m], EOF) <==> Small(FrameOf(m))
  {
    var f := FrameOf(m);
    if Small(f) {
      ReadOneOfFrame(f, []);
      assert FrameBytes(f) + [] == FrameBytes(f);
      WritableRoundTrips(m);
      assert ReadMsgs([]) == ([], EOF) && [m] + [] == [m];
    } else {
      LongFrameIsNotOneMessage(f, m);
    }
  }

  // ----- Recordings -----

  datatype SplitErr = Leftover | BadLength | NotAlternating | NoResponse

  /** What SplitFrames comes to: frames or an error, or a slice out of range. */
  datatype Splitting = Returns(r: Result<seq<Frame>, SplitErr>) | Panics

  predicate IsRequest(kind: byte) {
    kind < 0x80
  }

  /** Go's 4 + n on a uint32, the end of the frame in the slice expressions. */
  function FrameEnd(n: nat): nat {
    (4 + n) % U32_END
  }

  /** Cutting b apart when the next frame has to be a request, or a response. */
  function Cut(b: Bytes, request: bool): Splitting
    decreases |b|
  {
    if b == [] then Returns(if request then Ok([]) else Err(NoResponse))
    else if |b| < 5 then Returns(Err(Leftover))
    else
      var n := FromLE(b[..4]);
      if n == 0 || n + 4 > |b| then Returns(Err(BadLength))
      else if n + 4 >= U32_END then Panics
      else if IsRequest(b[4]) != request then Returns(Err(NotAlternating))
      else Onto([Frame(b[4], b[5..4 + n])], Cut(b[4 + n..], !request))
  }

  function Onto(out: seq<Frame>, s: Splitting): Splitting {
    match s
    case Panics => Panics
    case Returns(Err(e)) => Returns(Err(e))
    case Returns(Ok(fs)) => Returns(Ok(out + fs))
  }

  method SplitFrames(b: Bytes) returns (s: Splitting)
    ensures s == Cut(b, true)
  {
    hide FromLE;
    Widths();
    var left, out := b, [];
    OntoNothing(Cut(b, true));
    while |left| > 0
      invariant Onto(out, Cut(left, |out| % 2 == 0)) == Cut(b, true)
    {
      if |left| < 5 {
        return Returns(Err(Leftover));
      }
      var n := FromLE(left[..4]);
      if n == 0 || n + 4 > |left| {
        return Returns(Err(BadLength));
      }
      EndWraps(n);
      var end := FrameEnd(n);
      if end < 5 {
        return Panics;
      }
      var f := Frame(left[4], left[5..end]);
      if IsRequest(f.kind) != (|out| % 2 == 0) {
        return Returns(Err(NotAlternating));
      }
      OddAndEven(|out|);
      OntoTwice(out, [f], Cut(left[end..], |out| % 2 != 0));
      out := out + [f];
      left := left[end..];
    }
    if |out| % 2 != 0 {
      return Returns(Err(NoResponse));
    }
    assert out + [] == out;
    s := Returns(Ok(out));
  }

  /** The end of a frame comes before its body exactly when the 32-bit sum wraps. */
  lemma EndWraps(n: nat)
    requires 0 < n < U32_END
    ensures FrameEnd(n) < 5 <==> n + 4 >= U32_END
    ensures n + 4 < U32_END ==> FrameEnd(n) == n + 4
  {
  }

  lemma OddAndEven(n: nat)
    ensures (n + 1) % 2 == 0 <==> n % 2 != 0
  {
  }

  lemma OntoNothing(s: Splitting)
    ensures Onto([], s) == s
  {
    assert s.Returns? && s.r.Ok? ==> [] + s.r.value == s.r.value;
  }

  lemma OntoTwice(a: seq<Frame>, b: seq<Frame>, s: Splitting)
    ensures Onto(a, Onto(b, s)) == Onto(a + b, s)
  {
    assert s.Returns? && s.r.Ok? ==> a + (b + s.r.value) == a + b + s.r.value;
  }

  /** The frame's end in the recording is a uint32. */
  predicate Sliceable(f: Frame) {
    5 + |f.body| < U32_END
  }

  /** Frames that alternate, the first a request or, when request is false, a response. */
  predicate Alternate(fs: seq<Frame>, request: bool) {
    fs == [] || (IsRequest(fs[0].kind) == request && Sliceable(fs[0]) && Alternate(fs[1..], !request))
  }

  /** Frames of whole exchanges: they alternate, and the last one is a response. */
  predicate Exchanges(fs: seq<Frame>, request: bool) {
    Alternate(fs, request) && (|fs| % 2 == 0) == request
  }

  lemma {:induction false} AlternateAt(fs: seq<Frame>, request: bool)
    ensures Alternate(fs, request) <==>
            forall i | 0 <= i < |fs| :: Sliceable(fs[i]) && IsRequest(fs[i].kind) == ((i % 2 == 0) == request)
    decreases |fs|
  {
    if fs != [] {
      AlternateAt(fs[1..], !request);
      if Alternate(fs, request) {
        forall i | 0 <= i < |fs|
          ensures Sliceable(fs[i]) && IsRequest(fs[i].kind) == ((i % 2 == 0) == request)
        {
          if i > 0 {
            assert fs[i] == fs[1..][i - 1];
          }
        }
      } else if Sliceable(fs[0]) && IsRequest(fs[0].kind) == request {
        var i :| 0 <= i < |fs[1..]|
                 && !(Sliceable(fs[1..][i]) && IsRequest(fs[1..][i].kind) == ((i % 2 == 0) == !request));
        assert fs[1..][i] == fs[i + 1];
      }
    }
  }

  lemma {:induction false} CutSound(b: Bytes, request: bool)
    requires Cut(b, request).Returns? && Cut(b, request).r.Ok?
    ensures var fs := Cut(b, request).r.value; Exchanges(fs, request) && Concat(fs) == b
    decreases |b|
  {
    hide FromLE, FrameBytes;
    if b != [] {
      var n, fs := FromLE(b[..4]), Cut(b, request).r.value;
      FrameRejoins(b);
      CutSound(b[4 + n..], !request);
      assert fs[1..] == Cut(b[4 + n..], !request).r.value;
      OddAndEven(|fs| - 1);
    }
  }

  lemma {:induction false} CutComplete(fs: seq<Frame>, request: bool)
    requires Exchanges(fs, request)
    ensures Cut(Concat(fs), request) == Returns(Ok(fs))
    decreases |fs|
  {
    hide FromLE;
    if fs != [] {
      FrameParts(fs[0], Concat(fs[1..]));
      OddAndEven(|fs| - 1);
      CutComplete(fs[1..], !request);
      assert [fs[0]] + fs[1..] == fs;
    }
  }

  /** SplitFrames accepts exactly the concatenations of whole exchanges, and gives their frames. */
  lemma SplitAcceptsExchanges(b: Bytes, fs: seq<Frame>)
    ensures Cut(b, true) == Returns(Ok(fs)) <==> Exchanges(fs, true) && b == Concat(fs)
  {
    hide Cut;
    if Cut(b, true) == Returns(Ok(fs)) {
      CutSound(b, true);
    }
    if Exchanges(fs, true) && b == Concat(fs) {
      CutComplete(fs, true);
    }
  }

  /** Frames read to the end of the stream are all there is in it. */
  lemma {:induction false} ReadAllSound(b: Bytes)
    requires ReadAll(b).1 == EOF
    ensures Concat(ReadAll(b).0) == b && AllSmall(ReadAll(b).0)
    decreases |b|
  {
    hide FromLE, FrameBytes;
    if b != [] {
      var f, rest, fs := ReadOne(b).v, ReadOne(b).rest, ReadAll(b).0;
      FrameRejoins(b);
      ReadAllSound(rest);
      assert fs[1..] == ReadAll(rest).0 && fs[0] == f;
    }
  }

  /**
    The splitter and a stream reader agree: frames of allowed length are what the splitter gives exactly
    when they are whole exchanges and what the reader gives up to the end.
   */
  lemma SplitAgreesWithReader(b: Bytes, fs: seq<Frame>)
    ensures Cut(b, true) == Returns(Ok(fs)) && AllSmall(fs) <==> ReadAll(b) == (fs, EOF) && Exchanges(fs, true)
  {
    hide Cut, Exchanges;
    SplitAcceptsExchanges(b, fs);
    if Cut(b, true) == Returns(Ok(fs)) && AllSmall(fs) {
      assert fs[..|fs|] == fs && b[..|b|] == b;
      CutStream(fs, |fs|, |b|);
    }
    if ReadAll(b) == (fs, EOF) {
      ReadAllSound(b);
    }
  }

  // ----- When SplitFrames does not return -----

  /** The bytes are frames that alternate and then a whole frame whose end does not fit 32 bits. */
  predicate EndsTooFar(b: Bytes, fs: seq<Frame>, f: Frame, rest: Bytes, request: bool) {
    Alternate(fs, request) && FitsLength(f) && !Sliceable(f) && b == Concat(fs) + FrameBytes(f) + rest
  }

  lemma {:induction false} PanicIsTooFar(b: Bytes, request: bool) returns (fs: seq<Frame>, f: Frame, rest: Bytes)
    requires Cut(b, request).Panics?
    ensures EndsTooFar(b, fs, f, rest, request)
    decreases |b|
  {
    hide FromLE, FrameBytes;
    var n := FromLE(b[..4]);
    FrameRejoins(b);
    var first := Frame(b[4], b[5..4 + n]);
    if n + 4 >= U32_END {
      fs, f, rest := [], first, b[4 + n..];
      assert Concat(fs) + FrameBytes(f) == FrameBytes(f);
    } else {
      var more;
      more, f, rest := PanicIsTooFar(b[4 + n..], !request);
      fs := [first] + more;
      assert fs[1..] == more;
      assert b == FrameBytes(first) + (Concat(more) + FrameBytes(f) + rest);
      assert b == Concat(fs) + FrameBytes(f) + rest;
    }
  }

  lemma {:induction false} TooFarPanics(fs: seq<Frame>, f: Frame, rest: Bytes, request: bool)
    requires Alternate(fs, request) && FitsLength(f) && !Sliceable(f)
    ensures Cut(Concat(fs) + FrameBytes(f) + rest, request).Panics?
    decreases |fs|
  {
    hide FromLE;
    if fs == [] {
      assert Concat(fs) + FrameBytes(f) + rest == FrameBytes(f) + rest;
      FrameParts(f, rest);
    } else {
      var tail := Concat(fs[1..]) + FrameBytes(f) + rest;
      assert Concat(fs) + FrameBytes(f) + rest == FrameBytes(fs[0]) + tail;
      FrameParts(fs[0], tail);
      TooFarPanics(fs[1..], f, rest, !request);
    }
  }

  /**
    SplitFrames panics, instead of returning frames or an error, if and only if its input has, after
    frames that alternate, a whole frame whose length field is 2^32 - 4 or more.
   */
  lemma SplitPanicsIff(b: Bytes)
    ensures Cut(b, true).Panics? <==> exists fs, f, rest :: EndsTooFar(b, fs, f, rest, true)
  {
    hide Cut;
    if Cut(b, true).Panics? {
      var fs, f, rest := PanicIsTooFar(b, true);
    }
    if fs, f, rest :| EndsTooFar(b, fs, f, rest, true) {
      TooFarPanics(fs, f, rest, true);
    }
  }

  /** Input of less than 2^32 bytes is too short for that. */
  lemma ShortInputReturns(b: Bytes)
    requires |b| < U32_END
    ensures Cut(b, true).Returns?
  {
    if Cut(b, true).Panics? {
      var fs, f, rest := PanicIsTooFar(b, true);
    }
  }

  /** A single request frame with a body of 2^32 - 5 bytes makes it panic. */
  lemma LongFramePanics()
    ensures Cut(FrameBytes(Frame(0, seq(U32_END - 5, _ => 0))), true).Panics?
  {
    var f := Frame(0, seq(U32_END - 5, _ => 0));
    TooFarPanics([], f, [], true);
    assert Concat([]) + FrameBytes(f) + [] == FrameBytes(f);
  }
}
