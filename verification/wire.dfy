/**
  Sequences of fields: a writer that appends the parts, a parser that stops at the first part it
  cannot read, and that the two are inverse when they are inverse on every part.
 */
module Sequences {
  import opened Wrappers
  import opened Bytes

  /** A pure parser's answer: a value and the bytes left, or the first failure. */
  datatype Parse<+T, +E> = Got(v: T, rest: Bytes) | Bad(e: E)

  function ParseSeq<F, T, E>(parse: (F, Bytes) -> Parse<T, E>, fs: seq<F>, b: Bytes): Parse<seq<T>, E>
    decreases |fs|
  {
    if fs == [] then Got([], b)
    else
      match parse(fs[0], b)
      case Bad(e) => Bad(e)
      case Got(v, rest) =>
        match ParseSeq(parse, fs[1..], rest)
        case Bad(e) => Bad(e)
        case Got(vs, rest') => Got([v] + vs, rest')
  }

  function WriteSeq<T>(write: T -> Bytes, vs: seq<T>): Bytes {
    if vs == [] then [] else write(vs[0]) + WriteSeq(write, vs[1..])
  }

  /** Each value is one of its format. */
  predicate Each<F, T>(ok: (F, T) -> bool, fs: seq<F>, vs: seq<T>) {
    |fs| == |vs| && (fs == [] || (ok(fs[0], vs[0]) && Each(ok, fs[1..], vs[1..])))
  }

  lemma EachAt<F, T>(ok: (F, T) -> bool, fs: seq<F>, vs: seq<T>)
    ensures Each(ok, fs, vs) <==> |fs| == |vs| && forall i | 0 <= i < |fs| :: ok(fs[i], vs[i])
  {
    if |fs| == |vs| > 0 {
      EachAt(ok, fs[1..], vs[1..]);
      if Each(ok, fs, vs) {
        forall i | 0 <= i < |fs| ensures ok(fs[i], vs[i]) {
          if i > 0 {
            assert fs[i] == fs[1..][i - 1] && vs[i] == vs[1..][i - 1];
          }
        }
      }
    }
  }

  ghost predicate ParseUndoesWrite<F(!new), T(!new), E>(
    parse: (F, Bytes) -> Parse<T, E>, write: T -> Bytes, ok: (F, T) -> bool) {
    forall f, v, rest: Bytes {:trigger parse(f, write(v) + rest)} ::
      ok(f, v) ==> parse(f, write(v) + rest) == Got(v, rest)
  }

  ghost predicate WriteUndoesParse<F(!new), T, E>(
    parse: (F, Bytes) -> Parse<T, E>, write: T -> Bytes, ok: (F, T) -> bool) {
    forall f, b: Bytes :: parse(f, b).Got? ==>
      ok(f, parse(f, b).v) && b == write(parse(f, b).v) + parse(f, b).rest
  }

  lemma {:induction false} ParseUndoesWriteSeq<F(!new), T(!new), E>(
    parse: (F, Bytes) -> Parse<T, E>, write: T -> Bytes, ok: (F, T) -> bool, fs: seq<F>, vs: seq<T>, rest: Bytes)
    requires ParseUndoesWrite(parse, write, ok) && Each(ok, fs, vs)
    ensures ParseSeq(parse, fs, WriteSeq(write, vs) + rest) == Got(vs, rest)
    decreases |fs|
  {
    if fs != [] {
      var tail := WriteSeq(write, vs[1..]) + rest;
      assert WriteSeq(write, vs) + rest == write(vs[0]) + tail;
      assert parse(fs[0], write(vs[0]) + tail) == Got(vs[0], tail);
      ParseUndoesWriteSeq(parse, write, ok, fs[1..], vs[1..], rest);
      assert [vs[0]] + vs[1..] == vs;
    }
  }

  lemma {:induction false} WriteUndoesParseSeq<F(!new), T, E>(
    parse: (F, Bytes) -> Parse<T, E>, write: T -> Bytes, ok: (F, T) -> bool, fs: seq<F>, b: Bytes)
    requires WriteUndoesParse(parse, write, ok) && ParseSeq(parse, fs, b).Got?
    ensures var p := ParseSeq(parse, fs, b); Each(ok, fs, p.v) && b == WriteSeq(write, p.v) + p.rest
    decreases |fs|
  {
    if fs != [] {
      var p, q := ParseSeq(parse, fs, b), parse(fs[0], b);
      WriteUndoesParseSeq(parse, write, ok, fs[1..], q.rest);
      assert p.v[1..] == ParseSeq(parse, fs[1..], q.rest).v;
      assert b == write(q.v) + (WriteSeq(write, p.v[1..]) + p.rest);
    }
  }

  // ----- Writing with a sticky error -----

  /** An encoder's fields: the bytes so far and the first error. */
  datatype EncState<E> = EncState(b: Bytes, err: Option<E>)

  function PutSeq<T, E>(put: (EncState<E>, T) -> EncState<E>, e: EncState<E>, vs: seq<T>): EncState<E>
    decreases |vs|
  {
    if vs == [] then e else PutSeq(put, put(e, vs[0]), vs[1..])
  }

  function FirstError<T, E>(error: T -> Option<E>, vs: seq<T>): Option<E> {
    if vs == [] then None else OrElse(error(vs[0]), FirstError(error, vs[1..]))
  }

  lemma NoErrorAt<T, E>(error: T -> Option<E>, vs: seq<T>)
    ensures FirstError(error, vs).None? <==> forall i | 0 <= i < |vs| :: error(vs[i]).None?
  {
    if vs != [] {
      NoErrorAt(error, vs[1..]);
      if FirstError(error, vs).None? {
        forall i | 0 <= i < |vs| ensures error(vs[i]).None? {
          if i > 0 {
            assert vs[i] == vs[1..][i - 1];
          }
        }
      }
    }
  }

  ghost predicate Appends<T(!new), E(!new)>(
    put: (EncState<E>, T) -> EncState<E>, write: T -> Bytes, error: T -> Option<E>) {
    forall e, v :: put(e, v) == EncState(e.b + write(v), OrElse(e.err, error(v)))
  }

  /** Putting a sequence appends what its parts write, and keeps the first error any of them notes. */
  lemma {:induction false} PutSeqAppends<T(!new), E(!new)>(
    put: (EncState<E>, T) -> EncState<E>, write: T -> Bytes, error: T -> Option<E>, e: EncState<E>, vs: seq<T>)
    requires Appends(put, write, error)
    ensures PutSeq(put, e, vs) == EncState(e.b + WriteSeq(write, vs), OrElse(e.err, FirstError(error, vs)))
    decreases |vs|
  {
    if vs != [] {
      PutSeqAppends(put, write, error, put(e, vs[0]), vs[1..]);
    }
  }
}

/**
  The body format of the DUT frame protocol, field by field: what the encoder writes, what the decoder
  accepts, and that the two are inverse. A body is a layout of fields; a list field repeats a row of
  scalar fields.
 */
module Wire {
  import opened Wrappers
  import opened Bytes
  import opened Sequences

  const U16_END := 0x1_0000
  const U32_END := 0x1_0000_0000
  const I64_END := 0x8000_0000_0000_0000
  const U64_END := 0x1_0000_0000_0000_0000

  type i64 = x: int | -I64_END <= x < I64_END

  /** An address; only an IPv4 address has bytes a body can carry. */
  datatype Addr = V4(a: byte, b: byte, c: byte, d: byte) | OtherAddr

  /** The format of a scalar field. */
  datatype Scalar =
    AsUint(width: nat) | AsEnum(count: nat) | AsBool | AsDur | AsBytes | AsStr | AsAddr | AsFixed(len: nat)

  /** A scalar field's value, with the format it is written in. */
  datatype Item =
    | Uint(width: nat, n: nat)
    | Enum(count: nat, e: byte)
    | Bool(v: bool)
    | Dur(ns: i64)
    | Blob(bs: Bytes)
    | Str(text: Bytes)
    | IP(addr: Addr)
    | Fixed(len: nat, raw: Bytes)

  function FormatOf(i: Item): Scalar {
    match i
    case Uint(w, _) => AsUint(w)
    case Enum(c, _) => AsEnum(c)
    case Bool(_) => AsBool
    case Dur(_) => AsDur
    case Blob(_) => AsBytes
    case Str(_) => AsStr
    case IP(_) => AsAddr
    case Fixed(len, _) => AsFixed(len)
  }

  /** The format of a field: one scalar, or a list whose rows take at least `min` bytes each. */
  datatype Ty = One(s: Scalar) | List(min: nat, row: seq<Scalar>)

  datatype Field = Single(item: Item) | Rows(rows: seq<seq<Item>>)

  // ----- Encoding -----

  datatype EncErr = NegativeDuration | StringTooLong | StringNotUTF8 | NotIPv4 | EnumOutOfRange | BadSeedLength

  /** The error the encoder notes for a value, if any. */
  function Refusal(i: Item): Option<EncErr> {
    match i
    case Enum(c, e) => if e >= c then Some(EnumOutOfRange) else None
    case Dur(ns) => if ns < 0 then Some(NegativeDuration) else None
    case Str(s) => if |s| > 0xffff then Some(StringTooLong) else if !ValidUTF8(s) then Some(StringNotUTF8) else None
    case IP(a) => if a.OtherAddr? then Some(NotIPv4) else None
    case Fixed(len, raw) => if |raw| != len then Some(BadSeedLength) else None
    case _ => None
  }

  /** What the encoder appends for a value, also when it notes an error. */
  function Written(i: Item): Bytes {
    match i
    case Uint(w, n) => LE(n, w)
    case Enum(_, e) => [e]
    case Bool(v) => [if v then 1 else 0]
    case Dur(ns) => LE(if ns < 0 then ns + U64_END else ns, 8)
    case Blob(bs) => LE(|bs|, 4) + bs
    case Str(s) => if |s| > 0xffff then LE(0, 2) else LE(|s|, 2) + s
    case IP(a) => if a.V4? then [a.a, a.b, a.c, a.d] else [0, 0, 0, 0]
    case Fixed(len, raw) => if |raw| >= len then raw[..len] else raw + seq(len - |raw|, _ => 0)
  }

  function Put(e: EncState<EncErr>, i: Item): EncState<EncErr> {
    EncState(e.b + Written(i), OrElse(e.err, Refusal(i)))
  }

  function PutRow(e: EncState<EncErr>, row: seq<Item>): EncState<EncErr> {
    PutSeq(Put, e, row)
  }

  /** A list writes its length, cut to 32 bits, and its rows. */
  function PutField(e: EncState<EncErr>, f: Field): EncState<EncErr> {
    match f
    case Single(i) => Put(e, i)
    case Rows(rows) => PutSeq(PutRow, e.(b := e.b + LE(|rows|, 4)), rows)
  }

  function PutAll(e: EncState<EncErr>, fs: seq<Field>): EncState<EncErr> {
    PutSeq(PutField, e, fs)
  }

  // ----- Decoding -----

  datatype DecErr =
    | Short | NotABool | DurationOverflow | BytesBeyondEnd | TextNotUTF8
    | EnumUnknown | ListBeyondEnd | TrailingBytes | UnknownKind

  function ParseScalar(s: Scalar, b: Bytes): Parse<Item, DecErr> {
    match s
    case AsUint(w) => if |b| < w then Bad(Short) else Got(Uint(w, FromLE(b[..w])), b[w..])
    case AsEnum(c) =>
      if |b| < 1 then Bad(Short) else if b[0] >= c then Bad(EnumUnknown) else Got(Enum(c, b[0]), b[1..])
    case AsBool =>
      if |b| < 1 then Bad(Short) else if b[0] > 1 then Bad(NotABool) else Got(Bool(b[0] == 1), b[1..])
    case AsDur =>
      if |b| < 8 then Bad(Short)
      else if FromLE(b[..8]) >= I64_END then Bad(DurationOverflow)
      else Got(Dur(FromLE(b[..8])), b[8..])
    case AsBytes =>
      if |b| < 4 then Bad(Short)
      else
        var n, rest := FromLE(b[..4]), b[4..];
        if n > |rest| then Bad(BytesBeyondEnd) else Got(Blob(rest[..n]), rest[n..])
    case AsStr =>
      if |b| < 2 then Bad(Short)
      else
        var n, rest := FromLE(b[..2]), b[2..];
        if n > |rest| then Bad(Short)
        else if !ValidUTF8(rest[..n]) then Bad(TextNotUTF8)
        else Got(Str(rest[..n]), rest[n..])
    case AsAddr => if |b| < 4 then Bad(Short) else Got(IP(V4(b[0], b[1], b[2], b[3])), b[4..])
    case AsFixed(len) => if |b| < len then Bad(Short) else Got(Fixed(len, b[..len]), b[len..])
  }

  function ParseRow(row: seq<Scalar>, b: Bytes): Parse<seq<Item>, DecErr> {
    ParseSeq(ParseScalar, row, b)
  }

  function ParseField(t: Ty, b: Bytes): Parse<Field, DecErr> {
    match t
    case One(s) => (match ParseScalar(s, b) case Bad(e) => Bad(e) case Got(i, rest) => Got(Single(i), rest))
    case List(min, row) =>
      if |b| < 4 then Bad(Short)
      else
        var n, rest := FromLE(b[..4]), b[4..];
        if n * min > |rest| then Bad(ListBeyondEnd)
        else
          match ParseSeq(ParseRow, Repeat(row, n), rest)
          case Bad(e) => Bad(e)
          case Got(rows, rest') => Got(Rows(rows), rest')
  }

  function Repeat<T>(t: T, n: nat): (ts: seq<T>)
    ensures |ts| == n && forall i | 0 <= i < n :: ts[i] == t
  {
    if n == 0 then [] else [t] + Repeat(t, n - 1)
  }

  function ParseAll(ts: seq<Ty>, b: Bytes): Parse<seq<Field>, DecErr> {
    ParseSeq(ParseField, ts, b)
  }

  // ----- Scalars: writing and parsing are inverse -----

  /** The value fits the bytes its format gives it: an integer its width, a length its 32 bits. */
  predicate Fits(i: Item) {
    (i.Uint? ==> i.n < Pow256(i.width)) && (i.Blob? ==> |i.bs| < U32_END)
  }

  /** The encoder takes the value without an error, and it fits. */
  predicate Carried(i: Item) {
    Refusal(i).None? && Fits(i)
  }

  predicate CarriedAs(s: Scalar, i: Item) {
    FormatOf(i) == s && Carried(i)
  }

  lemma Prefixed(h: Bytes, bs: Bytes, rest: Bytes)
    ensures var b := h + bs + rest;
            b[..|h|] == h && b[|h|..][..|bs|] == bs && b[|h|..][|bs|..] == rest
  {
    assert (h + bs + rest)[|h|..] == bs + rest;
  }

  lemma LengthPrefixed(n: nat, bs: Bytes, rest: Bytes)
    requires |bs| < Pow256(n)
    ensures var b := LE(|bs|, n) + bs + rest;
            && FromLE(b[..n]) == |bs| && b[n..][..|bs|] == bs && b[n..][|bs|..] == rest
  {
    LEReadsBack(|bs|, n);
    Prefixed(LE(|bs|, n), bs, rest);
  }

  lemma ParseUndoesWriteScalar(i: Item, rest: Bytes)
    requires Carried(i)
    ensures ParseScalar(FormatOf(i), Written(i) + rest) == Got(i, rest)
  {
    hide LE, FromLE, Pow256, ValidUTF8;
    var w := Written(i);
    var b := w + rest;
    Widths();
    assert b[..|w|] == w;
    assert b[|w|..] == rest;
    match i
    case Fixed(len, raw) => assert w == raw;
    case Uint(n, v) => LEReadsBack(v, n);
    case Dur(ns) => LEReadsBack(ns, 8);
    case Blob(bs) => LengthPrefixed(4, bs, rest);
    case Str(s) => LengthPrefixed(2, s, rest);
    case _ =>
  }

  lemma CutPrefix(b: Bytes, n: nat, m: nat)
    requires n + m <= |b|
    ensures b == b[..n] + b[n..][..m] + b[n..][m..]
  {
    assert b == b[..n] + b[n..];
    assert b[n..] == b[n..][..m] + b[n..][m..];
  }

  lemma WriteUndoesParseScalar(s: Scalar, b: Bytes)
    requires ParseScalar(s, b).Got?
    ensures var p := ParseScalar(s, b);
            CarriedAs(s, p.v) && b == Written(p.v) + p.rest
  {
    hide FromLE, LE, Pow256, ValidUTF8;
    Widths();
    match s
    case AsUint(n) => LEWritesBack(b[..n]);
    case AsDur => LEWritesBack(b[..8]);
    case AsBytes =>
      LEWritesBack(b[..4]);
      CutPrefix(b, 4, FromLE(b[..4]));
    case AsStr =>
      LEWritesBack(b[..2]);
      CutPrefix(b, 2, FromLE(b[..2]));
    case AsAddr => assert b == [b[0], b[1], b[2], b[3]] + b[4..];
    case AsFixed(n) =>
    case _ => assert b == [b[0]] + b[1..];
  }

  // ----- Rows, fields and bodies -----

  lemma ScalarsInverse()
    ensures ParseUndoesWrite(ParseScalar, Written, CarriedAs)
    ensures WriteUndoesParse(ParseScalar, Written, CarriedAs)
  {
    forall s, i, rest: Bytes | CarriedAs(s, i) ensures ParseScalar(s, Written(i) + rest) == Got(i, rest) {
      ParseUndoesWriteScalar(i, rest);
    }
    forall s, b: Bytes | ParseScalar(s, b).Got?
      ensures var p := ParseScalar(s, b); CarriedAs(s, p.v) && b == Written(p.v) + p.rest
    {
      WriteUndoesParseScalar(s, b);
    }
  }

  function WrittenRow(row: seq<Item>): Bytes {
    WriteSeq(Written, row)
  }

  predicate CarriedRow(row: seq<Scalar>, items: seq<Item>) {
    Each(CarriedAs, row, items)
  }

  lemma RowsInverse()
    ensures ParseUndoesWrite(ParseRow, WrittenRow, CarriedRow)
    ensures WriteUndoesParse(ParseRow, WrittenRow, CarriedRow)
  {
    ScalarsInverse();
    forall row, items, rest: Bytes | CarriedRow(row, items)
      ensures ParseRow(row, WrittenRow(items) + rest) == Got(items, rest)
    {
      ParseUndoesWriteSeq(ParseScalar, Written, CarriedAs, row, items, rest);
    }
    forall row, b: Bytes | ParseRow(row, b).Got?
      ensures var p := ParseRow(row, b); CarriedRow(row, p.v) && b == WrittenRow(p.v) + p.rest
    {
      WriteUndoesParseSeq(ParseScalar, Written, CarriedAs, row, b);
    }
  }

  /** The fewest bytes a value of the format takes. */
  function MinLen(s: Scalar): nat {
    match s
    case AsUint(w) => w
    case AsEnum(_) => 1
    case AsBool => 1
    case AsDur => 8
    case AsBytes => 4
    case AsStr => 2
    case AsAddr => 4
    case AsFixed(len) => len
  }

  function MinRow(row: seq<Scalar>): nat {
    if row == [] then 0 else MinLen(row[0]) + MinRow(row[1..])
  }

  lemma {:induction false} RowIsLongEnough(row: seq<Scalar>, items: seq<Item>)
    requires CarriedRow(row, items)
    ensures |WrittenRow(items)| >= MinRow(row)
    decreases |row|
  {
    if row != [] {
      assert |Written(items[0])| >= MinLen(row[0]);
      RowIsLongEnough(row[1..], items[1..]);
    }
  }

  lemma RepeatTail<T>(t: T, n: nat)
    requires n > 0
    ensures Repeat(t, n)[0] == t && Repeat(t, n)[1..] == Repeat(t, n - 1)
  {
  }

  lemma OneMoreTimes(n: nat, min: nat)
    requires n > 0
    ensures n * min == min + (n - 1) * min
  {
  }

  lemma {:induction false} RowsAreLongEnough(row: seq<Scalar>, rows: seq<seq<Item>>, min: nat)
    requires Each(CarriedRow, Repeat(row, |rows|), rows) && min <= MinRow(row)
    ensures |WriteSeq(WrittenRow, rows)| >= |rows| * min
    decreases |rows|
  {
    hide CarriedRow, WrittenRow, MinRow;
    if rows != [] {
      RowIsLongEnough(row, rows[0]);
      RepeatTail(row, |rows|);
      RowsAreLongEnough(row, rows[1..], min);
      OneMoreTimes(|rows|, min);
    }
  }

  /** A list's claim about its rows' length is one its rows keep. */
  predicate Sound(t: Ty) {
    t.List? ==> 4 <= t.min <= MinRow(t.row)
  }

  /** f is a value of format t that the encoder takes and whose lengths fit. */
  predicate CarriedField(t: Ty, f: Field) {
    match t
    case One(s) => f.Single? && CarriedAs(s, f.item)
    case List(_, row) => Sound(t) && f.Rows? && |f.rows| < U32_END && Each(CarriedRow, Repeat(row, |f.rows|), f.rows)
  }

  function WrittenField(f: Field): Bytes {
    match f
    case Single(i) => Written(i)
    case Rows(rows) => LE(|rows|, 4) + WriteSeq(WrittenRow, rows)
  }

  lemma ParseUndoesWriteField(t: Ty, f: Field, rest: Bytes)
    requires CarriedField(t, f)
    ensures ParseField(t, WrittenField(f) + rest) == Got(f, rest)
  {
    match t
    case One(_) => ParseUndoesWriteScalar(f.item, rest);
    case List(min, row) => ParseUndoesWriteList(min, row, f.rows, rest);
  }

  lemma ParseUndoesWriteList(min: nat, row: seq<Scalar>, rows: seq<seq<Item>>, rest: Bytes)
    requires CarriedField(List(min, row), Rows(rows))
    ensures ParseField(List(min, row), WrittenField(Rows(rows)) + rest) == Got(Rows(rows), rest)
  {
    hide ParseScalar, Written, CarriedRow, ParseRow, WrittenRow, MinRow, LE, FromLE, Pow256;
    Widths();
    LEReadsBack(|rows|, 4);
    Prefixed(LE(|rows|, 4), WriteSeq(WrittenRow, rows), rest);
    Assoc(LE(|rows|, 4), WriteSeq(WrittenRow, rows), rest);
    assert (WrittenField(Rows(rows)) + rest)[4..] == WriteSeq(WrittenRow, rows) + rest;
    RowsAreLongEnough(row, rows, min);
    RowsInverse();
    ParseUndoesWriteSeq(ParseRow, WrittenRow, CarriedRow, Repeat(row, |rows|), rows, rest);
  }

  lemma WriteUndoesParseField(t: Ty, b: Bytes)
    requires Sound(t) && ParseField(t, b).Got?
    ensures var p := ParseField(t, b); CarriedField(t, p.v) && b == WrittenField(p.v) + p.rest
  {
    match t
    case One(s) => WriteUndoesParseScalar(s, b);
    case List(min, row) =>
      var n, p := FromLE(b[..4]), ParseField(t, b);
      Widths();
      LEWritesBack(b[..4]);
      RowsInverse();
      WriteUndoesParseSeq(ParseRow, WrittenRow, CarriedRow, Repeat(row, n), b[4..]);
      assert b == b[..4] + b[4..] == b[..4] + WriteSeq(WrittenRow, p.v.rows) + p.rest;
  }

  predicate SoundAll(ts: seq<Ty>) {
    forall t <- ts :: Sound(t)
  }

  /** ParseField on sound formats only, so that it is inverse to WrittenField on all of them. */
  function ParseSound(t: Ty, b: Bytes): Parse<Field, DecErr> {
    if Sound(t) then ParseField(t, b) else Bad(Short)
  }

  lemma FieldsInverse()
    ensures ParseUndoesWrite(ParseSound, WrittenField, CarriedField)
    ensures WriteUndoesParse(ParseSound, WrittenField, CarriedField)
  {
    forall t, f, rest: Bytes | CarriedField(t, f) ensures ParseSound(t, WrittenField(f) + rest) == Got(f, rest) {
      ParseUndoesWriteField(t, f, rest);
    }
    forall t, b: Bytes | ParseSound(t, b).Got?
      ensures var p := ParseSound(t, b); CarriedField(t, p.v) && b == WrittenField(p.v) + p.rest
    {
      WriteUndoesParseField(t, b);
    }
  }

  lemma {:induction false} SoundParsesAgree(ts: seq<Ty>, b: Bytes)
    requires SoundAll(ts)
    ensures ParseSeq(ParseSound, ts, b) == ParseAll(ts, b)
    decreases |ts|
  {
    if ts != [] {
      assert Sound(ts[0]);
      var q := ParseField(ts[0], b);
      if q.Got? {
        SoundParsesAgree(ts[1..], q.rest);
      }
    }
  }

  function WrittenAll(fs: seq<Field>): Bytes {
    WriteSeq(WrittenField, fs)
  }

  predicate CarriedAll(ts: seq<Ty>, fs: seq<Field>) {
    Each(CarriedField, ts, fs)
  }

  /** Every body the encoder can write reads back to the fields it was written from. */
  lemma ParseUndoesWriteAll(ts: seq<Ty>, fs: seq<Field>, rest: Bytes)
    requires SoundAll(ts) && CarriedAll(ts, fs)
    ensures ParseAll(ts, WrittenAll(fs) + rest) == Got(fs, rest)
  {
    FieldsInverse();
    ParseUndoesWriteSeq(ParseSound, WrittenField, CarriedField, ts, fs, rest);
    SoundParsesAgree(ts, WrittenAll(fs) + rest);
  }

  /** Every body the parser accepts is the one encoding of what it reads. */
  lemma WriteUndoesParseAll(ts: seq<Ty>, b: Bytes)
    requires SoundAll(ts) && ParseAll(ts, b).Got?
    ensures var p := ParseAll(ts, b); CarriedAll(ts, p.v) && b == WrittenAll(p.v) + p.rest
  {
    FieldsInverse();
    SoundParsesAgree(ts, b);
    WriteUndoesParseSeq(ParseSound, WrittenField, CarriedField, ts, b);
  }

  // ----- The encoder's sticky error -----

  function RowError(row: seq<Item>): Option<EncErr> {
    FirstError(Refusal, row)
  }

  function FieldError(f: Field): Option<EncErr> {
    if f.Single? then Refusal(f.item) else FirstError(RowError, f.rows)
  }

  lemma RowAppends()
    ensures Appends(PutRow, WrittenRow, RowError)
  {
    assert Appends(Put, Written, Refusal);
    forall e: EncState<EncErr>, row: seq<Item>
      ensures PutRow(e, row) == EncState(e.b + WrittenRow(row), OrElse(e.err, RowError(row)))
    {
      PutSeqAppends(Put, Written, Refusal, e, row);
    }
  }

  lemma RowsAppend(e: EncState<EncErr>, rows: seq<seq<Item>>)
    ensures PutField(e, Rows(rows)) == EncState(e.b + WrittenField(Rows(rows)), OrElse(e.err, FieldError(Rows(rows))))
  {
    var n := LE(|rows|, 4);
    RowAppends();
    PutSeqAppends(PutRow, WrittenRow, RowError, EncState(e.b + n, e.err), rows);
    Assoc(e.b, n, WriteSeq(WrittenRow, rows));
  }

  lemma Assoc(a: Bytes, b: Bytes, c: Bytes)
    ensures a + b + c == a + (b + c)
  {
  }

  lemma FieldAppends()
    ensures Appends(PutField, WrittenField, FieldError)
  {
    forall e: EncState<EncErr>, f: Field
      ensures PutField(e, f) == EncState(e.b + WrittenField(f), OrElse(e.err, FieldError(f)))
    {
      if f.Rows? {
        RowsAppend(e, f.rows);
      }
    }
  }

  /** The encoder writes every field and reports the first error any field noted. */
  lemma PutAllMeaning(fs: seq<Field>)
    ensures PutAll(EncState([], None), fs) == EncState(WrittenAll(fs), FirstError(FieldError, fs))
  {
    FieldAppends();
    PutSeqAppends(PutField, WrittenField, FieldError, EncState([], None), fs);
  }

  // ----- Where the bytes of a body are -----

  /** A body's scalars in order; a list is its length and then the scalars of its rows. */
  function Flat(fs: seq<Field>): seq<Item> {
    if fs == [] then [] else FlatField(fs[0]) + Flat(fs[1..])
  }

  function FlatField(f: Field): seq<Item> {
    match f
    case Single(i) => [i]
    case Rows(rows) => [Uint(4, |rows|)] + FlatRows(rows)
  }

  function FlatRows(rows: seq<seq<Item>>): seq<Item> {
    if rows == [] then [] else rows[0] + FlatRows(rows[1..])
  }

  /** The bytes a scalar the encoder takes occupies. */
  function Size(i: Item): nat {
    match i
    case Uint(w, _) => w
    case Enum(_, _) => 1
    case Bool(_) => 1
    case Dur(_) => 8
    case Blob(bs) => 4 + |bs|
    case Str(s) => 2 + |s|
    case IP(_) => 4
    case Fixed(len, _) => len
  }

  function Sizes(items: seq<Item>): nat {
    if items == [] then 0 else Sizes(items[..|items| - 1]) + Size(items[|items| - 1])
  }

  /** The bytes of b from `at` on are the n lowest digits of v, the least significant first. */
  predicate Digits(b: Bytes, at: nat, v: nat, n: nat) {
    at + n <= |b| && forall i | 0 <= i < n :: b[at + i] == DigitAt(v, i)
  }

  predicate Verbatim(b: Bytes, at: nat, bs: Bytes) {
    at + |bs| <= |b| && forall i | 0 <= i < |bs| :: b[at + i] == bs[i]
  }

  /** The bytes of b from `at` on are the scalar, byte by byte. */
  predicate Holds(b: Bytes, at: nat, i: Item) {
    match i
    case Uint(w, n) => Digits(b, at, n, w)
    case Enum(_, e) => Verbatim(b, at, [e])
    case Bool(v) => Verbatim(b, at, [if v then 1 else 0])
    case Dur(ns) => ns >= 0 && Digits(b, at, ns, 8)
    case Blob(bs) => Digits(b, at, |bs|, 4) && Verbatim(b, at + 4, bs)
    case Str(s) => Digits(b, at, |s|, 2) && Verbatim(b, at + 2, s)
    case IP(a) => a.V4? && Verbatim(b, at, [a.a, a.b, a.c, a.d])
    case Fixed(_, raw) => Verbatim(b, at, raw)
  }

  lemma LEIsDigits(before: Bytes, v: nat, n: nat, rest: Bytes)
    ensures Digits(before + LE(v, n) + rest, |before|, v, n)
  {
    hide LE, DigitAt;
    forall i | 0 <= i < n ensures (before + LE(v, n) + rest)[|before| + i] == DigitAt(v, i) {
      LEDigits(v, n, i);
    }
  }

  lemma PrefixedHolds(before: Bytes, n: nat, bs: Bytes, rest: Bytes)
    ensures var b := before + (LE(|bs|, n) + bs) + rest;
            Digits(b, |before|, |bs|, n) && Verbatim(b, |before| + n, bs)
  {
    hide LE, DigitAt;
    var b := before + (LE(|bs|, n) + bs) + rest;
    LEIsDigits(before, |bs|, n, bs + rest);
    assert b == before + LE(|bs|, n) + (bs + rest);
  }

  lemma WrittenHolds(before: Bytes, i: Item, rest: Bytes)
    requires Refusal(i).None?
    ensures |Written(i)| == Size(i) && Holds(before + Written(i) + rest, |before|, i)
  {
    hide LE, Digits, ValidUTF8;
    match i
    case Uint(w, n) => LEIsDigits(before, n, w, rest);
    case Dur(ns) => LEIsDigits(before, ns, 8, rest);
    case Blob(bs) => PrefixedHolds(before, 4, bs, rest);
    case Str(s) => PrefixedHolds(before, 2, s, rest);
    case _ =>
  }

  lemma {:induction false} WriteSeqJoins<T>(write: T -> Bytes, a: seq<T>, b: seq<T>)
    ensures WriteSeq(write, a + b) == WriteSeq(write, a) + WriteSeq(write, b)
    decreases |a|
  {
    if a == [] {
      assert a + b == b;
    } else {
      assert (a + b)[1..] == a[1..] + b;
      WriteSeqJoins(write, a[1..], b);
    }
  }

  lemma {:induction false} RowsAreFlat(rows: seq<seq<Item>>)
    ensures WriteSeq(WrittenRow, rows) == WriteSeq(Written, FlatRows(rows))
    decreases |rows|
  {
    if rows != [] {
      RowsAreFlat(rows[1..]);
      WriteSeqJoins(Written, rows[0], FlatRows(rows[1..]));
    }
  }

  lemma FieldIsFlat(f: Field)
    ensures WrittenField(f) == WriteSeq(Written, FlatField(f))
  {
    hide LE;
    match f
    case Single(i) => assert [i][1..] == [];
    case Rows(rows) =>
      RowsAreFlat(rows);
      WriteSeqJoins(Written, [Uint(4, |rows|)], FlatRows(rows));
      assert [Uint(4, |rows|)][1..] == [];
  }

  lemma {:induction false} BodyIsFlat(fs: seq<Field>)
    ensures WrittenAll(fs) == WriteSeq(Written, Flat(fs))
    decreases |fs|
  {
    if fs != [] {
      FieldIsFlat(fs[0]);
      BodyIsFlat(fs[1..]);
      WriteSeqJoins(Written, FlatField(fs[0]), Flat(fs[1..]));
    }
  }

  lemma {:induction false} ErrorsJoin(a: seq<Item>, b: seq<Item>)
    ensures FirstError(Refusal, a + b) == OrElse(FirstError(Refusal, a), FirstError(Refusal, b))
    decreases |a|
  {
    if a == [] {
      assert a + b == b;
    } else {
      assert (a + b)[1..] == a[1..] + b;
      ErrorsJoin(a[1..], b);
    }
  }

  lemma {:induction false} RowErrorsAreFlat(rows: seq<seq<Item>>)
    ensures FirstError(RowError, rows) == FirstError(Refusal, FlatRows(rows))
    decreases |rows|
  {
    if rows != [] {
      RowErrorsAreFlat(rows[1..]);
      ErrorsJoin(rows[0], FlatRows(rows[1..]));
    }
  }

  lemma {:induction false} ErrorsAreFlat(fs: seq<Field>)
    ensures FirstError(FieldError, fs) == FirstError(Refusal, Flat(fs))
    decreases |fs|
  {
    if fs != [] {
      ErrorsAreFlat(fs[1..]);
      ErrorsJoin(FlatField(fs[0]), Flat(fs[1..]));
      if fs[0].Rows? {
        RowErrorsAreFlat(fs[0].rows);
        ErrorsJoin([Uint(4, |fs[0].rows|)], FlatRows(fs[0].rows));
        assert [Uint(4, |fs[0].rows|)][1..] == [];
      } else {
        assert [fs[0].item][1..] == [];
      }
    }
  }

  lemma {:induction false} SizesAreLengths(items: seq<Item>)
    requires FirstError(Refusal, items).None?
    ensures |WriteSeq(Written, items)| == Sizes(items)
    decreases |items|
  {
    if items != [] {
      var n := |items| - 1;
      var last := items[n];
      assert items == items[..n] + [last] && [last][1..] == [];
      ErrorsJoin(items[..n], [last]);
      WriteSeqJoins(Written, items[..n], [last]);
      SizesAreLengths(items[..n]);
      WrittenHolds([], last, []);
    }
  }

  /**
    Scalar k of a body without errors stands, byte by byte, after the bytes that those before it take, and the
    body is as long as its scalars together.
   */
  lemma ScalarAt(fs: seq<Field>, k: nat)
    requires FirstError(FieldError, fs).None? && k < |Flat(fs)|
    ensures Holds(WrittenAll(fs), Sizes(Flat(fs)[..k]), Flat(fs)[k]) && |WrittenAll(fs)| == Sizes(Flat(fs))
  {
    hide Written, Refusal, Size, Holds, Flat;
    var items := Flat(fs);
    var before, i, rest := items[..k], items[k], items[k + 1..];
    BodyIsFlat(fs);
    ErrorsAreFlat(fs);
    assert items == before + ([i] + rest) && ([i] + rest)[1..] == rest;
    ErrorsJoin(before, [i] + rest);
    WriteSeqJoins(Written, before, [i] + rest);
    SizesAreLengths(before);
    SizesAreLengths(items);
    WrittenHolds(WriteSeq(Written, before), i, WriteSeq(Written, rest));
    Assoc(WriteSeq(Written, before), Written(i), WriteSeq(Written, rest));
  }
}
