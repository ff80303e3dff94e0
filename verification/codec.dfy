/**
  The encoder and decoder of a body as the objects that the messages' encode and decode methods call:
  each appends to or cuts from one byte slice, and its first error sticks. A message's straight-line
  method is the loop over its fields.
 */
module Codec {
  import opened Wrappers
  import opened Bytes
  import opened Sequences
  import opened Wire
  import Messages

  // ----- Encoding -----

  class Enc {
    var b: Bytes
    var err: Option<EncErr>

    function View(): EncState<EncErr>
      reads this
    {
      EncState(b, err)
    }

    constructor ()
      ensures View() == EncState([], None)
    {
      b, err := [], None;
    }

    method Fail(e: EncErr)
      modifies this
      ensures b == old(b) && err == OrElse(old(err), Some(e))
    {
      if err.None? {
        err := Some(e);
      }
    }

    /** Appends n as a little-endian integer of w bytes. */
    method Uint(w: nat, n: nat)
      modifies this
      ensures View() == Put(old(View()), Item.Uint(w, n))
    {
      b := b + LE(n, w);
    }

    method Dur(ns: i64)
      modifies this
      ensures View() == Put(old(View()), Item.Dur(ns))
    {
      if ns < 0 {
        Fail(NegativeDuration);
      }
      Uint(8, if ns < 0 then ns + U64_END else ns);
    }

    method ByteString(bs: Bytes)
      modifies this
      ensures View() == Put(old(View()), Blob(bs))
    {
      Uint(4, |bs|);
      b := b + bs;
    }

    method Str(text: Bytes)
      modifies this
      ensures View() == Put(old(View()), Item.Str(text))
    {
      var s := text;
      if |s| > 0xffff {
        Fail(StringTooLong);
        s := [];
      }
      if !ValidUTF8(s) {
        Fail(StringNotUTF8);
      }
      Uint(2, |s|);
      b := b + s;
    }

    method Address(addr: Addr)
      modifies this
      ensures View() == Put(old(View()), IP(addr))
    {
      var a := addr;
      if a.OtherAddr? {
        Fail(NotIPv4);
        a := V4(0, 0, 0, 0);
      }
      b := b + [a.a, a.b, a.c, a.d];
    }

    method Enum(count: nat, e: byte)
      modifies this
      ensures View() == Put(old(View()), Item.Enum(count, e))
    {
      if e >= count {
        Fail(EnumOutOfRange);
      }
      b := b + [e];
    }

    /** Appends raw copied into an array of len bytes. */
    method Fixed(len: nat, raw: Bytes)
      modifies this
      ensures View() == Put(old(View()), Item.Fixed(len, raw))
    {
      if |raw| != len {
        Fail(BadSeedLength);
      }
      b := b + if |raw| >= len then raw[..len] else raw + seq(len - |raw|, _ => 0);
    }

    method Scalar(i: Item)
      modifies this
      ensures View() == Put(old(View()), i)
    {
      match i
      case Uint(w, n) => Uint(w, n);
      case Enum(c, e) => Enum(c, e);
      case Bool(v) => Uint(1, if v then 1 else 0);
      case Dur(ns) => Dur(ns);
      case Blob(bs) => ByteString(bs);
      case Str(text) => Str(text);
      case IP(a) => Address(a);
      case Fixed(len, raw) => Fixed(len, raw);
    }

    method Row(row: seq<Item>)
      modifies this
      ensures View() == PutRow(old(View()), row)
    {
      for i := 0 to |row|
        invariant PutRow(View(), row[i..]) == PutRow(old(View()), row)
      {
        Scalar(row[i]);
        assert row[i..][1..] == row[i + 1..];
      }
    }

    /** A scalar, or the length of a list and its rows. */
    method Field(f: Wire.Field)
      modifies this
      ensures View() == PutField(old(View()), f)
    {
      match f
      case Single(i) => Scalar(i);
      case Rows(rows) =>
        Uint(4, |rows|);
        ghost var begun := View();
        for i := 0 to |rows|
          invariant PutSeq(PutRow, View(), rows[i..]) == PutSeq(PutRow, begun, rows)
        {
          Row(rows[i]);
          assert rows[i..][1..] == rows[i + 1..];
        }
    }
  }

  method Encode(m: Messages.Msg) returns (r: Result<Bytes, EncErr>)
    ensures r == Messages.Encode(m)
  {
    var e := new Enc();
    var fs := Messages.Fields(m);
    for i := 0 to |fs|
      invariant fresh(e)
      invariant PutAll(e.View(), fs[i..]) == PutAll(EncState([], None), fs)
    {
      e.Field(fs[i]);
      assert fs[i..][1..] == fs[i + 1..];
    }
    r := if e.err.Some? then Err(e.err.value) else Ok(e.b);
  }

  // ----- Decoding -----

  /** A decoder between two reads: what is left of the body, or the error that stopped it. */
  datatype DecState = Reading(b: Bytes) | Stopped(err: DecErr)

  /** What a decoder in state d reads next with a parser of one format. */
  function After<F, T>(d: DecState, parse: (F, Bytes) -> Parse<T, DecErr>, f: F): Parse<T, DecErr> {
    match d
    case Stopped(e) => Bad(e)
    case Reading(b) => parse(f, b)
  }

  function SeqAfter<F, T>(d: DecState, parse: (F, Bytes) -> Parse<T, DecErr>, fs: seq<F>): Parse<seq<T>, DecErr> {
    match d
    case Stopped(e) => Bad(e)
    case Reading(b) => ParseSeq(parse, fs, b)
  }

  /** The answer of a read that returned v and left the decoder in state d. */
  function Answer<T>(d: DecState, v: T): Parse<T, DecErr> {
    match d
    case Stopped(e) => Bad(e)
    case Reading(b) => Got(v, b)
  }

  function Prepend<T>(vs: seq<T>, p: Parse<seq<T>, DecErr>): Parse<seq<T>, DecErr> {
    match p
    case Bad(e) => Bad(e)
    case Got(us, rest) => Got(vs + us, rest)
  }

  lemma PrependNothing<T>(p: Parse<seq<T>, DecErr>)
    ensures Prepend([], p) == p
  {
    if p.Got? {
      assert [] + p.v == p.v;
    }
  }

  lemma PrependLast<F, T>(vs: seq<T>, d: DecState, parse: (F, Bytes) -> Parse<T, DecErr>)
    ensures Prepend(vs, SeqAfter(d, parse, [])) == Answer(d, vs)
  {
    assert vs + [] == vs;
  }

  /** A row that can be read takes at least its formats' fewest bytes. */
  lemma RowTakes(row: seq<Scalar>, b: Bytes)
    requires ParseRow(row, b).Got?
    ensures |ParseRow(row, b).rest| + MinRow(row) <= |b|
  {
    var p := ParseRow(row, b);
    RowsInverse();
    assert CarriedRow(row, p.v) && b == WrittenRow(p.v) + p.rest;
    RowIsLongEnough(row, p.v);
  }

  /** Reading format i of fs after the values vs, and then the rest, is reading from format i on. */
  lemma ReadOne<F, T>(
    d: DecState, parse: (F, Bytes) -> Parse<T, DecErr>, fs: seq<F>, i: nat, vs: seq<T>, v: T, d': DecState)
    requires i < |fs| && Answer(d', v) == After(d, parse, fs[i])
    ensures Prepend(vs + [v], SeqAfter(d', parse, fs[i + 1..])) == Prepend(vs, SeqAfter(d, parse, fs[i..]))
  {
    assert fs[i..][1..] == fs[i + 1..];
    if d'.Reading? && ParseSeq(parse, fs[i + 1..], d'.b).Got? {
      var us := ParseSeq(parse, fs[i + 1..], d'.b).v;
      assert vs + [v] + us == vs + ([v] + us);
    }
  }

  class Dec {
    var b: Bytes
    var err: Option<DecErr>
    /** Bytes copied out of the body, and list elements made, so far. */
    ghost var copied: nat
    ghost var made: nat
    ghost const total: nat

    function View(): DecState
      reads this
    {
      if err.Some? then Stopped(err.value) else Reading(b)
    }

    ghost predicate Valid()
      reads this
    {
      && copied + |b| <= total
      && 4 * made <= total
      && (err.None? ==> 4 * made + |b| <= total)
    }

    constructor (body: Bytes)
      ensures Valid() && View() == Reading(body) && total == |body|
    {
      b, err := body, None;
      copied, made, total := 0, 0, |body|;
    }

    /** The next n bytes, or None once there has been an error or fewer are left. */
    method Take(n: nat) returns (v: Option<Bytes>)
      requires Valid()
      modifies this
      ensures Valid() && copied == old(copied) && made == old(made)
      ensures v.Some? <==> old(err).None? && n <= |old(b)|
      ensures v.Some? ==> err.None? && v.value == old(b)[..n] && b == old(b)[n..]
      ensures v.None? ==> b == old(b) && err == OrElse(old(err), Some(Short))
    {
      if err.Some? {
        return None;
      }
      if |b| < n {
        err := Some(Short);
        return None;
      }
      v := Some(b[..n]);
      b := b[n..];
    }

    method Fail(e: DecErr)
      requires Valid()
      modifies this
      ensures Valid() && b == old(b) && err == OrElse(old(err), Some(e)) && copied == old(copied) && made == old(made)
    {
      if err.None? {
        err := Some(e);
      }
    }

    /** A little-endian integer of w bytes, 0 after an error. */
    method Uint(w: nat) returns (n: nat)
      requires Valid()
      modifies this
      ensures Valid() && copied == old(copied) && made == old(made)
      ensures Answer(View(), Item.Uint(w, n)) == After(old(View()), ParseScalar, AsUint(w))
      ensures err.Some? ==> n == 0
    {
      var v := Take(w);
      n := if v.Some? then FromLE(v.value) else 0;
    }

    method Bool() returns (v: bool)
      requires Valid()
      modifies this
      ensures Valid() && made == old(made)
      ensures Answer(View(), Item.Bool(v)) == After(old(View()), ParseScalar, AsBool)
    {
      var n := Uint(1);
      if n > 1 {
        Fail(NotABool);
      }
      v := n == 1;
    }

    method Dur() returns (ns: i64)
      requires Valid()
      modifies this
      ensures Valid() && made == old(made)
      ensures Answer(View(), Item.Dur(ns)) == After(old(View()), ParseScalar, AsDur)
    {
      Widths();
      var n := Uint(8);
      if n >= I64_END {
        Fail(DurationOverflow);
      }
      ns := if n >= I64_END then n - U64_END else n;
    }

    method Enum(count: nat) returns (e: byte)
      requires Valid()
      modifies this
      ensures Valid() && made == old(made)
      ensures Answer(View(), Item.Enum(count, e)) == After(old(View()), ParseScalar, AsEnum(count))
    {
      Widths();
      e := Uint(1);
      if e >= count {
        Fail(EnumUnknown);
      }
    }

    method ByteString() returns (bs: Bytes)
      requires Valid()
      modifies this
      ensures Valid() && made == old(made)
      ensures Answer(View(), Blob(bs)) == After(old(View()), ParseScalar, AsBytes)
    {
      var n := Uint(4);
      if err.None? && n > |b| {
        Fail(BytesBeyondEnd);
        return [];
      }
      bs := Copy(n);
    }

    /** A copy of the next n bytes. */
    method Copy(n: nat) returns (bs: Bytes)
      requires Valid()
      modifies this
      ensures Valid() && made == old(made)
      ensures Answer(View(), Item.Fixed(n, bs)) == After(old(View()), ParseScalar, AsFixed(n))
    {
      var v := Take(n);
      bs := if v.Some? then v.value else [];
      copied := copied + |bs|;
    }

    method Str() returns (s: Bytes)
      requires Valid()
      modifies this
      ensures Valid() && made == old(made)
      ensures Answer(View(), Item.Str(s)) == After(old(View()), ParseScalar, AsStr)
    {
      var n := Uint(2);
      s := Copy(n);
      if err.None? && !ValidUTF8(s) {
        Fail(TextNotUTF8);
      }
    }

    method Address() returns (a: Addr)
      requires Valid()
      modifies this
      ensures Valid() && made == old(made)
      ensures Answer(View(), IP(a)) == After(old(View()), ParseScalar, AsAddr)
    {
      var v := Take(4);
      a := if v.Some? then V4(v.value[0], v.value[1], v.value[2], v.value[3]) else OtherAddr;
    }

    method Scalar(s: Wire.Scalar) returns (i: Item)
      requires Valid()
      modifies this
      ensures Valid() && made == old(made)
      ensures Answer(View(), i) == After(old(View()), ParseScalar, s)
    {
      match s
      case AsUint(w) => var n := Uint(w); i := Item.Uint(w, n);
      case AsEnum(c) => var e := Enum(c); i := Item.Enum(c, e);
      case AsBool => var v := Bool(); i := Item.Bool(v);
      case AsDur => var ns := Dur(); i := Item.Dur(ns);
      case AsBytes => var bs := ByteString(); i := Blob(bs);
      case AsStr => var text := Str(); i := Item.Str(text);
      case AsAddr => var a := Address(); i := IP(a);
      case AsFixed(len) => var raw := Copy(len); i := Item.Fixed(len, raw);
    }

    method Row(row: seq<Wire.Scalar>) returns (items: seq<Item>)
      requires Valid()
      modifies this
      ensures Valid() && made == old(made)
      ensures Answer(View(), items) == After(old(View()), ParseRow, row)
    {
      items := [];
      ghost var begun := View();
      assert row[0..] == row;
      PrependNothing(SeqAfter(begun, ParseScalar, row));
      for i := 0 to |row|
        invariant Valid() && made == old(made)
        invariant Prepend(items, SeqAfter(View(), ParseScalar, row[i..])) == SeqAfter(begun, ParseScalar, row)
      {
        ghost var before := View();
        var item := Scalar(row[i]);
        ReadOne(before, ParseScalar, row, i, items, item, View());
        items := items + [item];
      }
      PrependLast(items, View(), ParseScalar);
    }

    /** A list's length, refused when its elements of at least min bytes each cannot all be left. */
    method List(min: nat) returns (n: nat)
      requires Valid() && 4 <= min
      modifies this
      ensures Valid() && made == old(made)
      ensures err.None? ==>
        n * min <= |b| && Got(Item.Uint(4, n), b) == After(old(View()), ParseScalar, AsUint(4))
      ensures err.Some? ==>
        n == 0 &&
        var p := After(old(View()), ParseScalar, AsUint(4));
        p == Bad(err.value) || (p.Got? && p.v.n * min > |p.rest| && err.value == ListBeyondEnd)
    {
      n := Uint(4);
      if err.None? && n * min > |b| {
        Fail(ListBeyondEnd);
        n := 0;
      }
    }

    /** n rows; once one of them fails the others are still appended, empty. */
    method Rows(row: seq<Wire.Scalar>, n: nat, min: nat) returns (rows: seq<seq<Item>>)
      requires Valid() && 4 <= min <= MinRow(row)
      requires err.None? ==> n * min <= |b|
      requires err.Some? ==> n == 0
      modifies this
      ensures Valid()
      ensures Answer(View(), rows) == SeqAfter(old(View()), ParseRow, Repeat(row, n))
    {
      hide ParseRow, ParseSeq, MinRow;
      var fs := Repeat(row, n);
      ghost var begun := View();
      rows := [];
      assert fs[0..] == fs;
      PrependNothing(SeqAfter(begun, ParseRow, fs));
      for i := 0 to n
        invariant copied + |b| <= total
        invariant err.None? ==> 4 * made + |b| <= total
        invariant 4 * (made + n - i) <= total
        invariant Prepend(rows, SeqAfter(View(), ParseRow, fs[i..])) == SeqAfter(begun, ParseRow, fs)
      {
        ghost var before := View();
        var items := Row(row);
        ReadOne(before, ParseRow, fs, i, rows, items, View());
        if err.None? {
          RowTakes(row, before.b);
        }
        rows := rows + [items];
        made := made + 1;
      }
      assert fs[n..] == [];
      PrependLast(rows, View(), ParseRow);
    }

    method Field(t: Ty) returns (f: Wire.Field)
      requires Valid() && Sound(t)
      modifies this
      ensures Valid()
      ensures Answer(View(), f) == After(old(View()), ParseField, t)
    {
      match t
      case One(s) =>
        var i := Scalar(s);
        f := Single(i);
      case List(min, row) =>
        var n := List(min);
        var rows := Rows(row, n, min);
        f := Wire.Rows(rows);
    }

    method All(ts: seq<Ty>) returns (fs: seq<Wire.Field>)
      requires Valid() && SoundAll(ts)
      modifies this
      ensures Valid()
      ensures Answer(View(), fs) == After(old(View()), ParseAll, ts)
    {
      fs := [];
      ghost var begun := View();
      assert ts[0..] == ts;
      PrependNothing(SeqAfter(begun, ParseField, ts));
      for i := 0 to |ts|
        invariant Valid()
        invariant Prepend(fs, SeqAfter(View(), ParseField, ts[i..])) == SeqAfter(begun, ParseField, ts)
      {
        ghost var before := View();
        var f := Field(ts[i]);
        ReadOne(before, ParseField, ts, i, fs, f, View());
        fs := fs + [f];
      }
      PrependLast(fs, View(), ParseField);
    }

    /** The sticky error, or the error of bytes left over. */
    method Done() returns (e: Option<DecErr>)
      requires Valid()
      modifies this
      ensures Valid() && e == err && made == old(made) && copied == old(copied)
      ensures e == OrElse(old(err), if old(b) == [] then None else Some(TrailingBytes))
    {
      if |b| > 0 {
        Fail(TrailingBytes);
      }
      e := err;
    }
  }

  /**
    Decodes a body of kind k. Along the way it copies no more bytes than the body has and makes no
    more list elements than a quarter of that, whatever lengths the body claims.
   */
  method Decode(k: byte, body: Bytes) returns (r: Result<Messages.Msg, DecErr>, ghost copied: nat, ghost made: nat)
    ensures r == Messages.Decode(k, body)
    ensures copied <= |body| && 4 * made <= |body|
  {
    var zero := Messages.Make(k);
    if zero.None? {
      return Err(UnknownKind), 0, 0;
    }
    var z := zero.value;
    var d := new Dec(body);
    Messages.LayoutsAreSound(z);
    var fs := d.All(Messages.TysOf(z));
    var e := d.Done();
    copied, made := d.copied, d.made;
    r := if e.Some? then Err(e.value) else Ok(Messages.Fill(z, fs));
  }
}
