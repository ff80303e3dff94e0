/** Bytes, little-endian integers and UTF-8, as encoding/binary and unicode/utf8 read them. */
module Bytes {

  type byte = x: int | 0 <= x < 0x100
  type Bytes = seq<byte>

  function Pow256(n: nat): nat
    ensures Pow256(n) >= 1
  {
    if n == 0 then 1 else 256 * Pow256(n - 1)
  }

  lemma Widths()
    ensures Pow256(1) == 0x100 && Pow256(2) == 0x1_0000 && Pow256(4) == 0x1_0000_0000
    ensures Pow256(8) == 0x1_0000_0000_0000_0000
  {
    assert Pow256(4) == 256 * Pow256(3) == 256 * 256 * Pow256(2);
    assert Pow256(8) == 256 * Pow256(7) == 256 * 256 * Pow256(6);
    assert Pow256(6) == 256 * Pow256(5) == 256 * 256 * Pow256(4);
  }

  /** The low n bytes of v, least significant first; higher bits are cut off, as a Go conversion does. */
  function LE(v: nat, n: nat): (b: Bytes)
    ensures |b| == n
    decreases n
  {
    if n == 0 then [] else [v % 256] + LE(v / 256, n - 1)
  }

  function FromLE(b: Bytes): (v: nat)
    ensures v < Pow256(|b|)
    decreases |b|
  {
    if b == [] then 0 else b[0] + 256 * FromLE(b[1..])
  }

  lemma {:induction false} LEReadsBack(v: nat, n: nat)
    requires v < Pow256(n)
    ensures FromLE(LE(v, n)) == v
    decreases n
  {
    if n > 0 {
      LEReadsBack(v / 256, n - 1);
      assert LE(v, n)[1..] == LE(v / 256, n - 1);
    }
  }

  lemma {:induction false} LEWritesBack(b: Bytes)
    ensures LE(FromLE(b), |b|) == b
    decreases |b|
  {
    if b != [] {
      var v := FromLE(b[1..]);
      assert (b[0] + 256 * v) % 256 == b[0] && (b[0] + 256 * v) / 256 == v;
      LEWritesBack(b[1..]);
    }
  }

  /** Digit i of v to the base 256. */
  function DigitAt(v: nat, i: nat): byte {
    (v / Pow256(i)) % 256
  }

  lemma DivideTwice(v: nat, p: nat)
    requires p > 0
    ensures v / 256 / p == v / (256 * p)
  {
    var q, r := v / 256 / p, v / 256 % p;
    assert v == 256 * (v / 256) + v % 256 && v / 256 == p * q + r;
    assert 256 * (p * q) == (256 * p) * q;
    var low := 256 * r + v % 256;
    assert v == (256 * p) * q + low && 0 <= low < 256 * p;
    QuotientIs(v, 256 * p, q, low);
  }

  lemma QuotientIs(v: nat, d: nat, q: nat, r: nat)
    requires r < d && v == d * q + r
    ensures v / d == q
  {
    var q' := v / d;
    assert v == d * q' + v % d;
    if q' < q {
      OneMore(d, q', q);
    } else if q < q' {
      OneMore(d, q, q');
    }
  }

  lemma {:induction false} OneMore(d: nat, a: nat, b: nat)
    requires a < b
    ensures d * a + d <= d * b
  {
    assert d * b == d * (b - 1) + d;
    if a < b - 1 {
      OneMore(d, a, b - 1);
    }
  }

  /** Byte i is digit i: the least significant comes first. */
  lemma {:induction false} LEDigits(v: nat, n: nat, i: nat)
    requires i < n
    ensures LE(v, n)[i] == DigitAt(v, i)
    decreases n
  {
    if i > 0 {
      LEDigits(v / 256, n - 1, i - 1);
      DivideTwice(v, Pow256(i - 1));
    }
  }

  /** The sum of b[i] * 256^i over the first n bytes. */
  function DigitSum(b: Bytes, n: nat): nat
    requires n <= |b|
  {
    if n == 0 then 0 else DigitSum(b, n - 1) + b[n - 1] * Pow256(n - 1)
  }

  lemma {:induction false} DigitSumTail(b: Bytes, n: nat)
    requires 0 < n <= |b|
    ensures DigitSum(b, n) == b[0] + 256 * DigitSum(b[1..], n - 1)
  {
    if n > 1 {
      DigitSumTail(b, n - 1);
      var d, p := b[n - 1], Pow256(n - 2);
      assert b[1..][n - 2] == d;
      assert d * (256 * p) == 256 * (d * p);
    }
  }

  /** Reading weighs byte i with 256^i. */
  lemma {:induction false} FromLEIsDigitSum(b: Bytes)
    ensures FromLE(b) == DigitSum(b, |b|)
    decreases |b|
  {
    if b != [] {
      FromLEIsDigitSum(b[1..]);
      DigitSumTail(b, |b|);
    }
  }

  // ----- UTF-8 -----

  predicate Tail(b: int) { 0x80 <= b <= 0xbf }

  /** The length of the UTF-8 sequence that starts b, or 0 when none does. */
  function RuneLen(b: Bytes): (n: nat)
    requires b != []
    ensures n <= |b|
  {
    if b[0] < 0x80 then 1
    else if |b| >= 2 && 0xc2 <= b[0] <= 0xdf && Tail(b[1]) then 2
    else if |b| >= 3 && Tail(b[2]) &&
            ((b[0] == 0xe0 && 0xa0 <= b[1] <= 0xbf)
             || ((0xe1 <= b[0] <= 0xec || 0xee <= b[0] <= 0xef) && Tail(b[1]))
             || (b[0] == 0xed && 0x80 <= b[1] <= 0x9f)) then 3
    else if |b| >= 4 && Tail(b[2]) && Tail(b[3]) &&
            ((b[0] == 0xf0 && 0x90 <= b[1] <= 0xbf)
             || (0xf1 <= b[0] <= 0xf3 && Tail(b[1]))
             || (b[0] == 0xf4 && 0x80 <= b[1] <= 0x8f)) then 4
    else 0
  }

  predicate ValidUTF8(b: Bytes)
    decreases |b|
  {
    b == [] || (RuneLen(b) > 0 && ValidUTF8(b[RuneLen(b)..]))
  }

  /** A Unicode scalar value. */
  type Rune = r: int | 0 <= r < 0xd800 || 0xe000 <= r < 0x11_0000

  /** The one UTF-8 sequence of a rune. */
  function RuneBytes(r: Rune): Bytes {
    if r < 0x80 then [r]
    else if r < 0x800 then [0xc0 + r / 0x40, 0x80 + r % 0x40]
    else if r < 0x1_0000 then [0xe0 + r / 0x1000, 0x80 + r / 0x40 % 0x40, 0x80 + r % 0x40]
    else [0xf0 + r / 0x4_0000, 0x80 + r / 0x1000 % 0x40, 0x80 + r / 0x40 % 0x40, 0x80 + r % 0x40]
  }

  function TextBytes(rs: seq<Rune>): Bytes {
    if rs == [] then [] else RuneBytes(rs[0]) + TextBytes(rs[1..])
  }

  lemma RuneLenOfRune(r: Rune, rest: Bytes)
    ensures RuneLen(RuneBytes(r) + rest) == |RuneBytes(r)|
  {
  }

  lemma LowBits(a: nat, t: nat)
    requires t < 0x40
    ensures (0x40 * a + t) / 0x40 == a && (0x40 * a + t) % 0x40 == t
  {
  }

  lemma Runes3(a: nat, s: nat, t: nat)
    requires a < 0x10 && s < 0x40 && t < 0x40
    ensures var r := 0x1000 * a + 0x40 * s + t;
            r / 0x1000 == a && r / 0x40 % 0x40 == s && r % 0x40 == t
  {
    LowBits(0x40 * a + s, t);
    LowBits(a, s);
  }

  lemma Runes4(a: nat, s: nat, t: nat, v: nat)
    requires a < 0x10 && s < 0x40 && t < 0x40 && v < 0x40
    ensures var r := 0x4_0000 * a + 0x1000 * s + 0x40 * t + v;
            r / 0x4_0000 == a && r / 0x1000 % 0x40 == s && r / 0x40 % 0x40 == t && r % 0x40 == v
  {
    var r := 0x4_0000 * a + 0x1000 * s + 0x40 * t + v;
    LowBits(0x1000 * a + 0x40 * s + t, v);
    LowBits(0x40 * a + s, t);
    LowBits(a, s);
    assert r / 0x1000 == 0x40 * a + s && r / 0x4_0000 == a;
  }

  lemma ShortRuneOf(b: Bytes) returns (r: Rune)
    requires b != [] && 1 <= RuneLen(b) <= 2
    ensures RuneBytes(r) == b[..RuneLen(b)]
  {
    if RuneLen(b) == 1 {
      r := b[0];
    } else {
      var a: int, t: int := b[0] - 0xc0, b[1] - 0x80;
      LowBits(a, t);
      r := 0x40 * a + t;
    }
  }

  lemma Rune3Of(b: Bytes) returns (r: Rune)
    requires b != [] && RuneLen(b) == 3
    ensures RuneBytes(r) == b[..3]
  {
    var a: int, s: int, t: int := b[0] - 0xe0, b[1] - 0x80, b[2] - 0x80;
    Runes3(a, s, t);
    r := 0x1000 * a + 0x40 * s + t;
  }

  lemma Rune4Of(b: Bytes) returns (r: Rune)
    requires b != [] && RuneLen(b) == 4
    ensures RuneBytes(r) == b[..4]
  {
    var a: int, s: int, t: int, v: int := b[0] - 0xf0, b[1] - 0x80, b[2] - 0x80, b[3] - 0x80;
    Runes4(a, s, t, v);
    r := 0x4_0000 * a + 0x1000 * s + 0x40 * t + v;
  }

  /** The rune a sequence that starts b stands for. */
  lemma RuneOf(b: Bytes) returns (r: Rune)
    requires b != [] && RuneLen(b) > 0
    ensures RuneBytes(r) == b[..RuneLen(b)]
  {
    hide RuneBytes;
    if RuneLen(b) <= 2 {
      r := ShortRuneOf(b);
    } else if RuneLen(b) == 3 {
      r := Rune3Of(b);
    } else {
      r := Rune4Of(b);
    }
  }

  /** Bytes are valid UTF-8 if and only if they are the text of some runes. */
  lemma {:induction false} ValidIsText(b: Bytes) returns (rs: seq<Rune>)
    requires ValidUTF8(b)
    ensures TextBytes(rs) == b
    decreases |b|
  {
    if b == [] {
      return [];
    }
    var n := RuneLen(b);
    var r := RuneOf(b);
    var more := ValidIsText(b[n..]);
    rs := [r] + more;
    assert rs[1..] == more && b == b[..n] + b[n..];
  }

  lemma {:induction false} TextIsValid(rs: seq<Rune>)
    ensures ValidUTF8(TextBytes(rs))
  {
    if rs != [] {
      var first, rest := RuneBytes(rs[0]), TextBytes(rs[1..]);
      RuneLenOfRune(rs[0], rest);
      TextIsValid(rs[1..]);
      assert (first + rest)[|first|..] == rest;
    }
  }

  lemma ValidUTF8Iff(b: Bytes)
    ensures ValidUTF8(b) <==> exists rs :: TextBytes(rs) == b
  {
    if ValidUTF8(b) {
      var rs := ValidIsText(b);
    }
    if rs :| TextBytes(rs) == b {
      TextIsValid(rs);
    }
  }
}
