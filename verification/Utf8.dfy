/** UTF-8 (section 3.9 of the Unicode Standard, table 3-7), as `str::bytes` and `String::from_utf8` use it. */
module Utf8 {
  import opened Wrappers

  type Byte = b: int | 0 <= b < 256

  function EncodeChar(c: char): (bytes: seq<Byte>)
    ensures bytes != []
  {
    var u := c as int;
    if u < 0x80 then [u]
    else if u < 0x800 then [0xC0 + u / 64, 0x80 + u % 64]
    else if u < 0x1_0000 then [0xE0 + u / 4096, 0x80 + u / 64 % 64, 0x80 + u % 64]
    else [0xF0 + u / 262144, 0x80 + u / 4096 % 64, 0x80 + u / 64 % 64, 0x80 + u % 64]
  }

  function Encode(s: string): seq<Byte> {
    if s == "" then [] else EncodeChar(s[0]) + Encode(s[1..])
  }

  predicate Tail(b: Byte) {
    0x80 <= b < 0xC0
  }

  function Two(a: int, b: int): int {
    (a - 0xC0) * 64 + (b - 0x80)
  }

  function Three(a: int, b: int, c: int): int {
    (a - 0xE0) * 4096 + (b - 0x80) * 64 + (c - 0x80)
  }

  function Four(a: int, b: int, c: int, d: int): int {
    (a - 0xF0) * 262144 + (b - 0x80) * 4096 + (c - 0x80) * 64 + (d - 0x80)
  }

  /** The first character and the number of bytes it takes; overlong forms, surrogates and large values are refused. */
  function DecodeChar(b: seq<Byte>): Option<(char, nat)>
    requires b != []
  {
    if b[0] < 0x80 then Some((b[0] as char, 1))
    else if 0xC2 <= b[0] < 0xE0 && |b| >= 2 && Tail(b[1]) then
      Some((Two(b[0], b[1]) as char, 2))
    else if && 0xE0 <= b[0] < 0xF0 && |b| >= 3 && Tail(b[1]) && Tail(b[2])
            && (b[0] == 0xE0 ==> b[1] >= 0xA0) && (b[0] == 0xED ==> b[1] < 0xA0) then
      Some((Three(b[0], b[1], b[2]) as char, 3))
    else if && 0xF0 <= b[0] < 0xF5 && |b| >= 4 && Tail(b[1]) && Tail(b[2]) && Tail(b[3])
            && (b[0] == 0xF0 ==> b[1] >= 0x90) && (b[0] == 0xF4 ==> b[1] < 0x90) then
      Some((Four(b[0], b[1], b[2], b[3]) as char, 4))
    else None
  }

  lemma DecodeCharFits(b: seq<Byte>)
    requires b != [] && DecodeChar(b).Some?
    ensures 1 <= DecodeChar(b).value.1 <= |b|
  {
  }

  function Decode(b: seq<Byte>): Option<string> {
    if b == [] then Some("")
    else
      match DecodeChar(b)
      case None => None
      case Some((c, n)) =>
        DecodeCharFits(b);
        match Decode(b[n..])
        case None => None
        case Some(s) => Some([c] + s)
  }

  /** The digits of `u` in base 64. */
  lemma Digits(u: nat)
    ensures u == u / 64 * 64 + u % 64
    ensures u / 64 == u / 4096 * 64 + u / 64 % 64
    ensures u / 4096 == u / 262144 * 64 + u / 4096 % 64
  {
  }

  lemma Rebuilt(u: nat, a: nat, b: nat, c: nat, d: nat)
    requires b < 64 && c < 64 && d < 64
    requires u == a * 262144 + b * 4096 + c * 64 + d
    ensures u % 64 == d && u / 64 % 64 == c && u / 4096 % 64 == b && u / 262144 == a
  {
    assert u / 64 == a * 4096 + b * 64 + c;
    assert u / 4096 == a * 64 + b;
  }

  lemma DecodeEncodeChar(c: char, rest: seq<Byte>)
    ensures DecodeChar(EncodeChar(c) + rest) == Some((c, |EncodeChar(c)|))
  {
    var u := c as int;
    Digits(u);
    if u < 0x80 {
    } else if u < 0x800 {
      assert Two(0xC0 + u / 64, 0x80 + u % 64) == u;
    } else if u < 0x1_0000 {
      assert Three(0xE0 + u / 4096, 0x80 + u / 64 % 64, 0x80 + u % 64) == u;
    } else {
      assert Four(0xF0 + u / 262144, 0x80 + u / 4096 % 64, 0x80 + u / 64 % 64, 0x80 + u % 64) == u;
    }
  }

  lemma EncodeDecodeChar(b: seq<Byte>)
    requires b != [] && DecodeChar(b).Some?
    ensures var (c, n) := DecodeChar(b).value; n <= |b| && EncodeChar(c) == b[..n]
  {
    var (c, n) := DecodeChar(b).value;
    var u := c as int;
    if n == 2 {
      Rebuilt(u, 0, 0, b[0] - 0xC0, b[1] - 0x80);
    } else if n == 3 {
      Rebuilt(u, 0, b[0] - 0xE0, b[1] - 0x80, b[2] - 0x80);
    } else if n == 4 {
      Rebuilt(u, b[0] - 0xF0, b[1] - 0x80, b[2] - 0x80, b[3] - 0x80);
    }
  }

  /** Decoding reads back what was encoded. */
  lemma {:induction false} DecodeEncode(s: string)
    ensures Decode(Encode(s)) == Some(s)
  {
    if s != "" {
      var rest := Encode(s[1..]);
      DecodeEncodeChar(s[0], rest);
      assert (EncodeChar(s[0]) + rest)[|EncodeChar(s[0])|..] == rest;
      DecodeEncode(s[1..]);
      assert s == [s[0]] + s[1..];
    }
  }

  /** Only encodings decode. */
  lemma {:induction false} EncodeDecode(b: seq<Byte>)
    requires Decode(b).Some?
    ensures Encode(Decode(b).value) == b
    decreases |b|
  {
    if b != [] {
      EncodeDecodeChar(b);
      var (c, n) := DecodeChar(b).value;
      EncodeDecode(b[n..]);
      assert b == b[..n] + b[n..];
    }
  }

  /** A byte below 0x80 occurs exactly where its character does. */
  lemma {:induction false} AsciiBytes(s: string, u: Byte)
    requires u < 0x80
    ensures u in Encode(s) <==> u as char in s
  {
    if s != "" {
      AsciiBytes(s[1..], u);
      assert s == [s[0]] + s[1..];
      assert u in EncodeChar(s[0]) <==> s[0] == u as char;
    }
  }

  lemma Regroup(a: seq<Byte>, b: seq<Byte>, c: seq<Byte>)
    ensures a + (b + c) == (a + b) + c
  {
  }

  lemma {:induction false} EncodeConcat(s: string, t: string)
    ensures Encode(s + t) == Encode(s) + Encode(t)
  {
    hide EncodeChar;
    if s == "" {
      assert s + t == t;
    } else {
      EncodeConcat(s[1..], t);
      assert (s + t)[0] == s[0] && (s + t)[1..] == s[1..] + t;
      Regroup(EncodeChar(s[0]), Encode(s[1..]), Encode(t));
    }
  }

  lemma EncodeOne(c: char)
    ensures Encode([c]) == EncodeChar(c)
  {
    assert [c][1..] == "";
    assert EncodeChar(c) + [] == EncodeChar(c);
  }

  /** The code points at the ends of each row of table 3-6 of the Unicode Standard, and the bytes they are written as. */
  lemma RowsOfTheTable()
    ensures Encode("\U{0000}") == [0x00] && Encode("\U{007F}") == [0x7F]
    ensures Encode("\U{0080}") == [0xC2, 0x80] && Encode("\U{07FF}") == [0xDF, 0xBF]
    ensures Encode("\U{0800}") == [0xE0, 0xA0, 0x80] && Encode("\U{FFFF}") == [0xEF, 0xBF, 0xBF]
    ensures Encode("\U{010000}") == [0xF0, 0x90, 0x80, 0x80] && Encode("\U{10FFFF}") == [0xF4, 0x8F, 0xBF, 0xBF]
  {
    EncodeOne('\U{0000}');
    EncodeOne('\U{007F}');
    EncodeOne('\U{0080}');
    EncodeOne('\U{07FF}');
    EncodeOne('\U{0800}');
    EncodeOne('\U{FFFF}');
    EncodeOne('\U{010000}');
    EncodeOne('\U{10FFFF}');
  }
}
