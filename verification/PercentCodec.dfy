/**
 Percent encoding of SFTP path and user components (`src/config/source.rs`), after sections 2.1 and 2.3 of
 RFC 3986.
 */
module PercentCodec {
  import opened Wrappers
  import Utf8

  type Byte = Utf8.Byte

  const PERCENT: Byte := 37
  const SLASH: Byte := 47
  const BACKSLASH: Byte := 92

  /** Bytes a component may hold neither directly nor escaped. */
  predicate Forbidden(b: Byte) {
    b == SLASH || b == BACKSLASH || b < 32 || b == 127
  }

  /** `char::is_control`: the general category Cc. */
  predicate IsControl(c: char) {
    c as int < 0x20 || 0x7F <= c as int < 0xA0
  }

  /** What a component may be: one name, without separators or control characters. */
  predicate Clean(s: string) {
    '/' !in s && '\\' !in s && forall c :: c in s ==> !IsControl(c)
  }

  predicate Unreserved(b: Byte) {
    48 <= b <= 57 || 65 <= b <= 90 || 97 <= b <= 122 || b == 45 || b == 46 || b == 95 || b == 126
  }

  function HexValue(b: Byte): (r: Option<nat>)
    ensures r.Some? ==> r.value < 16
  {
    if 48 <= b <= 57 then Some((b as int - 48) as nat)
    else if 65 <= b <= 70 then Some((b as int - 55) as nat)
    else if 97 <= b <= 102 then Some((b as int - 87) as nat)
    else None
  }

  function HexDigit(n: nat): Byte
    requires n < 16
  {
    if n < 10 then 48 + n else 55 + n
  }

  function Unescape(b: seq<Byte>): Option<seq<Byte>> {
    if b == [] then Some([])
    else if b[0] != PERCENT then Push(b[0], Unescape(b[1..]))
    else if |b| < 3 then None
    else
      match (HexValue(b[1]), HexValue(b[2]))
      case (Some(high), Some(low)) => Push(high * 16 + low, Unescape(b[3..]))
      case _ => None
  }

  function Push(v: Byte, rest: Option<seq<Byte>>): Option<seq<Byte>> {
    if Forbidden(v) || rest.None? then None else Some([v] + rest.value)
  }

  function Decoded(text: string): Option<string> {
    match Unescape(Utf8.Encode(text))
    case None => None
    case Some(bytes) =>
      match Utf8.Decode(bytes)
      case None => None
      case Some(s) => if exists c :: c in s && IsControl(c) then None else Some(s)
  }

  function EscapeByte(b: Byte): string {
    if Unreserved(b) then [b as char] else ['%', HexDigit(b / 16) as char, HexDigit(b % 16) as char]
  }

  function Escape(b: seq<Byte>): string {
    if b == [] then "" else EscapeByte(b[0]) + Escape(b[1..])
  }

  function Encoded(text: string): string {
    Escape(Utf8.Encode(text))
  }

  /** What is left of `whole` once `done` has been read off. */
  ghost predicate Continues(whole: Option<seq<Byte>>, done: seq<Byte>, rest: Option<seq<Byte>>) {
    if rest.None? then whole.None? else whole == Some(done + rest.value)
  }

  lemma PushContinues(whole: Option<seq<Byte>>, done: seq<Byte>, v: Byte, rest: Option<seq<Byte>>)
    requires Continues(whole, done, Push(v, rest))
    ensures Forbidden(v) ==> whole.None?
    ensures !Forbidden(v) ==> Continues(whole, done + [v], rest)
  {
    if !Forbidden(v) && rest.Some? {
      assert done + ([v] + rest.value) == (done + [v]) + rest.value;
    }
  }

  method DecodeComponent(text: string) returns (r: Option<string>)
    ensures r == Decoded(text)
  {
    var b := Utf8.Encode(text);
    var bytes: seq<Byte> := [];
    var i := 0;
    assert b[0..] == b;
    assert Continues(Unescape(b), bytes, Unescape(b)) by {
      assert Unescape(b).Some? ==> bytes + Unescape(b).value == Unescape(b).value;
    }
    while i < |b|
      invariant 0 <= i <= |b|
      invariant Continues(Unescape(b), bytes, Unescape(b[i..]))
    {
      ghost var rest := b[i..];
      var byte := b[i];
      i := i + 1;
      if byte == PERCENT {
        if i + 1 >= |b| {
          return None;
        }
        var high, low := HexValue(b[i]), HexValue(b[i + 1]);
        if high.None? || low.None? {
          return None;
        }
        byte := high.value * 16 + low.value;
        i := i + 2;
      }
      assert rest[1..] == b[i..] || rest[3..] == b[i..];
      PushContinues(Unescape(b), bytes, byte, Unescape(b[i..]));
      if Forbidden(byte) {
        return None;
      }
      bytes := bytes + [byte];
    }
    assert bytes + [] == bytes;
    var value := Utf8.Decode(bytes);
    if value.None? || exists c :: c in value.value && IsControl(c) {
      return None;
    }
    return value;
  }

  lemma EscapeStep(b: seq<Byte>, i: nat, encoded: string)
    requires i < |b| && encoded + Escape(b[i..]) == Escape(b)
    ensures (encoded + EscapeByte(b[i])) + Escape(b[i + 1..]) == Escape(b)
  {
    hide EscapeByte;
    assert b[i..][1..] == b[i + 1..];
    assert Escape(b[i..]) == EscapeByte(b[i]) + Escape(b[i + 1..]);
    hide Escape;
  }

  method EncodeComponent(text: string) returns (encoded: string)
    ensures encoded == Encoded(text)
  {
    hide Utf8.Encode, Unreserved, HexDigit;
    var b := Utf8.Encode(text);
    encoded := "";
    assert encoded + Escape(b[0..]) == Escape(b) by {
      assert b[0..] == b;
    }
    for i := 0 to |b|
      invariant encoded + Escape(b[i..]) == Escape(b)
    {
      EscapeStep(b, i, encoded);
      hide Escape;
      if Unreserved(b[i]) {
        encoded := encoded + [b[i] as char];
      } else {
        encoded := encoded + ['%', HexDigit(b[i] / 16) as char, HexDigit(b[i] % 16) as char];
      }
    }
    assert Escape(b[|b|..]) == "";
  }

  // ---------------------------------------------------------------------------------------
  // What decodes, and to what
  // ---------------------------------------------------------------------------------------

  /** One byte, written as itself or as an escape in either case. */
  predicate Spelling(piece: seq<Byte>, v: Byte) {
    || (piece == [v] && v != PERCENT)
    || (|piece| == 3 && piece[0] == PERCENT && HexValue(piece[1]) == Some(v / 16) && HexValue(piece[2]) == Some(v % 16))
  }

  ghost function Concat(pieces: seq<seq<Byte>>): seq<Byte> {
    if pieces == [] then [] else pieces[0] + Concat(pieces[1..])
  }

  ghost predicate SpelledBy(text: seq<Byte>, value: seq<Byte>, pieces: seq<seq<Byte>>) {
    && Concat(pieces) == text
    && |pieces| == |value|
    && forall i :: 0 <= i < |value| ==> Spelling(pieces[i], value[i])
  }

  /** `text` is `value` written byte by byte. */
  ghost predicate Spells(text: seq<Byte>, value: seq<Byte>) {
    exists pieces :: SpelledBy(text, value, pieces)
  }

  ghost predicate Allowed(bytes: seq<Byte>) {
    forall i :: 0 <= i < |bytes| ==> !Forbidden(bytes[i])
  }

  lemma {:induction false} UnescapeReadsSpelling(b: seq<Byte>, value: seq<Byte>, pieces: seq<seq<Byte>>)
    requires SpelledBy(b, value, pieces) && Allowed(value)
    ensures Unescape(b) == Some(value)
    decreases |value|
  {
    if value != [] {
      var p := pieces[0];
      var rest := Concat(pieces[1..]);
      assert Spelling(p, value[0]);
      UnescapeReadsSpelling(rest, value[1..], pieces[1..]);
      assert b[|p|..] == rest;
      assert value == [value[0]] + value[1..];
    }
  }

  lemma OnePieceMore(piece: seq<Byte>, v: Byte, b: seq<Byte>, value: seq<Byte>, pieces: seq<seq<Byte>>)
    requires SpelledBy(b, value, pieces) && Spelling(piece, v)
    ensures SpelledBy(piece + b, [v] + value, [piece] + pieces)
  {
    hide Spelling;
    assert ([piece] + pieces)[1..] == pieces;
  }

  /** The first byte that is read, and how it is written. */
  lemma UnescapeStep(b: seq<Byte>) returns (n: nat, v: Byte)
    requires b != [] && Unescape(b).Some?
    ensures 0 < n <= |b| && Unescape(b[n..]).Some? && Unescape(b).value == [v] + Unescape(b[n..]).value
    ensures Spelling(b[..n], v) && !Forbidden(v)
  {
    n := if b[0] == PERCENT then 3 else 1;
    v := if b[0] == PERCENT then HexValue(b[1]).value * 16 + HexValue(b[2]).value else b[0];
    hide HexValue;
  }

  lemma {:induction false} UnescapedIsSpelled(b: seq<Byte>) returns (pieces: seq<seq<Byte>>)
    requires Unescape(b).Some?
    ensures SpelledBy(b, Unescape(b).value, pieces) && Allowed(Unescape(b).value)
    decreases |b|
  {
    if b == [] {
      pieces := [];
    } else {
      var n, v := UnescapeStep(b);
      hide Unescape, Spelling, SpelledBy, Forbidden;
      var rest := UnescapedIsSpelled(b[n..]);
      pieces := [b[..n]] + rest;
      OnePieceMore(b[..n], v, b[n..], Unescape(b[n..]).value, rest);
      assert b == b[..n] + b[n..];
    }
  }

  lemma CleanBytes(s: string)
    ensures Clean(s) <==> Allowed(Utf8.Encode(s)) && forall c :: c in s ==> !IsControl(c)
  {
    var b := Utf8.Encode(s);
    forall u: Byte | Forbidden(u) ensures u in b <==> u as char in s {
      Utf8.AsciiBytes(s, u);
    }
    assert SLASH in b <==> '/' in s;
    assert BACKSLASH in b <==> '\\' in s;
    if !Allowed(b) {
      var i :| 0 <= i < |b| && Forbidden(b[i]);
      assert b[i] in b && b[i] as char in s;
    }
  }

  /** A component decodes to `v` exactly if it spells `v` and `v` is clean. */
  lemma DecodesExactly(text: string, v: string)
    ensures Decoded(text) == Some(v) <==> Clean(v) && Spells(Utf8.Encode(text), Utf8.Encode(v))
  {
    var b := Utf8.Encode(text);
    Utf8.DecodeEncode(v);
    CleanBytes(v);
    if Decoded(text) == Some(v) {
      Utf8.EncodeDecode(Unescape(b).value);
      var pieces := UnescapedIsSpelled(b);
    }
    if Clean(v) && Spells(b, Utf8.Encode(v)) {
      var pieces :| SpelledBy(b, Utf8.Encode(v), pieces);
      UnescapeReadsSpelling(b, Utf8.Encode(v), pieces);
    }
  }

  /** The encoder writes one spelling. */
  lemma {:induction false} EscapeSpells(value: seq<Byte>) returns (pieces: seq<seq<Byte>>)
    ensures SpelledBy(Utf8.Encode(Escape(value)), value, pieces)
  {
    if value == [] {
      pieces := [];
    } else {
      var rest := EscapeSpells(value[1..]);
      var first := EscapeByte(value[0]);
      EscapedByte(value[0]);
      Utf8.EncodeConcat(first, Escape(value[1..]));
      pieces := [Utf8.Encode(first)] + rest;
      OnePieceMore(Utf8.Encode(first), value[0], Utf8.Encode(Escape(value[1..])), value[1..], rest);
      assert value == [value[0]] + value[1..];
    }
  }

  lemma EscapedByte(v: Byte)
    ensures Spelling(Utf8.Encode(EscapeByte(v)), v)
  {
    var first := EscapeByte(v);
    if !Unreserved(v) {
      assert first[1..] == [first[1], first[2]] && first[1..][1..] == [first[2]];
      assert Utf8.Encode([first[2]]) == [HexDigit(v % 16)];
      assert Utf8.Encode(first[1..]) == [HexDigit(v / 16), HexDigit(v % 16)];
      assert Utf8.Encode(first) == [PERCENT, HexDigit(v / 16), HexDigit(v % 16)];
    }
  }

  /** Decoding undoes encoding on exactly the clean strings, and refuses every other. */
  lemma DecodeUndoesEncode(s: string)
    ensures Decoded(Encoded(s)) == if Clean(s) then Some(s) else None
  {
    var pieces := EscapeSpells(Utf8.Encode(s));
    var b := Utf8.Encode(Encoded(s));
    assert Spells(b, Utf8.Encode(s));
    DecodesExactly(Encoded(s), s);
    if Decoded(Encoded(s)).Some? {
      var v := Decoded(Encoded(s)).value;
      var other := UnescapedIsSpelled(b);
      SpellsOneValue(b, Utf8.Encode(s), Unescape(b).value, pieces, other);
      Utf8.DecodeEncode(s);
    }
  }

  lemma {:induction false} NoShorter(b: seq<Byte>, v: seq<Byte>, p: seq<seq<Byte>>)
    requires SpelledBy(b, v, p)
    ensures |v| <= |b| && (b == [] <==> v == [])
    decreases |v|
  {
    if v != [] {
      assert Spelling(p[0], v[0]);
      NoShorter(Concat(p[1..]), v[1..], p[1..]);
    }
  }

  lemma {:induction false} SpellsOneValue(b: seq<Byte>, v: seq<Byte>, w: seq<Byte>, p: seq<seq<Byte>>, q: seq<seq<Byte>>)
    requires SpelledBy(b, v, p) && SpelledBy(b, w, q)
    ensures v == w
    decreases |v|
  {
    NoShorter(b, v, p);
    NoShorter(b, w, q);
    if v != [] && w != [] {
      assert Spelling(p[0], v[0]) && Spelling(q[0], w[0]);
      assert b[0] == p[0][0] == q[0][0];
      assert |p[0]| == |q[0]|;
      assert p[0] == b[..|p[0]|] == q[0];
      assert Concat(p[1..]) == b[|p[0]|..] == Concat(q[1..]);
      SpellsOneValue(b[|p[0]|..], v[1..], w[1..], p[1..], q[1..]);
      assert v[0] == v[0] / 16 * 16 + v[0] % 16;
      assert w[0] == w[0] / 16 * 16 + w[0] % 16;
    }
  }

  /** Encoded text is made of unreserved characters and escapes. */
  predicate Plain(c: char) {
    '0' <= c <= '9' || 'A' <= c <= 'Z' || 'a' <= c <= 'z' || c in "-._~%"
  }

  lemma {:induction false} EscapeIsPlain(b: seq<Byte>)
    ensures forall c :: c in Escape(b) ==> Plain(c)
    ensures b != [] ==> Escape(b) != ""
  {
    if b != [] {
      EscapeIsPlain(b[1..]);
      assert forall c :: c in EscapeByte(b[0]) ==> Plain(c);
    }
  }

  /** Canonical text: each character unreserved, or an upper-case escape of a byte that is not. */
  predicate Canonical(text: string) {
    || text == ""
    || (IsUnreserved(text[0]) && Canonical(text[1..]))
    || (|text| >= 3 && IsEscape(text[0], text[1], text[2]) && Canonical(text[3..]))
  }

  predicate IsUnreserved(c: char) {
    c as int < 256 && Unreserved(c as int)
  }

  predicate IsHexDigit(c: char) {
    '0' <= c <= '9' || 'A' <= c <= 'F'
  }

  function EscapedValue(high: char, low: char): Byte
    requires IsHexDigit(high) && IsHexDigit(low)
  {
    HexValue(high as int).value * 16 + HexValue(low as int).value
  }

  predicate IsEscape(percent: char, high: char, low: char) {
    percent == '%' && IsHexDigit(high) && IsHexDigit(low) && !Unreserved(EscapedValue(high, low))
  }

  lemma {:induction false} EscapeIsCanonical(b: seq<Byte>)
    ensures Canonical(Escape(b))
  {
    if b != [] {
      EscapeIsCanonical(b[1..]);
      EscapeByteShape(b[0]);
      var first, rest := EscapeByte(b[0]), Escape(b[1..]);
      assert (first + rest)[|first|..] == rest;
    }
  }

  lemma EscapeByteShape(v: Byte)
    ensures var e := EscapeByte(v);
      if Unreserved(v) then |e| == 1 && IsUnreserved(e[0])
      else |e| == 3 && IsEscape(e[0], e[1], e[2])
  {
    if !Unreserved(v) {
      assert HexValue(HexDigit(v / 16)) == Some(v / 16) && HexValue(HexDigit(v % 16)) == Some(v % 16);
    }
  }

  lemma EscapeOfValue(percent: char, high: char, low: char)
    requires IsEscape(percent, high, low)
    ensures EscapeByte(EscapedValue(high, low)) == [percent, high, low]
  {
    var h, l := HexValue(high as int).value, HexValue(low as int).value;
    assert (h * 16 + l) / 16 == h && (h * 16 + l) % 16 == l;
  }

  /** Canonical text is what the encoder writes for some bytes. */
  lemma {:induction false} CanonicalIsEscape(text: string) returns (b: seq<Byte>)
    requires Canonical(text)
    ensures Escape(b) == text
    decreases |text|
  {
    if text == "" {
      b := [];
    } else if IsUnreserved(text[0]) && Canonical(text[1..]) {
      var rest := CanonicalIsEscape(text[1..]);
      b := [text[0] as int] + rest;
      assert b[1..] == rest && text == [text[0]] + text[1..];
    } else {
      var rest := CanonicalIsEscape(text[3..]);
      EscapeOfValue(text[0], text[1], text[2]);
      b := [EscapedValue(text[1], text[2])] + rest;
      assert b[1..] == rest && text == [text[0], text[1], text[2]] + text[3..];
    }
  }

  /** Each clean value has exactly one canonical spelling, the one the encoder writes; no other text is canonical. */
  lemma CanonicalSpelling(text: string, v: string)
    ensures Canonical(text) && Decoded(text) == Some(v) <==> Clean(v) && text == Encoded(v)
  {
    if Canonical(text) && Decoded(text) == Some(v) {
      var b := CanonicalIsEscape(text);
      var written := EscapeSpells(b);
      DecodesExactly(text, v);
      var pieces :| SpelledBy(Utf8.Encode(text), Utf8.Encode(v), pieces);
      SpellsOneValue(Utf8.Encode(text), b, Utf8.Encode(v), written, pieces);
    }
    if Clean(v) && text == Encoded(v) {
      EscapeIsCanonical(Utf8.Encode(v));
      DecodeUndoesEncode(v);
    }
  }

  /** Re-encoding what any spelling decodes to gives the canonical spelling of the same value. */
  lemma Recoding(text: string)
    requires Decoded(text).Some?
    ensures Canonical(Encoded(Decoded(text).value)) && Decoded(Encoded(Decoded(text).value)) == Decoded(text)
    ensures Encoded(Decoded(text).value) == text <==> Canonical(text)
  {
    var v := Decoded(text).value;
    DecodesExactly(text, v);
    CanonicalSpelling(Encoded(v), v);
    CanonicalSpelling(text, v);
  }

  /** Letters, digits and the four marks of section 2.3 of RFC 3986. */
  predicate Safe(c: char) {
    '0' <= c <= '9' || 'A' <= c <= 'Z' || 'a' <= c <= 'z' || c == '-' || c == '.' || c == '_' || c == '~'
  }

  lemma {:induction false} EscapeLength(b: seq<Byte>)
    ensures |Escape(b)| >= |b|
    ensures |Escape(b)| == |b| ==> forall i :: 0 <= i < |b| ==> Unreserved(b[i])
  {
    if b != [] {
      EscapeLength(b[1..]);
      assert forall i :: 1 <= i < |b| ==> b[i] == b[1..][i - 1];
    }
  }

  /** ASCII text is its own bytes. */
  lemma {:induction false} AsciiIsItself(s: string)
    requires forall c :: c in s ==> c as int < 0x80
    ensures |Utf8.Encode(s)| == |s| && forall i :: 0 <= i < |s| ==> Utf8.Encode(s)[i] == s[i] as int
  {
    if s != "" {
      assert s[0] in s && forall c :: c in s[1..] ==> c in s;
      AsciiIsItself(s[1..]);
    }
  }

  lemma {:induction false} SafeStays(s: string)
    requires forall c :: c in s ==> Safe(c)
    ensures Encoded(s) == s
  {
    if s != "" {
      assert s[0] in s && forall c :: c in s[1..] ==> c in s;
      SafeStays(s[1..]);
      var b := Utf8.Encode(s);
      assert b == [s[0] as int] + Utf8.Encode(s[1..]);
      assert b[1..] == Utf8.Encode(s[1..]);
      assert Escape(b) == [s[0]] + s[1..];
    }
  }

  /** Encoding leaves a string alone exactly if it is made of letters, digits and `-._~`; everything else is escaped. */
  lemma EncodesOnlyTheUnsafe(s: string)
    ensures Encoded(s) == s <==> forall c :: c in s ==> Safe(c)
  {
    if Encoded(s) == s {
      var b := Utf8.Encode(s);
      EscapeIsPlain(b);
      AsciiIsItself(s);
      EscapeLength(b);
      forall c | c in s ensures Safe(c) {
        var i :| 0 <= i < |s| && s[i] == c;
        assert Unreserved(b[i]);
      }
    } else if forall c :: c in s ==> Safe(c) {
      SafeStays(s);
    }
  }

  /** Escapes are hexadecimal: read in either case, written in upper case. */
  lemma HexadecimalDigits(i: nat)
    requires i < 16
    ensures HexDigit(i) == "0123456789ABCDEF"[i] as int
    ensures HexValue("0123456789ABCDEF"[i] as int) == Some(i) && HexValue("0123456789abcdef"[i] as int) == Some(i)
  {
    assert i == 0 || i == 1 || i == 2 || i == 3 || i == 4 || i == 5 || i == 6 || i == 7 || i == 8 || i == 9
        || i == 10 || i == 11 || i == 12 || i == 13 || i == 14 || i == 15;
  }
}
