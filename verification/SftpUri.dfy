/**
 SFTP source locations (`src/config/source.rs`): parsing a location and displaying it as a URI.

 Splitting an authority into user, host and port is the URL library's work and follows a small grammar here;
 reading an address in brackets is left to a function `v6` that returns its canonical spelling.
 */
module SftpUri {
  import opened Wrappers
  import Text
  import Utf8
  import opened PercentCodec

  datatype Location = Location(host: string, user: Option<string>, port: Option<nat>, root: string)

  datatype Authority = Authority(user: string, password: bool, host: string, port: Option<nat>)

  type AddressReader = string -> Option<string>

  /** `char::is_whitespace`: the property White_Space. */
  predicate IsWhitespace(c: char) {
    var u := c as int;
    || 9 <= u <= 13 || u == 0x20 || u == 0x85 || u == 0xA0 || u == 0x1680 || 0x2000 <= u <= 0x200A
    || u == 0x2028 || u == 0x2029 || u == 0x202F || u == 0x205F || u == 0x3000
  }

  predicate TextChar(c: char) {
    !IsControl(c) && !IsWhitespace(c) && c !in "?#\\"
  }

  function Lower(c: char): char {
    if 'A' <= c <= 'Z' then (c as int + 32) as char else c
  }

  predicate IsScheme(s: string) {
    |s| == 7 && forall i :: 0 <= i < 7 ==> Lower(s[i]) == "sftp://"[i]
  }

  /** The first position of `c`, or the length of `s`. */
  function IndexOf(s: string, c: char): (i: nat)
    ensures i <= |s|
  {
    if s == "" || s[0] == c then 0 else IndexOf(s[1..], c) + 1
  }

  /** Characters of a host that is not an address; the library escapes all others, which the parser refuses. */
  predicate HostChar(c: char) {
    ' ' < c <= '~' && c !in "#/:<>?@[\\]^|%"
  }

  predicate AddressChar(c: char) {
    '0' <= c <= '9' || 'a' <= c <= 'f' || c == ':'
  }

  /** Canonical addresses are written in hexadecimal groups and read back as themselves. */
  ghost predicate ReadsAddresses(v6: AddressReader) {
    forall s :: v6(s).Some? ==>
      v6(v6(s).value) == v6(s) && ':' in v6(s).value && forall c :: c in v6(s).value ==> AddressChar(c)
  }

  predicate IsDigits(s: string) {
    forall i :: 0 <= i < |s| ==> '0' <= s[i] <= '9'
  }

  function Value(digits: string): (v: nat)
    requires IsDigits(digits)
  {
    if digits == "" then 0
    else Value(digits[..|digits| - 1]) * 10 + (digits[|digits| - 1] as int - '0' as int)
  }

  function Decimal(n: nat): (s: string)
    ensures s != "" && IsDigits(s)
  {
    (if n < 10 then "" else Decimal(n / 10)) + [(n % 10 + '0' as int) as char]
  }

  /** What follows a host: nothing, or a colon and possibly a port. */
  function PortOf(after: string): Option<Option<nat>> {
    if after == "" || after == ":" then Some(None)
    else if after[0] == ':' && IsDigits(after[1..]) && Value(after[1..]) <= 65535 then Some(Some(Value(after[1..])))
    else None
  }

  function HostAndPort(rest: string, v6: AddressReader): Option<(string, Option<nat>)> {
    if rest != "" && rest[0] == '[' then
      var close := IndexOf(rest, ']');
      if close == |rest| then None
      else
        match (v6(rest[1..close]), PortOf(rest[close + 1..]))
        case (Some(address), Some(port)) => Some((address, port))
        case _ => None
    else
      var colon := IndexOf(rest, ':');
      match PortOf(rest[colon..])
      case Some(port) => if forall c :: c in rest[..colon] ==> HostChar(c) then Some((rest[..colon], port)) else None
      case None => None
  }

  /** An authority with at most one `@`. */
  function ParseAuthority(text: string, v6: AddressReader): Option<Authority> {
    var at := IndexOf(text, '@');
    var info, rest := if at < |text| then text[..at] else "", if at < |text| then text[at + 1..] else text;
    var colon := IndexOf(info, ':');
    match HostAndPort(rest, v6)
    case None => None
    case Some((host, port)) => Some(Authority(info[..colon], colon + 1 < |info|, host, port))
  }

  predicate ManyAts(text: string) {
    IndexOf(text, '@') < |text| && '@' in text[IndexOf(text, '@') + 1..]
  }

  function DecodeParts(parts: seq<string>): Option<seq<string>> {
    if parts == [] then Some([])
    else if parts[0] == "" then DecodeParts(parts[1..])
    else
      match (Decoded(parts[0]), DecodeParts(parts[1..]))
      case (Some(name), Some(rest)) => if name == "." || name == ".." then None else Some([name] + rest)
      case _ => None
  }

  /** The connection part of a location: everything but the path, which is still encoded. */
  datatype Prefix = Prefix(host: string, user: Option<string>, port: Option<nat>, path: string)

  function ParsePrefix(text: string, v6: AddressReader): Option<Prefix> {
    if |text| < 7 || !IsScheme(text[..7]) || exists c :: c in text && !TextChar(c) then None
    else
      var slash := IndexOf(text[7..], '/');
      if slash == |text[7..]| then None
      else
        var authority := text[7..][..slash];
        match ParseAuthority(authority, v6)
        case None => None
        case Some(a) =>
          if || a.password || a.port == Some(0) || authority == "" || ManyAts(authority)
             || a.host == "" || a.host[0] == '-' || '%' in a.host then None
          else
            var path := text[7..][slash + 1..];
            if a.user == "" then Some(Prefix(a.host, None, a.port, path))
            else
              match Decoded(a.user)
              case None => None
              case Some(user) =>
                if ':' in user || '/' in user || '\\' in user then None
                else Some(Prefix(a.host, Some(user), a.port, path))
  }

  function Parse(text: string, v6: AddressReader): Option<Location> {
    match ParsePrefix(text, v6)
    case None => None
    case Some(p) =>
      match DecodeParts(Text.Split(p.path, '/'))
      case None => None
      case Some(parts) => Some(Location(p.host, p.user, p.port, "/" + Text.Join(parts, '/')))
  }

  function EncodeParts(parts: seq<string>): (r: seq<string>)
    ensures |r| == |parts|
  {
    if parts == [] then [] else [Encoded(parts[0])] + EncodeParts(parts[1..])
  }

  function TrimSlashes(s: string): string {
    if s != "" && s[0] == '/' then TrimSlashes(s[1..]) else s
  }

  function DisplayHost(host: string): string {
    if ':' in host then "[" + host + "]" else host
  }

  function DisplayPort(port: Option<nat>): string {
    if port.Some? then ":" + Decimal(port.value) else ""
  }

  function DisplayUser(user: Option<string>): string {
    if user.Some? then Encoded(user.value) + "@" else ""
  }

  function DisplayAuthority(loc: Location): string {
    DisplayUser(loc.user) + (DisplayHost(loc.host) + DisplayPort(loc.port))
  }

  /** The root's parts, encoded and joined. */
  function DisplayPath(root: string): string {
    Text.Join(EncodeParts(Text.Split(TrimSlashes(root), '/')), '/')
  }

  function Display(loc: Location): string {
    "sftp://" + (DisplayAuthority(loc) + ("/" + DisplayPath(loc.root)))
  }

  // ---------------------------------------------------------------------------------------
  // The program's loops
  // ---------------------------------------------------------------------------------------

  /** What is left of `whole` once `done` has been decoded. */
  ghost predicate Remains(whole: Option<seq<string>>, done: seq<string>, rest: Option<seq<string>>) {
    if rest.None? then whole.None? else whole == Some(done + rest.value)
  }

  method ParseUri(text: string, v6: AddressReader) returns (r: Option<Location>)
    ensures r == Parse(text, v6)
  {
    hide ParsePrefix, Decoded, Text.Split, Text.Join;
    var prefix := ParsePrefix(text, v6);
    if prefix.None? {
      return None;
    }
    var all := Text.Split(prefix.value.path, '/');
    var parts: seq<string> := [];
    ghost var whole := DecodeParts(all);
    assert Remains(whole, [], whole) by {
      assert whole.Some? ==> [] + whole.value == whole.value;
    }
    assert all[0..] == all;
    for i := 0 to |all|
      invariant Remains(whole, parts, DecodeParts(all[i..]))
    {
      assert all[i..][1..] == all[i + 1..];
      if all[i] != "" {
        var decoded := DecodeComponent(all[i]);
        if decoded.None? || decoded.value == "." || decoded.value == ".." {
          return None;
        }
        ghost var rest := DecodeParts(all[i + 1..]);
        assert rest.Some? ==> parts + ([decoded.value] + rest.value) == (parts + [decoded.value]) + rest.value;
        parts := parts + [decoded.value];
      }
    }
    assert parts + [] == parts;
    var p := prefix.value;
    return Some(Location(p.host, p.user, p.port, "/" + Text.Join(parts, '/')));
  }

  lemma Assembled(scheme: string, user: string, host: string, port: string, path: string)
    ensures scheme + user + host + port + "/" + path == scheme + ((user + (host + port)) + ("/" + path))
  {
  }

  method DisplayUri(loc: Location) returns (result: string)
    ensures result == Display(loc)
  {
    hide Encoded, Decimal, TrimSlashes, Text.Split, Text.Join, EncodeParts;
    result := "sftp://";
    if loc.user.Some? {
      var user := EncodeComponent(loc.user.value);
      result := result + user;
      result := result + "@";
    }
    assert result == "sftp://" + DisplayUser(loc.user);
    if ':' in loc.host {
      result := result + "[";
    }
    result := result + loc.host;
    if ':' in loc.host {
      result := result + "]";
    }
    assert result == "sftp://" + DisplayUser(loc.user) + DisplayHost(loc.host);
    if loc.port.Some? {
      result := result + (":" + Decimal(loc.port.value));
    }
    assert result == "sftp://" + DisplayUser(loc.user) + DisplayHost(loc.host) + DisplayPort(loc.port);
    hide DisplayUser, DisplayHost, DisplayPort;
    result := result + "/";
    var encoded := EncodeAll(Text.Split(TrimSlashes(loc.root), '/'));
    result := result + Text.Join(encoded, '/');
    Assembled("sftp://", DisplayUser(loc.user), DisplayHost(loc.host), DisplayPort(loc.port), DisplayPath(loc.root));
  }

  method EncodeAll(parts: seq<string>) returns (encoded: seq<string>)
    ensures encoded == EncodeParts(parts)
  {
    encoded := [];
    for i := 0 to |parts|
      invariant encoded + EncodeParts(parts[i..]) == EncodeParts(parts)
    {
      assert parts[i..][1..] == parts[i + 1..];
      var e := EncodeComponent(parts[i]);
      encoded := encoded + [e];
    }
  }

  // ---------------------------------------------------------------------------------------
  // Which locations parse, and the round trip
  // ---------------------------------------------------------------------------------------

  predicate GoodPart(s: string) {
    s != "" && Clean(s) && s != "." && s != ".."
  }

  predicate GoodParts(parts: seq<string>) {
    forall i :: 0 <= i < |parts| ==> GoodPart(parts[i])
  }

  ghost predicate GoodRoot(root: string) {
    exists parts :: GoodParts(parts) && root == "/" + Text.Join(parts, '/')
  }

  predicate GoodHost(host: string, v6: AddressReader) {
    if ':' in host then v6(host) == Some(host)
    else host != "" && host[0] != '-' && forall c :: c in host ==> HostChar(c)
  }

  predicate GoodUser(user: string) {
    user != "" && Clean(user) && ':' !in user
  }

  /** The locations there are. */
  ghost predicate Valid(loc: Location, v6: AddressReader) {
    && GoodHost(loc.host, v6)
    && (loc.user.Some? ==> GoodUser(loc.user.value))
    && (loc.port.Some? ==> 1 <= loc.port.value <= 65535)
    && GoodRoot(loc.root)
  }

  lemma {:induction false} DecodedPartsAreGood(parts: seq<string>)
    requires DecodeParts(parts).Some?
    ensures GoodParts(DecodeParts(parts).value)
  {
    if parts != [] {
      DecodedPartsAreGood(parts[1..]);
      if parts[0] != "" {
        DecodedIsGood(parts[0], Decoded(parts[0]).value);
      }
    }
  }

  lemma DecodedIsGood(text: string, v: string)
    requires text != "" && Decoded(text) == Some(v)
    ensures Clean(v) && v != ""
  {
    DecodesExactly(text, v);
    var b := Utf8.Encode(text);
    var pieces := UnescapedIsSpelled(b);
    NoShorter(b, Unescape(b).value, pieces);
  }

  lemma ParsedHostIsGood(rest: string, v6: AddressReader, host: string, port: Option<nat>)
    requires ReadsAddresses(v6) && HostAndPort(rest, v6) == Some((host, port))
    requires host != "" && host[0] != '-'
    ensures GoodHost(host, v6) && (port.Some? ==> port.value <= 65535)
  {
    if rest == "" || rest[0] != '[' {
      assert ':' !in host by {
        assert !HostChar(':');
      }
    }
  }

  lemma ParsedLocationIsValid(text: string, v6: AddressReader)
    requires ReadsAddresses(v6) && Parse(text, v6).Some?
    ensures Valid(Parse(text, v6).value, v6)
  {
    var p := ParsePrefix(text, v6).value;
    DecodedPartsAreGood(Text.Split(p.path, '/'));
    ParsedPrefixIsGood(text, v6);
  }

  lemma ParsedPrefixIsGood(text: string, v6: AddressReader)
    requires ReadsAddresses(v6) && ParsePrefix(text, v6).Some?
    ensures var p := ParsePrefix(text, v6).value;
      && GoodHost(p.host, v6)
      && (p.user.Some? ==> GoodUser(p.user.value))
      && (p.port.Some? ==> 1 <= p.port.value <= 65535)
  {
    hide Decoded, HostAndPort, Clean, IsScheme, TextChar, ManyAts;
    var authority := text[7..][..IndexOf(text[7..], '/')];
    var at := IndexOf(authority, '@');
    var rest := if at < |authority| then authority[at + 1..] else authority;
    var a := ParseAuthority(authority, v6).value;
    ParsedHostIsGood(rest, v6, a.host, a.port);
    if a.user != "" {
      DecodedIsGood(a.user, Decoded(a.user).value);
    }
  }

  lemma {:induction false} ValueOfDecimal(n: nat)
    ensures Value(Decimal(n)) == n
  {
    var d := [(n % 10 + '0' as int) as char];
    if n < 10 {
      assert "" + d == d && d[..0] == "";
    } else {
      ValueOfDecimal(n / 10);
      assert (Decimal(n / 10) + d)[..|Decimal(n / 10)|] == Decimal(n / 10);
    }
  }

  lemma {:induction false} IndexOfFirst(p: string, c: char, rest: string)
    requires c !in p
    ensures IndexOf(p, c) == |p|
    ensures IndexOf(p + [c] + rest, c) == |p|
  {
    var s := p + [c] + rest;
    if p != "" {
      IndexOfFirst(p[1..], c, rest);
      assert s[1..] == p[1..] + [c] + rest;
    }
  }

  lemma PortRoundTrip(port: Option<nat>)
    requires port.Some? ==> port.value <= 65535
    ensures PortOf(DisplayPort(port)) == Some(port)
  {
    if port.Some? {
      ValueOfDecimal(port.value);
      assert DisplayPort(port)[1..] == Decimal(port.value);
    }
  }

  lemma AddressRoundTrip(host: string, shown: string, v6: AddressReader)
    requires ReadsAddresses(v6) && v6(host) == Some(host) && PortOf(shown).Some?
    ensures HostAndPort("[" + host + "]" + shown, v6) == Some((host, PortOf(shown).value))
  {
    hide PortOf;
    var open := "[" + host;
    var text := open + "]" + shown;
    assert !AddressChar(']');
    assert forall c :: c in host ==> AddressChar(c);
    IndexOfFirst(open, ']', shown);
    assert text[0] == '[';
    assert text[1..|open|] == host && text[|open| + 1..] == shown;
  }

  lemma CutAtFirst(p: string, c: char, rest: string)
    requires c !in p
    ensures var t := p + ([c] + rest); IndexOf(t, c) == |p| && t[..|p|] == p && t[|p|..] == [c] + rest
    ensures IndexOf(p + "", c) == |p| && (p + "")[..|p|] == p && (p + "")[|p|..] == ""
  {
    IndexOfFirst(p, c, rest);
    assert p + "" == p;
    assert p + ([c] + rest) == p + [c] + rest;
  }

  lemma NameEnds(host: string, port: Option<nat>)
    requires host != "" && ':' !in host
    ensures IndexOf(host + DisplayPort(port), ':') == |host|
    ensures (host + DisplayPort(port))[..|host|] == host && (host + DisplayPort(port))[|host|..] == DisplayPort(port)
  {
    CutAtFirst(host, ':', if port.Some? then Decimal(port.value) else "");
    assert port.Some? ==> DisplayPort(port) == [':'] + Decimal(port.value);
  }

  lemma NameRoundTrip(host: string, port: Option<nat>, v6: AddressReader)
    requires host != "" && (forall c :: c in host ==> HostChar(c)) && PortOf(DisplayPort(port)) == Some(port)
    ensures HostAndPort(host + DisplayPort(port), v6) == Some((host, port))
  {
    assert !HostChar(':') && !HostChar('[') && host[0] in host;
    NameEnds(host, port);
    hide PortOf, HostChar, IndexOf, DisplayPort;
    assert (host + DisplayPort(port))[0] == host[0];
  }

  lemma HostRoundTrip(host: string, port: Option<nat>, v6: AddressReader)
    requires ReadsAddresses(v6) && GoodHost(host, v6) && (port.Some? ==> port.value <= 65535)
    ensures HostAndPort(DisplayHost(host) + DisplayPort(port), v6) == Some((host, port))
  {
    PortRoundTrip(port);
    hide PortOf, HostAndPort, DisplayPort;
    if ':' in host {
      AddressRoundTrip(host, DisplayPort(port), v6);
    } else {
      NameRoundTrip(host, port, v6);
    }
  }

  lemma EncodedIsPlain(s: string)
    ensures forall c :: c in Encoded(s) ==> Plain(c)
    ensures s != "" ==> Encoded(s) != ""
  {
    EscapeIsPlain(Utf8.Encode(s));
  }

  /** The characters of a displayed authority. */
  predicate AuthorityChar(c: char) {
    Plain(c) || HostChar(c) || AddressChar(c) || c in "[]:@"
  }

  lemma AuthorityCharsAreText(s: string)
    requires forall c :: c in s ==> AuthorityChar(c)
    ensures forall c :: c in s ==> TextChar(c) && c != '/'
  {
  }

  lemma ParseShownAuthority(user: string, host: string, v6: AddressReader, port: Option<nat>)
    requires ':' !in user && '@' !in user && '@' !in host
    requires HostAndPort(host, v6).Some?
    ensures ParseAuthority(user + "@" + host, v6)
         == Some(Authority(user, false, HostAndPort(host, v6).value.0, HostAndPort(host, v6).value.1))
    ensures !ManyAts(user + "@" + host)
    ensures ParseAuthority(host, v6)
         == Some(Authority("", false, HostAndPort(host, v6).value.0, HostAndPort(host, v6).value.1))
    ensures !ManyAts(host)
  {
    var text := user + "@" + host;
    IndexOfFirst(user, '@', host);
    IndexOfFirst(host, '@', "");
    IndexOfFirst(user, ':', "");
    assert text[..|user|] == user && text[|user| + 1..] == host;
    assert user[..|user|] == user;
    assert ""[..0] == "";
  }

  lemma ShownHostChars(host: string, port: Option<nat>, v6: AddressReader)
    requires ReadsAddresses(v6) && GoodHost(host, v6)
    ensures forall c :: c in DisplayHost(host) + DisplayPort(port) ==> AuthorityChar(c) && c != '@'
  {
    assert forall c :: c in host ==> (HostChar(c) || AddressChar(c)) && c != '@';
    forall c | c in DisplayHost(host) + DisplayPort(port) ensures AuthorityChar(c) && c != '@' {
      if c !in host && c !in DisplayPort(port) {
        assert c in "[]";
      }
    }
  }

  lemma {:induction false} PartsRoundTrip(parts: seq<string>)
    requires GoodParts(parts)
    ensures DecodeParts(EncodeParts(parts)) == Some(parts)
    ensures Text.Separated(EncodeParts(parts), '/')
    ensures forall i, c :: 0 <= i < |parts| && c in EncodeParts(parts)[i] ==> Plain(c)
  {
    if parts != [] {
      PartsRoundTrip(parts[1..]);
      assert GoodPart(parts[0]);
      DecodeUndoesEncode(parts[0]);
      EncodedIsPlain(parts[0]);
      assert !Plain('/');
      hide Encoded, Decoded, Clean, Plain;
      assert parts == [parts[0]] + parts[1..];
    }
  }

  lemma {:induction false} JoinChars(parts: seq<string>, c: char)
    requires c in Text.Join(parts, '/')
    ensures c == '/' || exists i :: 0 <= i < |parts| && c in parts[i]
  {
    if |parts| > 1 && c !in parts[0] && c != '/' {
      JoinChars(parts[1..], c);
      var i :| 0 <= i < |parts| - 1 && c in parts[1..][i];
      assert c in parts[i + 1];
    }
  }

  lemma GoodPartsAreSeparated(parts: seq<string>)
    requires GoodParts(parts)
    ensures Text.Separated(parts, '/') && forall i :: 0 <= i < |parts| ==> parts[i] != ""
  {
    assert forall i :: 0 <= i < |parts| ==> GoodPart(parts[i]);
  }

  lemma RootParts(parts: seq<string>, root: string)
    requires GoodParts(parts) && parts != [] && root == "/" + Text.Join(parts, '/')
    ensures Text.Split(TrimSlashes(root), '/') == parts
  {
    GoodPartsAreSeparated(parts);
    hide Text.Split, GoodPart;
    var joined := Text.Join(parts, '/');
    assert root[1..] == joined;
    assert joined != "" && joined[0] == parts[0][0] && parts[0][0] in parts[0];
    assert TrimSlashes(root) == joined;
    Text.SplitJoin(parts, '/');
  }

  lemma NoParts(root: string)
    requires root == "/"
    ensures DisplayPath(root) == "" && DecodeParts(Text.Split("", '/')) == Some([])
  {
    assert root[1..] == "" && TrimSlashes(root) == "";
    assert EncodeParts([""]) == [Encoded("")] == [""];
  }

  lemma PathRoundTrip(parts: seq<string>, root: string)
    requires GoodParts(parts) && root == "/" + Text.Join(parts, '/')
    ensures DecodeParts(Text.Split(DisplayPath(root), '/')) == Some(parts)
    ensures forall c :: c in DisplayPath(root) ==> TextChar(c)
  {
    if parts == [] {
      NoParts(root);
    } else {
      RootParts(parts, root);
      PartsRoundTrip(parts);
      hide EncodeParts, TrimSlashes, Text.Split, Text.Join, GoodPart, DecodeParts;
      Text.SplitJoin(EncodeParts(parts), '/');
      forall c | c in DisplayPath(root) ensures c == '/' || Plain(c) {
        JoinChars(EncodeParts(parts), c);
      }
      PlainIsText(DisplayPath(root));
    }
  }

  lemma PlainIsText(s: string)
    requires forall c :: c in s ==> c == '/' || Plain(c)
    ensures forall c :: c in s ==> TextChar(c)
  {
  }

  /** Displaying any valid location gives text that parses to it. */
  lemma DisplayRoundTrip(loc: Location, v6: AddressReader)
    requires ReadsAddresses(v6) && Valid(loc, v6)
    ensures Parse(Display(loc), v6) == Some(loc)
  {
    var parts :| GoodParts(parts) && loc.root == "/" + Text.Join(parts, '/');
    PathRoundTrip(parts, loc.root);
    AuthorityRoundTrip(loc, v6);
    PrefixRoundTrip(loc, v6);
  }

  lemma AuthorityRoundTrip(loc: Location, v6: AddressReader)
    requires ReadsAddresses(v6) && Valid(loc, v6)
    ensures ParseAuthority(DisplayAuthority(loc), v6)
         == Some(Authority(if loc.user.Some? then Encoded(loc.user.value) else "", false, loc.host, loc.port))
    ensures !ManyAts(DisplayAuthority(loc)) && DisplayAuthority(loc) != ""
    ensures forall c :: c in DisplayAuthority(loc) ==> TextChar(c) && c != '/'
  {
    var shown := DisplayHost(loc.host) + DisplayPort(loc.port);
    var user := if loc.user.Some? then Encoded(loc.user.value) else "";
    HostRoundTrip(loc.host, loc.port, v6);
    ShownHostChars(loc.host, loc.port, v6);
    EncodedIsPlain(if loc.user.Some? then loc.user.value else "");
    assert !Plain('@') && !Plain(':');
    ParseShownAuthority(user, shown, v6, loc.port);
    if loc.user.Some? {
      assert DisplayAuthority(loc) == user + "@" + shown;
    } else {
      assert DisplayAuthority(loc) == shown;
    }
    AuthorityCharsAreText(DisplayAuthority(loc));
  }

  lemma DisplayShape(loc: Location)
    requires '/' !in DisplayAuthority(loc)
    ensures var text, a := Display(loc), DisplayAuthority(loc);
      && |text| >= 7 && text[..7] == "sftp://" && IsScheme(text[..7])
      && IndexOf(text[7..], '/') == |a| < |text[7..]|
      && text[7..][..|a|] == a && text[7..][|a| + 1..] == DisplayPath(loc.root)
  {
    hide DisplayAuthority, DisplayPath;
    var a, path := DisplayAuthority(loc), DisplayPath(loc.root);
    var rest := a + ("/" + path);
    assert rest == a + ['/'] + path;
    IndexOfFirst(a, '/', path);
    assert Display(loc)[..7] == "sftp://" && Display(loc)[7..] == rest;
    assert rest[..|a|] == a && rest[|a| + 1..] == path;
  }

  lemma ConcatChars(p: string, q: string)
    requires forall c :: c in p ==> TextChar(c)
    requires forall c :: c in q ==> TextChar(c)
    ensures forall c :: c in p + q ==> TextChar(c)
  {
    hide TextChar;
  }

  lemma DisplayChars(loc: Location)
    requires forall c :: c in DisplayPath(loc.root) ==> TextChar(c)
    requires forall c :: c in DisplayAuthority(loc) ==> TextChar(c)
    ensures forall c :: c in Display(loc) ==> TextChar(c)
  {
    assert forall c :: c in "sftp://" ==> TextChar(c);
    hide TextChar, DisplayAuthority, DisplayPath;
    ConcatChars("/", DisplayPath(loc.root));
    ConcatChars(DisplayAuthority(loc), "/" + DisplayPath(loc.root));
    ConcatChars("sftp://", DisplayAuthority(loc) + ("/" + DisplayPath(loc.root)));
  }

  lemma GoodHostPasses(host: string, v6: AddressReader)
    requires ReadsAddresses(v6) && GoodHost(host, v6)
    ensures host != "" && host[0] != '-' && '%' !in host
  {
    assert !HostChar('%') && !AddressChar('%') && !AddressChar('-');
    if ':' in host {
      assert host[0] in host && forall c :: c in host ==> AddressChar(c);
    }
  }

  lemma PrefixRoundTrip(loc: Location, v6: AddressReader)
    requires ReadsAddresses(v6) && Valid(loc, v6)
    requires forall c :: c in DisplayPath(loc.root) ==> TextChar(c)
    ensures ParsePrefix(Display(loc), v6) == Some(Prefix(loc.host, loc.user, loc.port, DisplayPath(loc.root)))
  {
    AuthorityRoundTrip(loc, v6);
    DisplayShape(loc);
    DisplayChars(loc);
    GoodHostPasses(loc.host, v6);
    if loc.user.Some? {
      DecodeUndoesEncode(loc.user.value);
      EncodedIsPlain(loc.user.value);
    }
    hide Display, DisplayAuthority, DisplayPath, TextChar, ParseAuthority, ManyAts, IsScheme, IndexOf, Decoded, Encoded, GoodHost, GoodRoot, ReadsAddresses;
  }

  /** A location can be written down at all exactly if it is valid, and its display is then one way to write it. */
  lemma LocationsAreTheValidOnes(loc: Location, v6: AddressReader)
    requires ReadsAddresses(v6)
    ensures (exists text :: Parse(text, v6) == Some(loc)) <==> Valid(loc, v6)
    ensures Valid(loc, v6) <==> Parse(Display(loc), v6) == Some(loc)
  {
    if Valid(loc, v6) {
      DisplayRoundTrip(loc, v6);
    }
    forall text | Parse(text, v6) == Some(loc) ensures Valid(loc, v6) {
      ParsedLocationIsValid(text, v6);
    }
  }

  /** Whatever is accepted survives display, and two accepted texts display alike exactly if they name one location. */
  lemma ParseDisplayParse(text: string, other: string, v6: AddressReader)
    requires ReadsAddresses(v6) && Parse(text, v6).Some? && Parse(other, v6).Some?
    ensures Parse(Display(Parse(text, v6).value), v6) == Parse(text, v6)
    ensures Display(Parse(text, v6).value) == Display(Parse(other, v6).value) <==> Parse(text, v6) == Parse(other, v6)
  {
    ParsedLocationIsValid(text, v6);
    ParsedLocationIsValid(other, v6);
    DisplayRoundTrip(Parse(text, v6).value, v6);
    DisplayRoundTrip(Parse(other, v6).value, v6);
  }

  /** Ports are shown without leading zeros. */
  lemma {:induction false} DecimalIsShortest(n: nat)
    ensures Decimal(n)[0] == '0' <==> n == 0
    ensures |Decimal(n)| > 1 ==> Decimal(n)[0] != '0'
  {
    if n >= 10 {
      DecimalIsShortest(n / 10);
    }
  }

  lemma {:induction false} EncodePartsEach(parts: seq<string>, i: nat)
    requires i < |parts|
    ensures EncodeParts(parts)[i] == Encoded(parts[i])
  {
    if i > 0 {
      EncodePartsEach(parts[1..], i - 1);
    }
  }

  /** What is shown of a location whose root consists of these names: each of them encoded, and nothing that is absent. */
  lemma DisplaysExactly(loc: Location, names: seq<string>) returns (shown: seq<string>)
    requires GoodParts(names) && loc.root == "/" + Text.Join(names, '/')
    ensures |shown| == |names| && forall i :: 0 <= i < |names| ==> shown[i] == Encoded(names[i])
    ensures Display(loc) ==
      "sftp://" + (if loc.user.Some? then Encoded(loc.user.value) + "@" else "")
      + (if ':' in loc.host then "[" + loc.host + "]" else loc.host)
      + (if loc.port.Some? then ":" + Decimal(loc.port.value) else "") + "/" + Text.Join(shown, '/')
  {
    shown := EncodeParts(names);
    forall i | 0 <= i < |names| ensures shown[i] == Encoded(names[i]) {
      EncodePartsEach(names, i);
    }
    if names == [] {
      NoParts(loc.root);
    } else {
      RootParts(names, loc.root);
    }
    Assembled("sftp://", DisplayUser(loc.user), DisplayHost(loc.host), DisplayPort(loc.port), DisplayPath(loc.root));
    hide EncodeParts, Encoded, Decimal, Text.Split, TrimSlashes;
  }
}
