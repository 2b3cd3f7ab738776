/**
 The written form of SFTP locations (`src/config/source.rs`): a grammar for the text before the path, and the proof that
 the parser accepts exactly that.
 */
module SftpGrammar {
  import opened Wrappers
  import opened SftpUri
  import opened PercentCodec
  import Text

  /** Blank, invisible and URI delimiting characters, which no location may hold. */
  predicate Unwritable(c: char) {
    var u := c as int;
    || u <= 0x20 || 0x7F <= u <= 0xA0 || u == 0x1680 || 0x2000 <= u <= 0x200A
    || u == 0x2028 || u == 0x2029 || u == 0x202F || u == 0x205F || u == 0x3000
    || c == '?' || c == '#' || c == '\\'
  }

  /** `sftp://`, in any case. */
  predicate SchemePart(s: string) {
    |s| == 7 && s[0] in "sS" && s[1] in "fF" && s[2] in "tT" && s[3] in "pP" && s[4..] == "://"
  }

  /** Nothing, or a user name before an `@`; a password may not follow its colon. An empty name is no user. */
  ghost predicate UserPart(shown: string, user: Option<string>) {
    || (shown == "" && user.None?)
    || exists name: string, colon: string ::
         && shown == name + colon + "@" && colon in ["", ":"] && ':' !in name && '@' !in name
         && if name == "" then user.None?
            else user.Some? && Decoded(name) == user && ':' !in user.value && '/' !in user.value && '\\' !in user.value
  }

  /** A name as it stands, or an address in brackets. */
  ghost predicate HostPart(shown: string, host: string, v6: AddressReader) {
    && host != "" && host[0] != '-' && '%' !in host && '@' !in shown
    && ((shown == host && forall c :: c in host ==> HostChar(c))
        || exists address :: ']' !in address && shown == "[" + address + "]" && v6(address) == Some(host))
  }

  /** Nothing, a bare colon, or a port that is not zero. */
  predicate PortPart(shown: string, port: Option<nat>) {
    || ((shown == "" || shown == ":") && port.None?)
    || (&& |shown| > 1 && shown[0] == ':' && IsDigits(shown[1..])
        && 1 <= Value(shown[1..]) <= 65535 && port == Some(Value(shown[1..])))
  }

  /** The parts of a location before its path. */
  datatype Parts = Parts(scheme: string, user: string, host: string, port: string)

  ghost predicate WrittenAs(text: string, parts: Parts, p: Prefix, v6: AddressReader) {
    && text == parts.scheme + ((parts.user + (parts.host + parts.port)) + ("/" + p.path))
    && (forall c :: c in text ==> !Unwritable(c))
    && '/' !in parts.user + (parts.host + parts.port)
    && SchemePart(parts.scheme) && UserPart(parts.user, p.user) && HostPart(parts.host, p.host, v6) && PortPart(parts.port, p.port)
  }

  lemma {:induction false} IndexOfMeans(s: string, c: char)
    ensures var i := IndexOf(s, c); i <= |s| && c !in s[..i] && (i < |s| ==> s[i] == c)
  {
    if s != "" && s[0] != c {
      IndexOfMeans(s[1..], c);
      var i := IndexOf(s[1..], c);
      assert s[..i + 1] == [s[0]] + s[1..][..i];
    }
  }

  lemma {:induction false} FirstIndex(before: string, c: char, after: string)
    requires c !in before
    ensures IndexOf(before, c) == |before|
    ensures IndexOf(before + ([c] + after), c) == |before|
  {
    IndexOfFirst(before, c, after);
    assert before + ([c] + after) == before + [c] + after;
  }

  lemma WritableIsText(c: char)
    ensures Unwritable(c) <==> !TextChar(c)
  {
  }

  lemma SchemesAgree(s: string)
    ensures SchemePart(s) <==> IsScheme(s)
  {
    if |s| == 7 {
      assert s[4..] == [s[4], s[5], s[6]];
      assert "://" == [':', '/', '/'];
    }
  }

  lemma PortsAgree(shown: string, port: Option<nat>)
    ensures PortPart(shown, port) <==> PortOf(shown) == Some(port) && port != Some(0)
  {
    if shown != "" && shown != ":" && shown[0] == ':' {
      assert |shown| > 1;
    }
  }

  // ---------------------------------------------------------------------------------------
  // Hosts and users
  // ---------------------------------------------------------------------------------------

  lemma HostSplits(rest: string, host: string, port: Option<nat>, v6: AddressReader) returns (h: string, q: string)
    requires HostAndPort(rest, v6) == Some((host, port)) && '@' !in rest
    requires host != "" && host[0] != '-' && '%' !in host && port != Some(0)
    ensures rest == h + q && HostPart(h, host, v6) && PortPart(q, port)
  {
    if rest != "" && rest[0] == '[' {
      var close := IndexOf(rest, ']');
      IndexOfMeans(rest, ']');
      var address := rest[1..close];
      h, q := rest[..close + 1], rest[close + 1..];
      assert h == "[" + address + "]";
      assert forall c :: c in address ==> c in rest[..close];
      PortsAgree(q, port);
    } else {
      var colon := IndexOf(rest, ':');
      h, q := rest[..colon], rest[colon..];
      PortsAgree(q, port);
    }
  }

  lemma HostJoins(h: string, q: string, host: string, port: Option<nat>, v6: AddressReader)
    requires HostPart(h, host, v6) && PortPart(q, port)
    ensures HostAndPort(h + q, v6) == Some((host, port)) && '@' !in h + q
  {
    PortsAgree(q, port);
    assert '@' !in q;
    if h == host && forall c :: c in host ==> HostChar(c) {
      NameJoins(h, q, port, v6);
    } else {
      var address :| ']' !in address && h == "[" + address + "]" && v6(address) == Some(host);
      AddressJoins(address, q, host, port, v6);
    }
  }

  lemma NameJoins(host: string, q: string, port: Option<nat>, v6: AddressReader)
    requires host != "" && (forall c :: c in host ==> HostChar(c)) && PortOf(q) == Some(port)
    ensures HostAndPort(host + q, v6) == Some((host, port))
  {
    assert !HostChar(':') && !HostChar('[') && host[0] in host;
    assert q == "" || q[0] == ':';
    FirstIndex(host, ':', if q == "" then "" else q[1..]);
    assert q == "" ==> host + q == host;
    assert q != "" ==> q == [':'] + q[1..];
    hide PortOf, HostChar, IndexOf;
    assert (host + q)[0] == host[0] && (host + q)[..|host|] == host && (host + q)[|host|..] == q;
  }

  lemma AddressJoins(address: string, q: string, host: string, port: Option<nat>, v6: AddressReader)
    requires ']' !in address && v6(address) == Some(host) && PortOf(q) == Some(port)
    ensures HostAndPort("[" + address + "]" + q, v6) == Some((host, port))
  {
    var rest, front := "[" + address + "]" + q, "[" + address;
    FirstIndex(front, ']', q);
    assert rest == front + ([']'] + q);
    hide PortOf, IndexOf;
    assert rest[0] == '[' && rest[1..|front|] == address && rest[|front| + 1..] == q;
  }

  /** The user part before an authority's host. */
  lemma UserSplits(text: string, a: Authority, user: Option<string>, v6: AddressReader) returns (shown: string, rest: string)
    requires ParseAuthority(text, v6) == Some(a) && !a.password && !ManyAts(text)
    requires if a.user == "" then user.None?
             else Decoded(a.user) == user && user.Some? && ':' !in user.value && '/' !in user.value && '\\' !in user.value
    ensures text == shown + rest && UserPart(shown, user) && '@' !in rest
    ensures HostAndPort(rest, v6) == Some((a.host, a.port))
  {
    hide HostAndPort, Decoded;
    var at := IndexOf(text, '@');
    IndexOfMeans(text, '@');
    if at < |text| {
      var info := text[..at];
      var colon := IndexOf(info, ':');
      IndexOfMeans(info, ':');
      shown, rest := text[..at + 1], text[at + 1..];
      assert shown == info + "@";
      assert info == info[..colon] + info[colon..];
      assert colon < |info| ==> info[colon..] == [info[colon]];
      assert info[colon..] == "" || info[colon..] == ":";
      assert shown == info[..colon] + info[colon..] + "@";
    } else {
      shown, rest := "", text;
      assert text[..at] == text;
    }
  }

  lemma UserJoins(shown: string, rest: string, user: Option<string>, v6: AddressReader, host: string, port: Option<nat>)
    requires UserPart(shown, user) && '@' !in rest && HostAndPort(rest, v6) == Some((host, port))
    ensures ParseAuthority(shown + rest, v6).Some? && !ManyAts(shown + rest)
    ensures var a := ParseAuthority(shown + rest, v6).value;
      && !a.password && a.host == host && a.port == port
      && if a.user == "" then user.None?
         else Decoded(a.user) == user && user.Some? && ':' !in user.value && '/' !in user.value && '\\' !in user.value
  {
    hide HostAndPort, Decoded;
    if shown == "" && user.None? {
      assert shown + rest == rest;
      FirstIndex(rest, '@', "");
      assert IndexOf("", ':') == 0;
    } else {
      var name: string, colon: string :|
         && shown == name + colon + "@" && colon in ["", ":"] && ':' !in name && '@' !in name
         && if name == "" then user.None?
            else user.Some? && Decoded(name) == user && ':' !in user.value && '/' !in user.value && '\\' !in user.value;
      NamedAuthority(name, colon, rest, v6, host, port);
      assert shown + rest == name + colon + "@" + rest;
    }
  }

  lemma NamedAuthority(name: string, colon: string, rest: string, v6: AddressReader, host: string, port: Option<nat>)
    requires colon in ["", ":"] && ':' !in name && '@' !in name && '@' !in rest && HostAndPort(rest, v6) == Some((host, port))
    ensures ParseAuthority(name + colon + "@" + rest, v6) == Some(Authority(name, false, host, port))
    ensures !ManyAts(name + colon + "@" + rest)
  {
    hide HostAndPort;
    var info, text := name + colon, name + colon + "@" + rest;
    FirstIndex(info, '@', rest);
    assert text == info + (['@'] + rest);
    FirstIndex(name, ':', "");
    assert colon == "" ==> info == name;
    assert colon == ":" ==> info == name + ([':'] + "");
    hide IndexOf;
    assert text[..|info|] == info && text[|info| + 1..] == rest && info[..|name|] == name;
  }

  // ---------------------------------------------------------------------------------------
  // Whole locations
  // ---------------------------------------------------------------------------------------

  lemma PrefixSplits(text: string, p: Prefix, v6: AddressReader) returns (parts: Parts)
    requires ParsePrefix(text, v6) == Some(p)
    ensures WrittenAs(text, parts, p, v6)
  {
    hide ParseAuthority, ManyAts, Decoded, IsScheme, TextChar, UserPart, HostPart, PortPart, SchemePart, Unwritable;
    var slash := IndexOf(text[7..], '/');
    IndexOfMeans(text[7..], '/');
    var authority := text[7..][..slash];
    var a := ParseAuthority(authority, v6).value;
    var user, rest := UserSplits(authority, a, p.user, v6);
    var h, q := HostSplits(rest, a.host, a.port, v6);
    parts := Parts(text[..7], user, h, q);
    SchemesAgree(text[..7]);
    forall c | c in text ensures !Unwritable(c) {
      WritableIsText(c);
    }
    hide IndexOf;
    assert user + (h + q) == authority;
    assert text[7..] == authority + ("/" + p.path);
    assert text == text[..7] + text[7..];
  }

  lemma AuthorityJoins(parts: Parts, p: Prefix, v6: AddressReader) returns (a: Authority)
    requires UserPart(parts.user, p.user) && HostPart(parts.host, p.host, v6) && PortPart(parts.port, p.port)
    ensures var authority := parts.user + (parts.host + parts.port);
      && ParseAuthority(authority, v6) == Some(a) && !ManyAts(authority) && authority != ""
      && !a.password && a.host == p.host && a.port == p.port
      && a.port != Some(0) && a.host != "" && a.host[0] != '-' && '%' !in a.host
      && (if a.user == "" then p.user.None?
          else Decoded(a.user) == p.user && p.user.Some? && ':' !in p.user.value && '/' !in p.user.value && '\\' !in p.user.value)
  {
    HostJoins(parts.host, parts.port, p.host, p.port, v6);
    UserJoins(parts.user, parts.host + parts.port, p.user, v6, p.host, p.port);
    a := ParseAuthority(parts.user + (parts.host + parts.port), v6).value;
    PortsAgree(parts.port, p.port);
    hide ParseAuthority, HostAndPort, ManyAts, Decoded, UserPart, PortOf, PortPart;
  }

  lemma TextSplits(text: string, scheme: string, authority: string, path: string)
    requires |scheme| == 7 && '/' !in authority && text == scheme + (authority + ("/" + path))
    ensures |text| >= 7 && text[..7] == scheme
    ensures IndexOf(text[7..], '/') == |authority| < |text[7..]|
    ensures text[7..][..|authority|] == authority && text[7..][|authority| + 1..] == path
  {
    var rest := authority + ("/" + path);
    assert text[7..] == rest;
    FirstIndex(authority, '/', path);
    assert "/" + path == ['/'] + path;
  }

  /** The parser on text that is cut at the right places. */
  lemma ParsesPrefix(text: string, authority: string, a: Authority, p: Prefix, v6: AddressReader)
    requires |text| >= 7 && IsScheme(text[..7]) && forall c :: c in text ==> TextChar(c)
    requires IndexOf(text[7..], '/') == |authority| < |text[7..]|
    requires text[7..][..|authority|] == authority && text[7..][|authority| + 1..] == p.path
    requires ParseAuthority(authority, v6) == Some(a) && !ManyAts(authority) && authority != ""
    requires !a.password && a.host == p.host && a.port == p.port
    requires a.port != Some(0) && a.host != "" && a.host[0] != '-' && '%' !in a.host
    requires if a.user == "" then p.user.None?
             else Decoded(a.user) == p.user && p.user.Some? && ':' !in p.user.value && '/' !in p.user.value && '\\' !in p.user.value
    ensures ParsePrefix(text, v6) == Some(p)
  {
    hide ParseAuthority, ManyAts, Decoded, IsScheme, TextChar, IndexOf;
  }

  lemma AllText(text: string)
    requires forall c :: c in text ==> !Unwritable(c)
    ensures forall c :: c in text ==> TextChar(c)
  {
    forall c | c in text ensures TextChar(c) {
      WritableIsText(c);
    }
  }

  lemma PrefixJoins(text: string, parts: Parts, p: Prefix, v6: AddressReader)
    requires WrittenAs(text, parts, p, v6)
    ensures ParsePrefix(text, v6) == Some(p)
  {
    assert |parts.scheme| == 7;
    hide SchemePart, Unwritable, UserPart, HostPart, PortPart, ParsePrefix, IsScheme, TextChar, ParseAuthority, ManyAts, Decoded, IndexOf;
    var a := AuthorityJoins(parts, p, v6);
    SchemesAgree(parts.scheme);
    AllText(text);
    var authority := parts.user + (parts.host + parts.port);
    TextSplits(text, parts.scheme, authority, p.path);
    ParsesPrefix(text, authority, a, p, v6);
  }

  /** The names a path spells: its parts that are not empty, each decoded, and none of them a dot or two. */
  ghost predicate SpellsNames(path: string, names: seq<string>) {
    var pieces := Text.Components(path);
    && |names| == |pieces|
    && forall i :: 0 <= i < |pieces| ==> Decoded(pieces[i]) == Some(names[i]) && names[i] != "." && names[i] != ".."
  }

  lemma {:induction false} PartsAgree(parts: seq<string>, names: seq<string>)
    ensures DecodeParts(parts) == Some(names) <==>
      var pieces := Text.NonEmpty(parts);
      && |names| == |pieces|
      && forall i :: 0 <= i < |pieces| ==> Decoded(pieces[i]) == Some(names[i]) && names[i] != "." && names[i] != ".."
  {
    hide Decoded;
    if parts != [] {
      if parts[0] == "" || names == [] {
        PartsAgree(parts[1..], names);
      } else {
        PartsAgree(parts[1..], names[1..]);
        assert names == [names[0]] + names[1..];
        assert forall i :: 1 <= i < |names| ==> names[1..][i - 1] == names[i];
      }
    }
  }

  /** The parser accepts exactly the texts of this grammar, and each names exactly this location. */
  lemma ParsesExactly(text: string, loc: Location, v6: AddressReader)
    ensures Parse(text, v6) == Some(loc) <==>
      exists parts: Parts, p: Prefix, names: seq<string> ::
        && WrittenAs(text, parts, p, v6) && SpellsNames(p.path, names)
        && loc == Location(p.host, p.user, p.port, "/" + Text.Join(names, '/'))
  {
    hide ParsePrefix, WrittenAs, DecodeParts, Decoded, Text.Split, Text.Join, Text.NonEmpty;
    if Parse(text, v6) == Some(loc) {
      var p := ParsePrefix(text, v6).value;
      var names := DecodeParts(Text.Split(p.path, '/')).value;
      var parts := PrefixSplits(text, p, v6);
      PartsAgree(Text.Split(p.path, '/'), names);
      assert SpellsNames(p.path, names);
    }
    if parts: Parts, p: Prefix, names: seq<string> :|
        && WrittenAs(text, parts, p, v6) && SpellsNames(p.path, names)
        && loc == Location(p.host, p.user, p.port, "/" + Text.Join(names, '/'))
    {
      PrefixJoins(text, parts, p, v6);
      PartsAgree(Text.Split(p.path, '/'), names);
    }
  }
}
