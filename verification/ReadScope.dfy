/** Audience policies for private memory readers (`src/access.rs`): which paths a validated scope admits. */
module ReadScope {
  import opened Wrappers
  import opened Text

  const ROOTS := ["Capture", "Organize", "Distill", "Express"]

  datatype Component = RootDir | CurDir | ParentDir | Normal(name: string)

  /** `expiresAt` is absent when it is not a finite number. */
  datatype Scope = Scope(
    version: nat,
    tenantId: string,
    starLabel: string,
    workspaceId: string,
    audienceKind: string,
    audienceId: string,
    purpose: string,
    scopeId: string,
    allowedPrefixes: seq<string>,
    expiresAt: Option<real>)

  /** `Path::components` after the root: empty and interior `.` parts are passed over. */
  function Inner(parts: seq<string>): seq<Component> {
    if parts == [] then []
    else
      (if parts[0] == "" || parts[0] == "." then []
       else if parts[0] == ".." then [ParentDir]
       else [Normal(parts[0])])
      + Inner(parts[1..])
  }

  function PathComponents(path: string): seq<Component> {
    var parts := Split(path, '/');
    if parts[0] == "" && path != "" then [RootDir] + Inner(parts)
    else if parts[0] == "." then [CurDir] + Inner(parts)
    else Inner(parts)
  }

  predicate Contains(s: string, t: string) {
    exists i :: 0 <= i <= |s| && t <= s[i..]
  }

  /** The parts of a normalized path are proper visible names. */
  predicate Normalized(raw: string) {
    && raw != ""
    && '\\' !in raw
    && '\0' !in raw
    && !Contains(raw, "//")
    && (forall p :: p in Split(raw, '/') ==> p != "" && p[0] != '.')
    && forall c :: c in PathComponents(raw) ==> c.Normal?
  }

  predicate EndsWith(s: string, t: string) {
    |t| <= |s| && s[|s| - |t|..] == t
  }

  function TrimEnd(s: string): (r: string)
    ensures r <= s
    ensures r != "" ==> r[|r| - 1] != '/'
    ensures forall i :: |r| <= i < |s| ==> s[i] == '/'
  {
    if s != "" && s[|s| - 1] == '/' then TrimEnd(s[..|s| - 1]) else s
  }

  predicate ValidId(s: string) {
    0 < |s| <= 256 && forall c :: c in s ==> '0' <= c <= '9' || 'A' <= c <= 'Z' || 'a' <= c <= 'z' || c == '-' || c == '_'
  }

  predicate ValidPrefix(s: Scope, prefix: string) {
    var path := TrimEnd(prefix);
    var names := PathComponents(path);
    && Normalized(path)
    && (EndsWith(prefix, "/") || EndsWith(prefix, ".md"))
    && Normal(s.scopeId) in names
    && names != [] && names[0].Normal? && names[0].name in ROOTS
    && !("Capture/" <= prefix && s.purpose == "conversation")
  }

  predicate Validate(s: Scope, now: real) {
    && s.version == 1
    && s.audienceKind in ["channel", "dm"]
    && s.purpose in ["conversation", "reflection", "operator"]
    && ValidId(s.tenantId) && ValidId(s.starLabel) && ValidId(s.workspaceId) && ValidId(s.audienceId) && ValidId(s.scopeId)
    && s.expiresAt.Some? && s.expiresAt.value > now
    && 0 < |s.allowedPrefixes| <= 64
    && forall prefix :: prefix in s.allowedPrefixes ==> ValidPrefix(s, prefix)
  }

  /** String prefixes, for directory grants; equality, for file grants. */
  predicate Grants(prefix: string, path: string) {
    if EndsWith(prefix, "/") then prefix <= path else path == prefix
  }

  predicate AllowsPath(s: Scope, path: string) {
    Normalized(path) && exists prefix :: prefix in s.allowedPrefixes && Grants(prefix, path)
  }

  // ---------------------------------------------------------------------------------------
  // Normalized paths are lists of names
  // ---------------------------------------------------------------------------------------

  lemma {:induction false} InnerNames(parts: seq<string>)
    requires forall i :: 0 <= i < |parts| ==> parts[i] != "" && parts[i][0] != '.'
    ensures |Inner(parts)| == |parts| && forall i :: 0 <= i < |parts| ==> Inner(parts)[i] == Normal(parts[i])
  {
    if parts != [] {
      InnerNames(parts[1..]);
    }
  }

  lemma NormalizedNames(path: string)
    requires Normalized(path)
    ensures Components(path) == Split(path, '/')
    ensures |PathComponents(path)| == |Components(path)|
    ensures forall i :: 0 <= i < |Components(path)| ==> PathComponents(path)[i] == Normal(Components(path)[i])
  {
    var parts := Split(path, '/');
    assert forall i :: 0 <= i < |parts| ==> parts[i] in parts;
    SplitIsSeparated(path, '/');
    NamesStay(parts);
    InnerNames(parts);
  }

  lemma VisibleParts(path: string)
    requires forall p :: p in Split(path, '/') ==> p != "" && p[0] != '.'
    ensures path != "" && forall c :: c in PathComponents(path) ==> c.Normal?
  {
    var parts := Split(path, '/');
    assert forall i :: 0 <= i < |parts| ==> parts[i] in parts;
    InnerNames(parts);
    assert Split("", '/')[0] == "";
  }

  /** The check on components and the check for `//` say nothing that the check on the parts does not. */
  lemma NormalizedIsTextual(path: string)
    ensures Normalized(path) <==>
      '\\' !in path && '\0' !in path && forall p :: p in Split(path, '/') ==> p != "" && p[0] != '.'
  {
    if forall p :: p in Split(path, '/') ==> p != "" && p[0] != '.' {
      VisibleParts(path);
      NoDoubleSlash(path);
    }
    hide Split, PathComponents, Contains;
  }

  lemma NoDoubleSlash(path: string)
    requires forall p :: p in Split(path, '/') ==> p != ""
    ensures !Contains(path, "//")
  {
    if Contains(path, "//") {
      var i :| 0 <= i <= |path| && "//" <= path[i..];
      var rest := path[i + 2..];
      assert path[i] == path[i..][0] == '/' && path[i + 1] == path[i..][1] == '/';
      assert path == path[..i] + ['/'] + ("" + ['/'] + rest);
      SplitAppend(path[..i], "" + ['/'] + rest, '/');
      SplitAppend("", rest, '/');
      var before := Split(path[..i], '/');
      assert Split(path, '/')[|before|] == "";
      assert "" in Split(path, '/');
    }
  }

  // ---------------------------------------------------------------------------------------
  // What a grant admits
  // ---------------------------------------------------------------------------------------

  lemma OneSlash(prefix: string)
    requires EndsWith(prefix, "/")
    ensures EndsWith(prefix, "//") <==> prefix != TrimEnd(prefix) + "/"
  {
    var q := TrimEnd(prefix);
    assert prefix[|prefix| - 1] == prefix[|prefix| - 1..][0] == '/';
    assert q != "" ==> q[|q| - 1] == prefix[|q| - 1];
    if EndsWith(prefix, "//") {
      assert prefix[|prefix| - 2] == prefix[|prefix| - 2..][0] == '/';
    } else if |prefix| >= 2 {
      assert prefix[|prefix| - 2] != '/' by {
        assert prefix[|prefix| - 2..] == [prefix[|prefix| - 2], prefix[|prefix| - 1]];
      }
      assert |q| == |prefix| - 1;
      assert prefix == q + "/";
    }
  }

  /** Text before a slash is a list of names before the others. */
  lemma PrefixIsNames(q: string, path: string)
    ensures q + "/" <= path <==> Split(q, '/') < Split(path, '/')
  {
    if q + "/" <= path {
      var rest := path[|q| + 1..];
      assert path == q + ['/'] + rest;
      SplitAppend(q, rest, '/');
    }
    if Split(q, '/') < Split(path, '/') {
      NamesArePrefix(q, path);
    }
  }

  lemma NamesArePrefix(q: string, path: string)
    requires Split(q, '/') < Split(path, '/')
    ensures q + "/" <= path
  {
    var rest := Split(path, '/')[|Split(q, '/')|..];
    assert Split(path, '/') == Split(q, '/') + rest;
    JoinAppend(Split(q, '/'), rest, '/');
    JoinSplit(q, '/');
    JoinSplit(path, '/');
    hide Split, Join;
    assert path == q + "/" + Join(rest, '/');
  }

  /** A directory grant ending in one slash admits exactly the paths whose names properly extend its own. */
  lemma DirectoryGrantExtends(prefix: string, path: string)
    requires Normalized(TrimEnd(prefix)) && prefix == TrimEnd(prefix) + "/" && Normalized(path)
    ensures Grants(prefix, path) <==> Components(TrimEnd(prefix)) < Components(path)
  {
    NormalizedNames(TrimEnd(prefix));
    NormalizedNames(path);
    PrefixIsNames(TrimEnd(prefix), path);
    hide Normalized, Components, Split, PathComponents;
    assert EndsWith(prefix, "/");
  }

  lemma DoubleSlashIsContained(prefix: string, path: string)
    requires EndsWith(prefix, "//") && prefix <= path
    ensures Contains(path, "//")
  {
    var i := |prefix| - 2;
    assert path[i..][..2] == prefix[i..];
    assert "//" <= path[i..];
  }

  /** A grant ending in two slashes is valid, and admits nothing. */
  lemma DoubleSlashAdmitsNothing(prefix: string, path: string)
    requires EndsWith(prefix, "//") && Normalized(path)
    ensures !Grants(prefix, path)
  {
    assert prefix[|prefix| - 2..] == "//";
    assert prefix[|prefix| - 1] == prefix[|prefix| - 2..][1] && prefix[|prefix| - 1..] == [prefix[|prefix| - 1]];
    assert EndsWith(prefix, "/");
    if prefix <= path {
      DoubleSlashIsContained(prefix, path);
    }
  }

  /** Validation does not notice the second slash. */
  lemma DoubleSlashStillValidates(s: Scope, prefix: string)
    requires EndsWith(prefix, "/")
    ensures ValidPrefix(s, prefix + "/") <==> ValidPrefix(s, prefix)
  {
    var longer := prefix + "/";
    assert longer[..|longer| - 1] == prefix && longer[|longer| - 1] == '/';
    assert TrimEnd(longer) == TrimEnd(prefix);
    assert longer[|longer| - 1..] == "/";
    hide Normalized, PathComponents;
  }

  /** What a validated scope's grant means in terms of names. */
  ghost predicate GrantsNames(prefix: string, path: string) {
    if EndsWith(prefix, "/") then !EndsWith(prefix, "//") && Components(TrimEnd(prefix)) < Components(path)
    else path == prefix
  }

  lemma GrantMeaning(s: Scope, prefix: string, path: string)
    requires ValidPrefix(s, prefix) && Normalized(path)
    ensures Grants(prefix, path) <==> GrantsNames(prefix, path)
  {
    if EndsWith(prefix, "/") {
      OneSlash(prefix);
      if EndsWith(prefix, "//") {
        DoubleSlashAdmitsNothing(prefix, path);
      } else {
        DirectoryGrantExtends(prefix, path);
      }
    }
  }

  /** A validated scope admits exactly the normalized paths that a file grant names or a directory grant holds. */
  lemma AdmitsExactly(s: Scope, now: real, path: string)
    requires Validate(s, now)
    ensures AllowsPath(s, path) <==>
      Normalized(path) && exists prefix :: prefix in s.allowedPrefixes && GrantsNames(prefix, path)
  {
    if Normalized(path) {
      forall prefix | prefix in s.allowedPrefixes ensures Grants(prefix, path) <==> GrantsNames(prefix, path) {
        GrantMeaning(s, prefix, path);
      }
    }
  }

  lemma GrantNames(s: Scope, prefix: string, path: string)
    requires ValidPrefix(s, prefix) && Normalized(path) && Grants(prefix, path)
    ensures Components(TrimEnd(prefix)) <= Components(path) && Components(TrimEnd(prefix)) != []
    ensures s.scopeId in Components(TrimEnd(prefix)) && Components(TrimEnd(prefix))[0] in ROOTS
  {
    GrantMeaning(s, prefix, path);
    NormalizedNames(TrimEnd(prefix));
    if !EndsWith(prefix, "/") {
      assert TrimEnd(prefix) == prefix by {
        assert prefix != "" ==> prefix[|prefix| - 1..] == [prefix[|prefix| - 1]];
      }
    }
  }

  lemma LeadingNames(a: seq<string>, b: seq<string>, name: string)
    requires a <= b && a != [] && name in a
    ensures name in b && b[0] == a[0]
  {
    var i :| 0 <= i < |a| && a[i] == name;
    assert b[i] == name;
  }

  /** Every admitted path lies under one of the four roots and passes through the scope's own directory or file name. */
  lemma AdmittedPathsStayInScope(s: Scope, now: real, path: string)
    requires Validate(s, now) && AllowsPath(s, path)
    ensures Components(path) != [] && s.scopeId in Components(path)
    ensures Components(path)[0] in ["Capture", "Organize", "Distill", "Express"]
  {
    var prefix :| prefix in s.allowedPrefixes && Grants(prefix, path);
    GrantNames(s, prefix, path);
    LeadingNames(Components(TrimEnd(prefix)), Components(path), s.scopeId);
    hide *;
  }

  lemma CapturePrefix(s: Scope, prefix: string)
    requires ValidPrefix(s, prefix) && Components(TrimEnd(prefix)) != [] && Components(TrimEnd(prefix))[0] == "Capture"
    ensures "Capture/" <= prefix
  {
    var q := TrimEnd(prefix);
    NormalizedNames(q);
    FirstNameLeads(q);
    hide Normalized, PathComponents, Split, Components, TrimEnd;
    if q == "Capture" {
      NotANote(prefix);
    }
  }

  /** A path is its first name, alone or before a slash. */
  lemma FirstNameLeads(q: string)
    ensures q == Split(q, '/')[0] || Split(q, '/')[0] + "/" <= q
  {
    var names := Split(q, '/');
    JoinSplit(q, '/');
    assert |names| > 1 ==> q == names[0] + "/" + Join(names[1..], '/');
    hide Split;
  }

  lemma NotANote(prefix: string)
    requires TrimEnd(prefix) == "Capture" && (EndsWith(prefix, "/") || EndsWith(prefix, ".md"))
    ensures "Capture/" <= prefix
  {
    assert "Capture"[6..] == "e" && "Capture"[4..] == "ure";
    assert prefix != "Capture";
    assert prefix[..7] == "Capture" && prefix[7] == '/';
    assert prefix[..8] == "Capture" + "/";
  }

  /** Conversations never reach raw captures. */
  lemma ConversationsNeverReadCapture(s: Scope, now: real, path: string)
    requires Validate(s, now) && s.purpose == "conversation" && AllowsPath(s, path)
    ensures Components(path) != [] && Components(path)[0] != "Capture"
  {
    var prefix :| prefix in s.allowedPrefixes && Grants(prefix, path);
    GrantNames(s, prefix, path);
    assert Components(path)[0] == Components(TrimEnd(prefix))[0];
    if Components(path)[0] == "Capture" {
      CapturePrefix(s, prefix);
    }
  }

  // ---------------------------------------------------------------------------------------
  // What validation accepts
  // ---------------------------------------------------------------------------------------

  /** A list of proper visible names, written without backslash and NUL. */
  predicate VisibleNames(path: string) {
    '\\' !in path && '\0' !in path && forall p :: p in Split(path, '/') ==> p != "" && p[0] != '.'
  }

  lemma CaptureIsFirst(prefix: string)
    requires "Capture/" <= prefix && Normalized(TrimEnd(prefix))
    ensures Components(TrimEnd(prefix)) != [] && Components(TrimEnd(prefix))[0] == "Capture"
  {
    hide *;
    NormalizedNames(TrimEnd(prefix));
    CaptureLeads(prefix);
    assert '/' !in "Capture";
    assert "Capture/" == "Capture" + "/";
    LeadingName("Capture", TrimEnd(prefix));
  }

  lemma LeadingName(name: string, path: string)
    requires '/' !in name && (path == name || name + "/" <= path)
    ensures Split(path, '/')[0] == name
  {
    SplitPrefix(name, if path == name then "" else path[|name| + 1..], '/');
    hide Split;
    if path != name {
      assert path == name + "/" + path[|name| + 1..];
    }
  }

  lemma CaptureLeads(prefix: string)
    requires "Capture/" <= prefix
    ensures TrimEnd(prefix) == "Capture" || "Capture/" <= TrimEnd(prefix)
  {
    var q := TrimEnd(prefix);
    hide TrimEnd;
    assert prefix[6] == 'e';
    assert |q| >= 7 && q[..7] == "Capture";
    if |q| > 7 {
      assert q[7] == prefix[7] == '/';
      assert q[..8] == "Capture" + "/";
    } else {
      assert q == q[..7];
    }
  }

  /**
   A grant validates exactly if it is a directory or a note under one of the four roots, spelled in visible names of which
   one is the scope's own id, and a conversation asks for nothing under `Capture`.
   */
  lemma PrefixMeans(s: Scope, prefix: string)
    ensures ValidPrefix(s, prefix) <==>
      var names := Components(TrimEnd(prefix));
      && VisibleNames(TrimEnd(prefix)) && (EndsWith(prefix, "/") || EndsWith(prefix, ".md"))
      && names != [] && s.scopeId in names && names[0] in ["Capture", "Organize", "Distill", "Express"]
      && !(s.purpose == "conversation" && names[0] == "Capture")
  {
    var q := TrimEnd(prefix);
    NormalizedIsTextual(q);
    if Normalized(q) {
      NormalizedNames(q);
      var names := Components(q);
      if Normal(s.scopeId) in PathComponents(q) {
        var i :| 0 <= i < |names| && PathComponents(q)[i] == Normal(s.scopeId);
        assert names[i] == s.scopeId;
      }
      if s.scopeId in names {
        var i :| 0 <= i < |names| && names[i] == s.scopeId;
        assert PathComponents(q)[i] == Normal(s.scopeId);
      }
      if "Capture/" <= prefix {
        CaptureIsFirst(prefix);
      }
      if names != [] && names[0] == "Capture" && ValidPrefix(s.(purpose := "reflection"), prefix) {
        CapturePrefix(s.(purpose := "reflection"), prefix);
      }
    }
    hide Normalized, PathComponents, Components, TrimEnd, EndsWith, Split;
  }

  /** A scope validates exactly until it expires; nothing else about it depends on the time. */
  lemma ExpiryIsTheOnlyClock(s: Scope, earlier: real, now: real)
    requires Validate(s, earlier)
    ensures Validate(s, now) <==> s.expiresAt.Some? && now < s.expiresAt.value
  {
    hide ValidPrefix;
  }

  /** What every validated scope is made of. */
  lemma ValidatedScopes(s: Scope, now: real)
    requires Validate(s, now)
    ensures s.version == 1 && s.audienceKind in ["channel", "dm"] && s.purpose in ["conversation", "reflection", "operator"]
    ensures s.expiresAt.Some? && now < s.expiresAt.value
    ensures 1 <= |s.allowedPrefixes| <= 64 && forall p :: p in s.allowedPrefixes ==> ValidPrefix(s, p)
    ensures forall id :: id in [s.tenantId, s.starLabel, s.workspaceId, s.audienceId, s.scopeId] ==>
      1 <= |id| <= 256 && forall c :: c in id ==> '0' <= c <= '9' || 'A' <= c <= 'Z' || 'a' <= c <= 'z' || c in "-_"
  {
    hide ValidPrefix;
  }
}
