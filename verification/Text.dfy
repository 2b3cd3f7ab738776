/** Splitting text at a separator and joining it again, as `str::split` and `[String]::join` do. */
module Text {
  /** The pieces of `s` between separators; there is always at least one. */
  function Split(s: string, sep: char): (parts: seq<string>)
    ensures |parts| >= 1
  {
    if s == "" then [""] else Prepend(s[0], Split(s[1..], sep), sep)
  }

  /** One more character in front: it separates, or belongs to the first piece. */
  function Prepend(c: char, parts: seq<string>, sep: char): (r: seq<string>)
    requires |parts| >= 1
    ensures |r| >= 1
  {
    if c == sep then [""] + parts else [[c] + parts[0]] + parts[1..]
  }

  function Join(parts: seq<string>, sep: char): string {
    if |parts| == 0 then ""
    else if |parts| == 1 then parts[0]
    else parts[0] + [sep] + Join(parts[1..], sep)
  }

  function NonEmpty(parts: seq<string>): seq<string> {
    if parts == [] then []
    else if parts[0] == "" then NonEmpty(parts[1..])
    else [parts[0]] + NonEmpty(parts[1..])
  }

  /** The names along a path; empty names count for nothing. */
  function Components(path: string): seq<string> {
    NonEmpty(Split(path, '/'))
  }

  predicate Separated(parts: seq<string>, sep: char) {
    forall i :: 0 <= i < |parts| ==> sep !in parts[i]
  }

  predicate Names(parts: seq<string>) {
    forall i :: 0 <= i < |parts| ==> parts[i] != "" && '/' !in parts[i]
  }

  lemma {:induction false} SplitIsSeparated(s: string, sep: char)
    ensures Separated(Split(s, sep), sep)
  {
    if s != "" {
      SplitIsSeparated(s[1..], sep);
      assert forall i :: 1 <= i < |Split(s, sep)| ==> Split(s, sep)[i] in Split(s[1..], sep);
    }
  }

  lemma {:induction false} JoinSplit(s: string, sep: char)
    ensures Join(Split(s, sep), sep) == s
  {
    if s != "" {
      JoinSplit(s[1..], sep);
      var rest := Split(s[1..], sep);
      assert s == [s[0]] + s[1..];
      if s[0] == sep {
        assert ([""] + rest)[1..] == rest;
      } else if |rest| > 1 {
        assert ([[s[0]] + rest[0]] + rest[1..])[1..] == rest[1..];
        assert [s[0]] + (rest[0] + [sep] + Join(rest[1..], sep)) == ([s[0]] + rest[0]) + [sep] + Join(rest[1..], sep);
      }
    }
  }

  /** Text before a separator is the first piece. */
  lemma {:induction false} SplitPrefix(p: string, rest: string, sep: char)
    requires sep !in p
    ensures Split(p, sep) == [p]
    ensures Split(p + [sep] + rest, sep) == [p] + Split(rest, sep)
  {
    var s := p + [sep] + rest;
    if p == "" {
      assert s[1..] == rest;
    } else {
      SplitPrefix(p[1..], rest, sep);
      assert s[1..] == p[1..] + [sep] + rest;
      assert [p[0]] + p[1..] == p;
    }
  }

  lemma {:induction false} SplitJoin(parts: seq<string>, sep: char)
    requires |parts| >= 1 && Separated(parts, sep)
    ensures Split(Join(parts, sep), sep) == parts
  {
    if |parts| == 1 {
      SplitPrefix(parts[0], "", sep);
    } else {
      SplitJoin(parts[1..], sep);
      SplitPrefix(parts[0], Join(parts[1..], sep), sep);
    }
  }

  lemma {:induction false} NonEmptyNames(parts: seq<string>)
    requires Separated(parts, '/')
    ensures Names(NonEmpty(parts))
  {
    if parts != [] {
      NonEmptyNames(parts[1..]);
    }
  }

  lemma {:induction false} NamesStay(parts: seq<string>)
    requires Names(parts)
    ensures NonEmpty(parts) == parts
  {
    if parts != [] {
      NamesStay(parts[1..]);
    }
  }

  lemma ComponentsAreNames(path: string)
    ensures Names(Components(path))
  {
    SplitIsSeparated(path, '/');
    NonEmptyNames(Split(path, '/'));
  }

  /** Any list of names is the component list of the path it joins to. */
  lemma ComponentsOfJoin(names: seq<string>)
    requires Names(names)
    ensures Components(Join(names, '/')) == names
  {
    if names != [] {
      SplitJoin(names, '/');
      NamesStay(names);
    }
  }

  lemma PrependAppend(c: char, a: seq<string>, b: seq<string>, sep: char)
    requires a != []
    ensures Prepend(c, a + b, sep) == Prepend(c, a, sep) + b
  {
    assert (a + b)[0] == a[0] && (a + b)[1..] == a[1..] + b;
  }

  /** Splitting goes through a separator, wherever it stands. */
  lemma {:induction false} SplitAppend(a: string, b: string, sep: char)
    ensures Split(a + [sep] + b, sep) == Split(a, sep) + Split(b, sep)
  {
    var s := a + [sep] + b;
    if a == "" {
      assert s[0] == sep && s[1..] == b;
    } else {
      SplitAppend(a[1..], b, sep);
      assert s[0] == a[0] && s[1..] == a[1..] + [sep] + b;
      PrependAppend(a[0], Split(a[1..], sep), Split(b, sep), sep);
      hide Prepend;
    }
  }

  lemma {:induction false} JoinAppend(a: seq<string>, b: seq<string>, sep: char)
    requires a != [] && b != []
    ensures Join(a + b, sep) == Join(a, sep) + [sep] + Join(b, sep)
  {
    assert (a + b)[0] == a[0] && (a + b)[1..] == a[1..] + b;
    if |a| > 1 {
      JoinAppend(a[1..], b, sep);
      var first, rest, last := a[0] + [sep], Join(a[1..], sep), [sep] + Join(b, sep);
      assert first + (rest + last) == (first + rest) + last;
      assert Join(a[1..], sep) + [sep] + Join(b, sep) == rest + last;
    }
  }

  lemma {:induction false} NonEmptyAppend(a: seq<string>, b: seq<string>)
    ensures NonEmpty(a + b) == NonEmpty(a) + NonEmpty(b)
  {
    if a == [] {
      assert a + b == b;
    } else {
      NonEmptyAppend(a[1..], b);
      NonEmptyHead(a[0], a[1..]);
      NonEmptyHead(a[0], a[1..] + b);
      hide NonEmpty;
      assert a == [a[0]] + a[1..] && a + b == [a[0]] + (a[1..] + b);
    }
  }

  lemma NonEmptyHead(name: string, rest: seq<string>)
    ensures NonEmpty([name] + rest) == (if name == "" then [] else [name]) + NonEmpty(rest)
  {
    assert ([name] + rest)[1..] == rest;
  }

  /**
   The names along a path, in any spelling: text without a slash is one name, unless it is empty and counts for nothing,
   and a slash separates the names before it from those after it.
   */
  lemma ComponentsExactly(a: string, b: string)
    ensures Components(a + "/" + b) == Components(a) + Components(b)
    ensures '/' !in a ==> Components(a) == if a == "" then [] else [a]
  {
    SplitAppend(a, b, '/');
    NonEmptyAppend(Split(a, '/'), Split(b, '/'));
    assert a + "/" + b == a + ['/'] + b;
    if '/' !in a {
      SplitPrefix(a, "", '/');
      assert [a][1..] == [];
    }
    hide Split;
  }
}
