/**
 The directory tree shown by `vault_list` (`src/tools/navigation.rs`): building it path by path and drawing it.

 A node's children are a list sorted by name, which is what iterating over the program's `BTreeMap` yields.
 */
module VaultTree {
  import Text

  type Path = seq<string>

  datatype Tree = Node(children: seq<Entry>)
  datatype Entry = Entry(name: string, tree: Tree)

  const EMPTY := Node([])

  /** Strings in code point order. */
  predicate Less(a: string, b: string) {
    if b == "" then false
    else if a == "" || a[0] < b[0] then true
    else a[0] == b[0] && Less(a[1..], b[1..])
  }

  function Insert(t: Tree, names: Path): (r: Tree)
    ensures names != [] ==> r.children != []
    decreases |names|, 1, 0
  {
    if names == [] then t else Node(Put(t.children, names))
  }

  /** The child named first is found, or made where it belongs, and the rest goes below it. */
  function Put(kids: seq<Entry>, names: Path): (r: seq<Entry>)
    requires names != []
    ensures r != []
    decreases |names|, 0, |kids|
  {
    if kids != [] && Less(kids[0].name, names[0]) then [kids[0]] + Put(kids[1..], names)
    else if kids != [] && kids[0].name == names[0] then [Entry(names[0], Insert(kids[0].tree, names[1..]))] + kids[1..]
    else [Entry(names[0], Insert(EMPTY, names[1..]))] + kids
  }

  predicate Sorted(t: Tree) {
    SortedKids(t.children)
  }

  predicate SortedKids(kids: seq<Entry>) {
    kids != [] ==>
      && Sorted(kids[0].tree)
      && SortedKids(kids[1..])
      && forall j :: 1 <= j < |kids| ==> Less(kids[0].name, kids[j].name)
  }

  /** The tree has a node at `path`. */
  predicate Has(t: Tree, path: Path)
    decreases |path|, 1, 0
  {
    path == [] || HasBelow(t.children, path)
  }

  predicate HasBelow(kids: seq<Entry>, path: Path)
    requires path != []
    decreases |path|, 0, |kids|
  {
    && kids != []
    && if kids[0].name == path[0] then Has(kids[0].tree, path[1..]) else HasBelow(kids[1..], path)
  }

  // ---------------------------------------------------------------------------------------
  // The order of names
  // ---------------------------------------------------------------------------------------

  lemma {:induction false} LessIsStrict(a: string)
    ensures !Less(a, a)
  {
    if a != "" {
      LessIsStrict(a[1..]);
    }
  }

  lemma {:induction false} LessIsTransitive(a: string, b: string, c: string)
    requires Less(a, b) && Less(b, c)
    ensures Less(a, c)
  {
    if a != "" && a[0] == b[0] == c[0] {
      LessIsTransitive(a[1..], b[1..], c[1..]);
    }
  }

  lemma {:induction false} LessIsTotal(a: string, b: string)
    ensures Less(a, b) || a == b || Less(b, a)
  {
    if a != "" && b != "" && a[0] == b[0] {
      LessIsTotal(a[1..], b[1..]);
      assert a == [a[0]] + a[1..] && b == [b[0]] + b[1..];
    }
  }

  /** Two names differ first at `i`, where the smaller one ends or has the smaller character. */
  predicate DifferAt(a: string, b: string, i: nat) {
    && i <= |a| && i < |b| && a[..i] == b[..i]
    && (i < |a| ==> a[i] < b[i])
  }

  /** Names are compared by their first difference, as strings are by their code points. */
  lemma {:induction false} LessExactly(a: string, b: string)
    ensures Less(a, b) <==> exists i :: 0 <= i <= |a| && DifferAt(a, b, i)
  {
    if a == "" || b == "" || a[0] != b[0] {
      if b != "" && (a == "" || a[0] < b[0]) {
        assert DifferAt(a, b, 0);
      }
    } else {
      LessExactly(a[1..], b[1..]);
      forall i | 0 <= i <= |a| - 1 && DifferAt(a[1..], b[1..], i) ensures DifferAt(a, b, i + 1) {
        assert a[..i + 1] == [a[0]] + a[1..][..i] && b[..i + 1] == [b[0]] + b[1..][..i];
      }
      forall i | 0 < i <= |a| && DifferAt(a, b, i) ensures DifferAt(a[1..], b[1..], i - 1) {
        assert a[1..][..i - 1] == a[..i][1..] && b[1..][..i - 1] == b[..i][1..];
      }
    }
  }

  /** A name below all the children's names is none of theirs. */
  lemma {:induction false} NotAmong(kids: seq<Entry>, path: Path)
    requires path != [] && forall j :: 0 <= j < |kids| ==> Less(path[0], kids[j].name)
    ensures !HasBelow(kids, path)
  {
    if kids != [] {
      LessIsStrict(path[0]);
      NotAmong(kids[1..], path);
    }
  }

  // ---------------------------------------------------------------------------------------
  // What insertion adds
  // ---------------------------------------------------------------------------------------

  lemma {:induction false} PutKeepsNames(kids: seq<Entry>, names: Path, low: string)
    requires names != [] && Less(low, names[0]) && forall j :: 0 <= j < |kids| ==> Less(low, kids[j].name)
    ensures forall j :: 0 <= j < |Put(kids, names)| ==> Less(low, Put(kids, names)[j].name)
  {
    if kids != [] && Less(kids[0].name, names[0]) {
      PutKeepsNames(kids[1..], names, low);
    }
  }

  lemma {:induction false} InsertKeepsSorted(t: Tree, names: Path)
    requires Sorted(t)
    ensures Sorted(Insert(t, names))
    decreases |names|, 1, 0
  {
    if names != [] {
      PutKeepsSorted(t.children, names);
    }
  }

  lemma {:induction false} PutKeepsSorted(kids: seq<Entry>, names: Path)
    requires names != [] && SortedKids(kids)
    ensures SortedKids(Put(kids, names))
    decreases |names|, 0, |kids|
  {
    var n := names[0];
    if kids == [] {
      InsertKeepsSorted(EMPTY, names[1..]);
    } else if Less(kids[0].name, n) {
      PutKeepsSorted(kids[1..], names);
      PutKeepsNames(kids[1..], names, kids[0].name);
      assert Put(kids, names)[1..] == Put(kids[1..], names);
    } else if kids[0].name == n {
      InsertKeepsSorted(kids[0].tree, names[1..]);
      assert Put(kids, names)[1..] == kids[1..];
    } else {
      InsertKeepsSorted(EMPTY, names[1..]);
      FirstIsLeast(kids, n);
      assert Put(kids, names)[1..] == kids;
    }
  }

  /** A name that is not past the first child, and not the first child, precedes every child. */
  lemma {:induction false} FirstIsLeast(kids: seq<Entry>, n: string)
    requires kids != [] && SortedKids(kids) && !Less(kids[0].name, n) && kids[0].name != n
    ensures forall j :: 0 <= j < |kids| ==> Less(n, kids[j].name)
  {
    LessIsTotal(n, kids[0].name);
    forall j | 1 <= j < |kids| ensures Less(n, kids[j].name) {
      LessIsTransitive(n, kids[0].name, kids[j].name);
    }
  }

  /** Inserting a path adds exactly its prefixes. */
  lemma {:induction false} InsertAddsPrefixes(t: Tree, names: Path, path: Path)
    requires Sorted(t)
    ensures Has(Insert(t, names), path) <==> Has(t, path) || path <= names
    decreases |names|, 1, 0
  {
    if names != [] && path != [] {
      PutAddsPrefixes(t.children, names, path);
    }
  }

  lemma {:induction false} PutAddsPrefixes(kids: seq<Entry>, names: Path, path: Path)
    requires names != [] && path != [] && SortedKids(kids)
    ensures HasBelow(Put(kids, names), path) <==> HasBelow(kids, path) || path <= names
    decreases |names|, 0, |kids|
  {
    var n := names[0];
    assert path <= names <==> path[0] == n && path[1..] <= names[1..];
    if kids != [] && Less(kids[0].name, n) {
      LessIsStrict(n);
      PutAddsPrefixes(kids[1..], names, path);
      assert Put(kids, names)[1..] == Put(kids[1..], names);
    } else if kids != [] && kids[0].name == n {
      InsertAddsPrefixes(kids[0].tree, names[1..], path[1..]);
      assert Put(kids, names)[1..] == kids[1..];
    } else {
      assert Put(kids, names)[1..] == kids;
      InsertAddsPrefixes(EMPTY, names[1..], path[1..]);
      assert Has(EMPTY, path[1..]) <==> path[1..] == [];
      if kids != [] {
        FirstIsLeast(kids, n);
      }
      if path[0] == n {
        NotAmong(kids, path);
      }
    }
  }

  // ---------------------------------------------------------------------------------------
  // The tree of a list of paths
  // ---------------------------------------------------------------------------------------

  /** The tree after inserting `paths` one by one. */
  function InsertAll(t: Tree, paths: seq<string>): Tree
    decreases |paths|
  {
    if paths == [] then t else InsertAll(Insert(t, Text.Components(paths[0])), paths[1..])
  }

  /** Some path leads to `path` or through it. */
  ghost predicate Covered(paths: seq<string>, path: Path) {
    exists i :: 0 <= i < |paths| && path <= Text.Components(paths[i])
  }

  lemma {:induction false} InsertAllAdds(t: Tree, paths: seq<string>, path: Path)
    requires Sorted(t)
    ensures Sorted(InsertAll(t, paths))
    ensures Has(InsertAll(t, paths), path) <==> Has(t, path) || Covered(paths, path)
    decreases |paths|
  {
    if paths != [] {
      var names := Text.Components(paths[0]);
      InsertKeepsSorted(t, names);
      InsertAddsPrefixes(t, names, path);
      InsertAllAdds(Insert(t, names), paths[1..], path);
      assert Covered(paths, path) <==> path <= names || Covered(paths[1..], path) by {
        if Covered(paths[1..], path) {
          var i :| 0 <= i < |paths| - 1 && path <= Text.Components(paths[1..][i]);
          assert path <= Text.Components(paths[i + 1]);
        }
        if Covered(paths, path) && !(path <= names) {
          var i :| 0 <= i < |paths| && path <= Text.Components(paths[i]);
          assert paths[1..][i - 1] == paths[i];
        }
      }
    }
  }

  /** The tree is the prefix closure of the paths' component lists. */
  lemma TreeIsPrefixClosure(paths: seq<string>, path: Path)
    ensures Sorted(InsertAll(EMPTY, paths))
    ensures Has(InsertAll(EMPTY, paths), path) <==> path == [] || Covered(paths, path)
  {
    InsertAllAdds(EMPTY, paths, path);
  }

  /** Every node is reached by proper names: nothing empty, and no separator inside a name. */
  lemma NodesAreNames(paths: seq<string>, path: Path)
    requires Has(InsertAll(EMPTY, paths), path)
    ensures Text.Names(path)
  {
    TreeIsPrefixClosure(paths, path);
    if path != [] {
      var i :| 0 <= i < |paths| && path <= Text.Components(paths[i]);
      Text.ComponentsAreNames(paths[i]);
    }
  }

  /** Any list of proper names is a node of some tree: that of the one path that joins them. */
  lemma JoinedNamesAreOneBranch(names: Path, path: Path)
    requires Text.Names(names)
    ensures Has(InsertAll(EMPTY, [Text.Join(names, '/')]), path) <==> path <= names
  {
    Text.ComponentsOfJoin(names);
    var paths := [Text.Join(names, '/')];
    TreeIsPrefixClosure(paths, path);
    if path <= names {
      assert path <= Text.Components(paths[0]);
    }
  }

  ghost predicate SameNodes(t: Tree, u: Tree) {
    forall path :: Has(t, path) <==> Has(u, path)
  }

  ghost predicate SameBelow(kids: seq<Entry>, more: seq<Entry>) {
    forall path: Path :: path != [] ==> (HasBelow(kids, path) <==> HasBelow(more, path))
  }

  lemma {:induction false} FirstOfSame(kids: seq<Entry>, more: seq<Entry>)
    requires SortedKids(kids) && SortedKids(more) && SameBelow(kids, more) && kids != []
    ensures more != [] && !Less(kids[0].name, more[0].name)
  {
    assert HasBelow(kids, [kids[0].name]);
    if more != [] && Less(kids[0].name, more[0].name) {
      forall j | 0 <= j < |more| ensures Less(kids[0].name, more[j].name) {
        if j > 0 {
          LessIsTransitive(kids[0].name, more[0].name, more[j].name);
        }
      }
      NotAmong(more, [kids[0].name]);
    }
  }

  /** A sorted tree is determined by its nodes. */
  lemma {:induction false} NodesDetermineTree(t: Tree, u: Tree)
    requires Sorted(t) && Sorted(u) && SameNodes(t, u)
    ensures t == u
    decreases t, 1
  {
    assert SameBelow(t.children, u.children) by {
      forall path: Path | path != [] ensures HasBelow(t.children, path) <==> HasBelow(u.children, path) {
        assert Has(t, path) <==> Has(u, path);
      }
    }
    BelowDeterminesKids(t.children, u.children);
  }

  lemma {:induction false} BelowDeterminesKids(kids: seq<Entry>, more: seq<Entry>)
    requires SortedKids(kids) && SortedKids(more) && SameBelow(kids, more)
    ensures kids == more
    decreases kids, 0
  {
    if kids == [] {
      if more != [] {
        FirstOfSame(more, kids);
      }
    } else {
      FirstOfSame(kids, more);
      FirstOfSame(more, kids);
      var n := kids[0].name;
      LessIsTotal(n, more[0].name);
      assert SameNodes(kids[0].tree, more[0].tree) by {
        forall path: Path ensures Has(kids[0].tree, path) <==> Has(more[0].tree, path) {
          assert ([n] + path)[1..] == path;
          assert HasBelow(kids, [n] + path) <==> HasBelow(more, [n] + path);
        }
      }
      NodesDetermineTree(kids[0].tree, more[0].tree);
      assert SameBelow(kids[1..], more[1..]) by {
        NotAgain(kids);
        NotAgain(more);
        forall path: Path | path != [] ensures HasBelow(kids[1..], path) <==> HasBelow(more[1..], path) {
          assert path[0] != n ==> (HasBelow(kids, path) <==> HasBelow(kids[1..], path));
          assert path[0] != n ==> (HasBelow(more, path) <==> HasBelow(more[1..], path));
        }
      }
      BelowDeterminesKids(kids[1..], more[1..]);
      assert kids == [kids[0]] + kids[1..] && more == [more[0]] + more[1..];
    }
  }

  lemma NotAgain(kids: seq<Entry>)
    requires kids != [] && SortedKids(kids)
    ensures forall path: Path :: path != [] && path[0] == kids[0].name ==> !HasBelow(kids[1..], path)
  {
    forall path: Path | path != [] && path[0] == kids[0].name ensures !HasBelow(kids[1..], path) {
      NotAmong(kids[1..], path);
    }
  }

  /** Every path of `paths` is a path of `more`, or a directory on the way to one. */
  ghost predicate Within(paths: seq<string>, more: seq<string>) {
    forall i :: 0 <= i < |paths| ==> Text.Components(paths[i]) == [] || Covered(more, Text.Components(paths[i]))
  }

  lemma WithinCovers(paths: seq<string>, more: seq<string>, path: Path)
    requires Within(paths, more) && path != [] && Covered(paths, path)
    ensures Covered(more, path)
  {
    var i :| 0 <= i < |paths| && path <= Text.Components(paths[i]);
    var j :| 0 <= j < |more| && Text.Components(paths[i]) <= Text.Components(more[j]);
    assert path <= Text.Components(more[j]);
  }

  /** Two lists of paths give one tree exactly if each lies within the other, whatever their order and repetitions. */
  lemma SameTreeExactly(paths: seq<string>, more: seq<string>)
    ensures InsertAll(EMPTY, paths) == InsertAll(EMPTY, more) <==> Within(paths, more) && Within(more, paths)
  {
    var t, u := InsertAll(EMPTY, paths), InsertAll(EMPTY, more);
    TreeIsPrefixClosure(paths, []);
    TreeIsPrefixClosure(more, []);
    if Within(paths, more) && Within(more, paths) {
      forall path ensures Has(t, path) <==> Has(u, path) {
        TreeIsPrefixClosure(paths, path);
        TreeIsPrefixClosure(more, path);
        if path != [] && Covered(paths, path) {
          WithinCovers(paths, more, path);
        }
        if path != [] && Covered(more, path) {
          WithinCovers(more, paths, path);
        }
      }
      NodesDetermineTree(t, u);
    }
    if t == u {
      SameTreeWithin(paths, more);
      SameTreeWithin(more, paths);
    }
  }

  lemma SameTreeWithin(paths: seq<string>, more: seq<string>)
    requires InsertAll(EMPTY, paths) == InsertAll(EMPTY, more)
    ensures Within(paths, more)
  {
    forall i | 0 <= i < |paths| && Text.Components(paths[i]) != [] ensures Covered(more, Text.Components(paths[i])) {
      TreeIsPrefixClosure(paths, Text.Components(paths[i]));
      TreeIsPrefixClosure(more, Text.Components(paths[i]));
    }
  }

  /** In particular the order of insertion does not matter. */
  lemma OrderDoesNotMatter(paths: seq<string>, more: seq<string>)
    requires multiset(paths) == multiset(more)
    ensures InsertAll(EMPTY, paths) == InsertAll(EMPTY, more)
  {
    SameMembersWithin(paths, more);
    SameMembersWithin(more, paths);
    SameTreeExactly(paths, more);
  }

  lemma SameMembersWithin(paths: seq<string>, more: seq<string>)
    requires multiset(paths) == multiset(more)
    ensures Within(paths, more)
  {
    forall i | 0 <= i < |paths| ensures Covered(more, Text.Components(paths[i])) {
      assert paths[i] in multiset(paths);
      var j :| 0 <= j < |more| && more[j] == paths[i];
      assert Text.Components(paths[i]) <= Text.Components(more[j]);
    }
  }
}
