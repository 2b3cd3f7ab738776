/** `vault_list`'s tree mode (`src/tools/navigation.rs`): the mutable tree, its drawing, and the listing as a whole. */
module VaultList {
  import opened Wrappers
  import opened VaultTree
  import opened TreeDrawing
  import Text

  datatype Child = Child(name: string, node: TreeNode)

  /** `s` with `x` put in at `i`. */
  function Spliced<T>(s: seq<T>, i: nat, x: T): (r: seq<T>)
    requires i <= |s|
    ensures |r| == |s| + 1 && r[i] == x
    ensures forall k :: 0 <= k < i ==> r[k] == s[k]
    ensures forall k :: i < k < |r| ==> r[k] == s[k - 1]
  {
    s[..i] + [x] + s[i..]
  }

  class TreeNode {
    var children: seq<Child>
    ghost var tree: Tree
    ghost var Repr: set<object>

    /** `tree` is the value of this node and everything below it. */
    ghost predicate Valid()
      reads this, Repr
      decreases Repr
    {
      && this in Repr
      && |tree.children| == |children|
      && (forall i :: 0 <= i < |children| ==>
          && children[i].node in Repr && children[i].node.Repr <= Repr && this !in children[i].node.Repr
          && children[i].node.Valid()
          && tree.children[i] == Entry(children[i].name, children[i].node.tree))
      && forall i, j :: 0 <= i < j < |children| ==> children[i].node.Repr !! children[j].node.Repr
    }

    constructor ()
      ensures Valid() && fresh(Repr) && tree == EMPTY
    {
      children := [];
      tree := EMPTY;
      Repr := {this};
    }

    /** Walks down the names, making the nodes that are missing. */
    method Insert(names: Path)
      requires Valid()
      modifies Repr
      ensures Valid() && fresh(Repr - old(Repr))
      ensures tree == VaultTree.Insert(old(tree), names)
      decreases |names|
    {
      hide Less, Put;
      if names == [] {
        return;
      }
      var i := 0;
      while i < |children| && Less(children[i].name, names[0])
        invariant 0 <= i <= |children|
        invariant forall k :: 0 <= k < i ==> Less(children[k].name, names[0])
      {
        i := i + 1;
      }
      PutAt(tree.children, names, i);
      if i == |children| || children[i].name != names[0] {
        var node := new TreeNode();
        Adopt(i, names[0], node);
      }
      Descend(i, names);
    }

    /** An empty node becomes the child at `i`. */
    method Adopt(i: nat, name: string, node: TreeNode)
      requires Valid() && i <= |children|
      requires node.Valid() && node.Repr !! Repr && node.tree == EMPTY
      modifies `children, `tree, `Repr
      ensures Valid() && Repr == old(Repr) + node.Repr
      ensures |children| == old(|children|) + 1 && children[i].name == name
      ensures tree == Node(Spliced(old(tree).children, i, Entry(name, EMPTY)))
    {
      hide Spliced;
      ghost var was, kids := children, tree.children;
      children := Spliced(children, i, Child(name, node));
      tree := Node(Spliced(kids, i, Entry(name, EMPTY)));
      Repr := Repr + node.Repr;
      forall k | 0 <= k < |was|
        ensures was[k].node in Repr && was[k].node.Repr <= Repr && this !in was[k].node.Repr && was[k].node.Valid()
        ensures kids[k] == Entry(was[k].name, was[k].node.tree) && was[k].node.Repr !! node.Repr
      {
      }
      forall k | 0 <= k < |children|
        ensures children[k].node in Repr && children[k].node.Repr <= Repr && this !in children[k].node.Repr
        ensures children[k].node.Valid() && tree.children[k] == Entry(children[k].name, children[k].node.tree)
      {
        if k != i {
          var k' := if k < i then k else k - 1;
          assert children[k] == was[k'] && tree.children[k] == kids[k'];
        }
      }
      forall a, b | 0 <= a < b < |children| ensures children[a].node.Repr !! children[b].node.Repr {
        assert children[a] == Child(name, node) || children[a] == was[if a < i then a else a - 1];
        assert children[b] == Child(name, node) || children[b] == was[if b < i then b else b - 1];
      }
    }

    /** Inserts the names after the first below child `i`. */
    method Descend(i: nat, names: Path)
      requires Valid() && i < |children| && names != []
      modifies Repr
      ensures Valid() && fresh(Repr - old(Repr))
      ensures tree == Node(old(tree).children[i := Entry(old(tree.children[i].name), VaultTree.Insert(old(tree.children[i].tree), names[1..]))])
      decreases |names|, 0
    {
      hide VaultTree.Insert;
      var node := children[i].node;
      ghost var mine, hers := Repr, node.Repr;
      node.Insert(names[1..]);
      tree := Node(tree.children[i := Entry(children[i].name, node.tree)]);
      Repr := Repr + node.Repr;
      forall k | 0 <= k < |children| && k != i
        ensures children[k].node.Repr <= mine && children[k].node.Repr !! node.Repr && children[k].node.Valid()
      {
        assert old(children[k].node.Repr) !! hers;
      }
      forall a, b | 0 <= a < b < |children| ensures children[a].node.Repr !! children[b].node.Repr {
        assert a != i && b != i ==> old(children[a].node.Repr) !! old(children[b].node.Repr);
      }
    }

    method Render(prefix: string) returns (output: string)
      requires Valid()
      ensures output == Drawn(tree.children, prefix)
      decreases Repr
    {
      output := "";
      var count := |children|;
      ghost var kids := tree.children;
      assert kids[0..] == kids && kids[|kids|..] == [];
      assert forall p :: Drawn([], p) == "";
      hide Drawn, Connector, Indent;
      for i := 0 to count
        invariant output + Drawn(kids[i..], prefix) == Drawn(kids, prefix)
      {
        var last := i == count - 1;
        var below := "";
        if children[i].node.children != [] {
          below := children[i].node.Render(prefix + Indent(last));
        }
        DrawnStep(kids, prefix, i, output);
        output := output + (prefix + Connector(last) + children[i].name + "\n" + below);
      }
    }
  }

  lemma DrawnStep(kids: seq<Entry>, prefix: string, i: nat, output: string)
    requires i < |kids| && output + Drawn(kids[i..], prefix) == Drawn(kids, prefix)
    ensures var last := i == |kids| - 1;
      output + (prefix + Connector(last) + kids[i].name + "\n" + Drawn(kids[i].tree.children, prefix + Indent(last)))
      + Drawn(kids[i + 1..], prefix) == Drawn(kids, prefix)
  {
    assert kids[i..][1..] == kids[i + 1..];
  }

  lemma SplicedLater<T>(s: seq<T>, i: nat, x: T)
    requires 0 < i <= |s|
    ensures Spliced(s, i, x) == [s[0]] + Spliced(s[1..], i - 1, x)
    ensures i < |s| ==> s[i := x] == [s[0]] + s[1..][i - 1 := x]
  {
  }

  /** Where the first name goes. */
  lemma {:induction false} PutAt(kids: seq<Entry>, names: Path, i: nat)
    requires names != [] && i <= |kids|
    requires forall k :: 0 <= k < i ==> Less(kids[k].name, names[0])
    requires i < |kids| ==> !Less(kids[i].name, names[0])
    ensures Put(kids, names) ==
      if i < |kids| && kids[i].name == names[0] then kids[i := Entry(names[0], VaultTree.Insert(kids[i].tree, names[1..]))]
      else Spliced(kids, i, Entry(names[0], VaultTree.Insert(EMPTY, names[1..])))
  {
    hide VaultTree.Insert, Less, Spliced;
    if i > 0 {
      PutAt(kids[1..], names, i - 1);
      assert Put(kids, names) == [kids[0]] + Put(kids[1..], names);
      hide Put;
      SplicedLater(kids, i, Entry(names[0], VaultTree.Insert(EMPTY, names[1..])));
      if i < |kids| {
        SplicedLater(kids, i, Entry(names[0], VaultTree.Insert(kids[i].tree, names[1..])));
      }
    } else {
      PutFirst(kids, names);
    }
  }

  lemma {:induction false} PutFirst(kids: seq<Entry>, names: Path)
    requires names != [] && (kids != [] ==> !Less(kids[0].name, names[0]))
    ensures Put(kids, names) ==
      if kids != [] && kids[0].name == names[0] then kids[0 := Entry(names[0], VaultTree.Insert(kids[0].tree, names[1..]))]
      else Spliced(kids, 0, Entry(names[0], VaultTree.Insert(EMPTY, names[1..])))
  {
    hide VaultTree.Insert, Less;
  }

  // ---------------------------------------------------------------------------------------
  // The listing
  // ---------------------------------------------------------------------------------------

  function LogicalDepth(path: string): nat {
    |Text.Components(path)|
  }

  function Relative(path: string, prefix: string): string {
    if prefix <= path then path[|prefix|..] else path
  }

  /** The relative paths that are not too deep. */
  function Shown(files: seq<string>, prefix: string, maxDepth: Option<nat>): seq<string> {
    if files == [] then []
    else
      var relative := Relative(files[0], prefix);
      (if maxDepth.Some? && LogicalDepth(relative) > maxDepth.value then [] else [relative])
      + Shown(files[1..], prefix, maxDepth)
  }

  method ListTree(files: seq<string>, prefix: string, maxDepth: Option<nat>, heading: string) returns (output: string)
    ensures output == Listing(heading, InsertAll(EMPTY, Shown(files, prefix, maxDepth)))
  {
    hide VaultTree.Insert, Text.Components, Terminated, Lines, Drawn;
    var root := new TreeNode();
    ghost var whole := InsertAll(EMPTY, Shown(files, prefix, maxDepth));
    assert files[0..] == files;
    for i := 0 to |files|
      invariant root.Valid() && fresh(root.Repr)
      invariant InsertAll(root.tree, Shown(files[i..], prefix, maxDepth)) == whole
    {
      var relative := Relative(files[i], prefix);
      assert files[i..][1..] == files[i + 1..];
      ghost var rest := Shown(files[i + 1..], prefix, maxDepth);
      if maxDepth.None? || LogicalDepth(relative) <= maxDepth.value {
        assert ([relative] + rest)[0] == relative && ([relative] + rest)[1..] == rest;
        root.Insert(Text.Components(relative));
      } else {
        assert [] + rest == rest;
      }
    }
    var text := root.Render("");
    output := heading + "\n" + text;
    DrawnIsLines(root.tree.children, "");
    PopLast(heading, root.tree);
    if output[|output| - 1] == '\n' {
      output := output[..|output| - 1];
    }
  }

  lemma PopLast(heading: string, t: Tree)
    ensures heading + "\n" + Terminated(Lines(t.children, "")) == Listing(heading, t) + "\n"
  {
    var lines := Lines(t.children, "");
    assert ([heading] + lines)[1..] == lines;
    TerminatedJoins([heading] + lines);
  }

  /** The file's names after the listed directory's, when it lies there, are not too many, and start with `path`. */
  ghost predicate Admitted(file: string, prefix: string, maxDepth: Option<nat>, path: Path) {
    var names := Text.Components(if prefix <= file then file[|prefix|..] else file);
    path <= names && (maxDepth.Some? ==> |names| <= maxDepth.value)
  }

  ghost predicate SomeAdmitted(files: seq<string>, prefix: string, maxDepth: Option<nat>, path: Path) {
    exists i :: 0 <= i < |files| && Admitted(files[i], prefix, maxDepth, path)
  }

  lemma AdmittedSplits(files: seq<string>, prefix: string, maxDepth: Option<nat>, path: Path)
    requires files != []
    ensures SomeAdmitted(files, prefix, maxDepth, path)
       <==> Admitted(files[0], prefix, maxDepth, path) || SomeAdmitted(files[1..], prefix, maxDepth, path)
  {
    hide Admitted;
    if SomeAdmitted(files[1..], prefix, maxDepth, path) {
      var i :| 0 <= i < |files[1..]| && Admitted(files[1..][i], prefix, maxDepth, path);
      assert Admitted(files[i + 1], prefix, maxDepth, path);
    }
    forall i | 1 <= i < |files| && Admitted(files[i], prefix, maxDepth, path)
      ensures SomeAdmitted(files[1..], prefix, maxDepth, path)
    {
      assert Admitted(files[1..][i - 1], prefix, maxDepth, path);
    }
  }

  lemma {:induction false} ShownCovers(files: seq<string>, prefix: string, maxDepth: Option<nat>, path: Path)
    ensures Covered(Shown(files, prefix, maxDepth), path) <==> SomeAdmitted(files, prefix, maxDepth, path)
  {
    if files != [] {
      var relative := Relative(files[0], prefix);
      var kept: seq<string> := if maxDepth.Some? && LogicalDepth(relative) > maxDepth.value then [] else [relative];
      ShownCovers(files[1..], prefix, maxDepth, path);
      CoveredSplits(kept, Shown(files[1..], prefix, maxDepth), path);
      AdmittedSplits(files, prefix, maxDepth, path);
      assert kept != [] ==> kept[0] == relative;
      assert Covered(kept, path) <==> Admitted(files[0], prefix, maxDepth, path);
    }
  }

  lemma CoveredSplits(a: seq<string>, b: seq<string>, path: Path)
    ensures Covered(a + b, path) <==> Covered(a, path) || Covered(b, path)
  {
    if Covered(a, path) {
      var i :| 0 <= i < |a| && path <= Text.Components(a[i]);
      assert path <= Text.Components((a + b)[i]);
    }
    if Covered(b, path) {
      var i :| 0 <= i < |b| && path <= Text.Components(b[i]);
      assert path <= Text.Components((a + b)[|a| + i]);
    }
    if Covered(a + b, path) {
      var i :| 0 <= i < |a + b| && path <= Text.Components((a + b)[i]);
      assert if i < |a| then path <= Text.Components(a[i]) else path <= Text.Components(b[i - |a|]);
    }
  }

  /** The listed tree holds exactly the files within the depth limit and the directories on the way to them. */
  lemma ListsExactly(files: seq<string>, prefix: string, maxDepth: Option<nat>, path: Path)
    requires path != []
    ensures Has(InsertAll(EMPTY, Shown(files, prefix, maxDepth)), path) <==> SomeAdmitted(files, prefix, maxDepth, path)
  {
    TreeIsPrefixClosure(Shown(files, prefix, maxDepth), path);
    ShownCovers(files, prefix, maxDepth, path);
  }
}
