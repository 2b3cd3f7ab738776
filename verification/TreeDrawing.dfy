/** Drawing the directory tree (`render_tree` in `src/tools/navigation.rs`), and reading a drawing back. */
module TreeDrawing {
  import opened VaultTree
  import Text

  const TEE := "\U{251C}\U{2500}\U{2500} "
  const CORNER := "\U{2514}\U{2500}\U{2500} "
  const BAR := "\U{2502}   "
  const GAP := "    "

  function Connector(last: bool): string {
    if last then CORNER else TEE
  }

  function Indent(last: bool): string {
    if last then GAP else BAR
  }

  /** The text drawn for a list of siblings. */
  function Drawn(kids: seq<Entry>, prefix: string): string {
    if kids == [] then ""
    else
      var last := |kids| == 1;
      prefix + Connector(last) + kids[0].name + "\n"
      + Drawn(kids[0].tree.children, prefix + Indent(last))
      + Drawn(kids[1..], prefix)
  }

  /** The same, line by line. */
  function Lines(kids: seq<Entry>, prefix: string): seq<string> {
    if kids == [] then []
    else
      var last := |kids| == 1;
      [prefix + Connector(last) + kids[0].name]
      + Lines(kids[0].tree.children, prefix + Indent(last))
      + Lines(kids[1..], prefix)
  }

  function Terminated(lines: seq<string>): string {
    if lines == [] then "" else lines[0] + "\n" + Terminated(lines[1..])
  }

  lemma {:induction false} TerminatedConcat(a: seq<string>, b: seq<string>)
    ensures Terminated(a + b) == Terminated(a) + Terminated(b)
  {
    if a == [] {
      assert a + b == b;
    } else {
      TerminatedConcat(a[1..], b);
      assert (a + b)[1..] == a[1..] + b;
    }
  }

  lemma {:induction false} DrawnIsLines(kids: seq<Entry>, prefix: string)
    ensures Drawn(kids, prefix) == Terminated(Lines(kids, prefix))
  {
    if kids != [] {
      var last := |kids| == 1;
      var first := [prefix + Connector(last) + kids[0].name];
      var below := Lines(kids[0].tree.children, prefix + Indent(last));
      DrawnIsLines(kids[0].tree.children, prefix + Indent(last));
      DrawnIsLines(kids[1..], prefix);
      TerminatedConcat(first + below, Lines(kids[1..], prefix));
      TerminatedConcat(first, below);
      assert Terminated(first) == first[0] + "\n";
    }
  }

  /** Without its last line feed, terminated text is the lines joined. */
  lemma {:induction false} TerminatedJoins(lines: seq<string>)
    requires lines != []
    ensures Terminated(lines) == Text.Join(lines, '\n') + "\n"
  {
    if |lines| > 1 {
      TerminatedJoins(lines[1..]);
    }
  }

  // ---------------------------------------------------------------------------------------
  // One line per node, depth first, in order
  // ---------------------------------------------------------------------------------------

  /** The nodes in the order they are drawn. */
  function Nodes(kids: seq<Entry>, at: Path): seq<Path> {
    if kids == [] then []
    else [at + [kids[0].name]] + Nodes(kids[0].tree.children, at + [kids[0].name]) + Nodes(kids[1..], at)
  }

  /** Paths in dictionary order of their names; a directory precedes what it holds. */
  predicate Before(p: Path, q: Path) {
    if q == [] then false
    else if p == [] || Less(p[0], q[0]) then true
    else p[0] == q[0] && Before(p[1..], q[1..])
  }

  lemma {:induction false} BeforeBelow(at: Path, p: Path, q: Path)
    ensures Before(at + p, at + q) <==> Before(p, q)
  {
    if at == [] {
      assert at + p == p && at + q == q;
    } else {
      LessIsStrict(at[0]);
      BeforeBelow(at[1..], p, q);
      assert (at + p)[1..] == at[1..] + p && (at + q)[1..] == at[1..] + q;
    }
  }

  /** A node is drawn exactly if the tree has it. */
  lemma {:induction false} DrawsExactlyTheNodes(kids: seq<Entry>, at: Path, q: Path)
    requires SortedKids(kids)
    ensures at + q in Nodes(kids, at) <==> q != [] && HasBelow(kids, q)
    decreases kids
  {
    if kids == [] {
      return;
    }
    var n := kids[0].name;
    NodesAreBelow(kids, at);
    DrawsExactlyTheNodes(kids[1..], at, q);
    NodesAreBelow(kids[0].tree.children, at + [n]);
    if q == [] {
      assert at + q == at;
    } else {
      assert at + q == at + [q[0]] + q[1..];
      DrawsExactlyTheNodes(kids[0].tree.children, at + [n], q[1..]);
      if q[0] == n {
        NotAmong(kids[1..], q);
        assert (at + [n]) + q[1..] == at + q;
        assert q[1..] == [] <==> at + q == at + [n];
      } else {
        assert (at + q)[|at|] == q[0];
      }
    }
  }

  lemma {:induction false} NodesAreBelow(kids: seq<Entry>, at: Path)
    ensures forall p :: p in Nodes(kids, at) ==> at < p
    ensures forall p :: p in Nodes(kids, at) ==> exists j :: 0 <= j < |kids| && p[|at|] == kids[j].name
  {
    if kids != [] {
      var down := at + [kids[0].name];
      NodesAreBelow(kids[0].tree.children, down);
      NodesAreBelow(kids[1..], at);
      forall p | p in Nodes(kids, at)
        ensures at < p && exists j :: 0 <= j < |kids| && p[|at|] == kids[j].name
      {
        if p in Nodes(kids[1..], at) {
          var j :| 0 <= j < |kids| - 1 && p[|at|] == kids[1..][j].name;
          assert kids[j + 1].name == p[|at|];
        } else {
          assert p == down || p in Nodes(kids[0].tree.children, down);
          assert down <= p;
          assert p[|at|] == down[|at|] == kids[0].name;
        }
      }
    }
  }

  predicate Increasing(paths: seq<Path>) {
    forall i, j :: 0 <= i < j < |paths| ==> Before(paths[i], paths[j])
  }

  lemma FirstNameDecides(at: Path, p: Path, q: Path)
    requires at < p && at < q && Less(p[|at|], q[|at|])
    ensures Before(p, q)
  {
    BeforeBelow(at, p[|at|..], q[|at|..]);
    assert at + p[|at|..] == p && at + q[|at|..] == q;
  }

  /** Every node is drawn once, in sorted depth-first order. */
  lemma {:induction false} DrawsInOrder(kids: seq<Entry>, at: Path)
    requires SortedKids(kids)
    ensures Increasing(Nodes(kids, at))
  {
    if kids != [] {
      var n := kids[0].name;
      var down := at + [n];
      var below, after := Nodes(kids[0].tree.children, down), Nodes(kids[1..], at);
      DrawsInOrder(kids[0].tree.children, down);
      DrawsInOrder(kids[1..], at);
      NodesAreBelow(kids[0].tree.children, down);
      NodesAreBelow(kids[1..], at);
      forall p | p in below ensures Before(down, p) {
        BeforeBelow(down, [], p[|down|..]);
        assert down + [] == down && down + p[|down|..] == p;
      }
      forall p, q | (p == down || p in below) && q in after ensures Before(p, q) {
        assert down <= p && p[|at|] == down[|at|] == n;
        FirstNameDecides(at, p, q);
      }
      JoinIncreasing([down], below);
      JoinIncreasing([down] + below, after);
    }
  }

  lemma JoinIncreasing(a: seq<Path>, b: seq<Path>)
    requires Increasing(a) && Increasing(b) && forall p, q :: p in a && q in b ==> Before(p, q)
    ensures Increasing(a + b)
  {
  }

  // ---------------------------------------------------------------------------------------
  // Reading a drawing
  // ---------------------------------------------------------------------------------------

  datatype Item = Item(depth: nat, name: string)

  /** A line's depth is the number of blocks of four before the first connector; the rest is its name. */
  function ReadLine(line: string): Item {
    if |line| < 4 || line[0] == TEE[0] || line[0] == CORNER[0] then Item(0, if |line| < 4 then line else line[4..])
    else
      var rest := ReadLine(line[4..]);
      Item(rest.depth + 1, rest.name)
  }

  function ReadLines(lines: seq<string>): (items: seq<Item>)
    ensures |items| == |lines|
    ensures forall i :: 0 <= i < |lines| ==> items[i] == ReadLine(lines[i])
  {
    if lines == [] then [] else [ReadLine(lines[0])] + ReadLines(lines[1..])
  }

  /** The siblings at depth `d` that `items` starts with, each with the deeper items that follow it. */
  function Rebuild(items: seq<Item>, d: nat): (r: (seq<Entry>, seq<Item>))
    ensures |r.1| <= |items|
    decreases |items|
  {
    if items == [] || items[0].depth != d then ([], items)
    else
      var (below, rest) := Rebuild(items[1..], d + 1);
      var (more, left) := Rebuild(rest, d);
      ([Entry(items[0].name, Node(below))] + more, left)
  }

  /** Reads a whole listing: the heading, then the tree. */
  function ReadListing(output: string): (string, Tree) {
    var lines := Text.Split(output, '\n');
    (lines[0], Node(Rebuild(ReadLines(lines[1..]), 0).0))
  }

  /** The depth and name of every node, in drawing order. */
  function Outline(kids: seq<Entry>, d: nat): seq<Item> {
    if kids == [] then []
    else [Item(d, kids[0].name)] + Outline(kids[0].tree.children, d + 1) + Outline(kids[1..], d)
  }

  lemma Regrouped(head: Item, below: seq<Item>, after: seq<Item>, tail: seq<Item>)
    ensures var items := ([head] + below + after) + tail; items[0] == head && items[1..] == below + (after + tail)
  {
  }

  lemma {:induction false} RebuildOutline(kids: seq<Entry>, d: nat, tail: seq<Item>)
    requires tail == [] || tail[0].depth < d
    ensures Rebuild(Outline(kids, d) + tail, d) == (kids, tail)
    decreases kids
  {
    if kids == [] {
      assert Outline(kids, d) + tail == tail;
    } else {
      var below, after := Outline(kids[0].tree.children, d + 1), Outline(kids[1..], d);
      assert if kids[1..] == [] then after + tail == tail else (after + tail)[0].depth == d;
      RebuildOutline(kids[0].tree.children, d + 1, after + tail);
      RebuildOutline(kids[1..], d, tail);
      Regrouped(Item(d, kids[0].name), below, after, tail);
      assert Outline(kids, d) == [Item(d, kids[0].name)] + below + after;
      hide Outline;
      assert Node(kids[0].tree.children) == kids[0].tree;
      assert kids == [kids[0]] + kids[1..];
    }
  }

  /** `d` blocks of four, none of which looks like a connector. */
  predicate Blocks(prefix: string, d: nat)
    decreases d
  {
    if d == 0 then prefix == ""
    else |prefix| >= 4 && prefix[0] != TEE[0] && prefix[0] != CORNER[0] && Blocks(prefix[4..], d - 1)
  }

  lemma {:induction false} OneBlockMore(prefix: string, d: nat, last: bool)
    requires Blocks(prefix, d)
    ensures Blocks(prefix + Indent(last), d + 1)
    decreases d
  {
    if d == 0 {
      assert prefix + Indent(last) == Indent(last);
      assert Indent(last)[4..] == "";
    } else {
      OneBlockMore(prefix[4..], d - 1, last);
      assert (prefix + Indent(last))[4..] == prefix[4..] + Indent(last);
    }
  }

  lemma {:induction false} ReadDrawnLine(prefix: string, d: nat, last: bool, name: string)
    requires Blocks(prefix, d)
    ensures ReadLine(prefix + Connector(last) + name) == Item(d, name)
    decreases d
  {
    var line := prefix + Connector(last) + name;
    if d == 0 {
      assert line == Connector(last) + name;
      assert line[4..] == name;
    } else {
      ReadDrawnLine(prefix[4..], d - 1, last, name);
      assert line[4..] == prefix[4..] + Connector(last) + name;
    }
  }

  /** The drawn lines read as the nodes' depths and names, whatever the names are. */
  lemma {:induction false} ReadDrawnLines(kids: seq<Entry>, prefix: string, d: nat)
    requires Blocks(prefix, d)
    ensures ReadLines(Lines(kids, prefix)) == Outline(kids, d)
    decreases kids
  {
    if kids != [] {
      var last := |kids| == 1;
      OneBlockMore(prefix, d, last);
      ReadDrawnLine(prefix, d, last, kids[0].name);
      ReadDrawnLines(kids[0].tree.children, prefix + Indent(last), d + 1);
      ReadDrawnLines(kids[1..], prefix, d);
      ReadLinesConcat([prefix + Connector(last) + kids[0].name], Lines(kids[0].tree.children, prefix + Indent(last)));
      ReadLinesConcat([prefix + Connector(last) + kids[0].name] + Lines(kids[0].tree.children, prefix + Indent(last)),
                      Lines(kids[1..], prefix));
    }
  }

  lemma ReadLinesConcat(a: seq<string>, b: seq<string>)
    ensures ReadLines(a + b) == ReadLines(a) + ReadLines(b)
  {
  }

  /** Line `i` of the drawing shows node `i`: its depth and its own name. */
  lemma {:induction false} OutlineShowsNodes(kids: seq<Entry>, at: Path)
    ensures |Outline(kids, |at|)| == |Nodes(kids, at)|
    ensures forall i :: 0 <= i < |Nodes(kids, at)| ==>
      Nodes(kids, at)[i] != [] && Outline(kids, |at|)[i] == Item(|Nodes(kids, at)[i]| - 1, Nodes(kids, at)[i][|Nodes(kids, at)[i]| - 1])
  {
    if kids != [] {
      OutlineShowsNodes(kids[0].tree.children, at + [kids[0].name]);
      OutlineShowsNodes(kids[1..], at);
    }
  }

  /** One line per node: the lines drawn are, in order, the tree's nodes by depth and name. */
  lemma OneLinePerNode(t: Tree)
    requires Sorted(t)
    ensures var nodes, lines := Nodes(t.children, []), Lines(t.children, "");
      && |lines| == |nodes|
      && Increasing(nodes)
      && (forall path: Path :: path in nodes <==> path != [] && Has(t, path))
      && (forall i :: 0 <= i < |nodes| ==> nodes[i] != [] && ReadLine(lines[i]) == Item(|nodes[i]| - 1, nodes[i][|nodes[i]| - 1]))
  {
    ReadDrawnLines(t.children, "", 0);
    OutlineShowsNodes(t.children, []);
    DrawsInOrder(t.children, []);
    forall path: Path ensures path in Nodes(t.children, []) <==> path != [] && Has(t, path) {
      DrawsExactlyTheNodes(t.children, [], path);
      assert [] + path == path;
    }
  }

  // ---------------------------------------------------------------------------------------
  // The listing
  // ---------------------------------------------------------------------------------------

  /** The whole answer: the heading and the lines, separated by line feeds. */
  function Listing(heading: string, t: Tree): string {
    Text.Join([heading] + Lines(t.children, ""), '\n')
  }

  predicate OneLineNames(t: Tree) {
    OneLineBelow(t.children)
  }

  predicate OneLineBelow(kids: seq<Entry>) {
    kids != [] ==> '\n' !in kids[0].name && OneLineNames(kids[0].tree) && OneLineBelow(kids[1..])
  }

  lemma {:induction false} LinesAreSeparated(kids: seq<Entry>, prefix: string)
    requires OneLineBelow(kids) && '\n' !in prefix
    ensures Text.Separated(Lines(kids, prefix), '\n')
  {
    if kids != [] {
      var last := |kids| == 1;
      assert '\n' !in Indent(last) && '\n' !in Connector(last);
      LinesAreSeparated(kids[0].tree.children, prefix + Indent(last));
      LinesAreSeparated(kids[1..], prefix);
    }
  }

  /** When no name holds a line feed, the listing can be read back. */
  lemma ListingReadsBack(heading: string, t: Tree)
    requires '\n' !in heading && OneLineNames(t)
    ensures ReadListing(Listing(heading, t)) == (heading, t)
  {
    var lines := Lines(t.children, "");
    LinesAreSeparated(t.children, "");
    Text.SplitJoin([heading] + lines, '\n');
    assert ([heading] + lines)[1..] == lines;
    ReadDrawnLines(t.children, "", 0);
    RebuildOutline(t.children, 0, []);
    assert Outline(t.children, 0) + [] == Outline(t.children, 0);
  }

  lemma LinesOfOne(name: string, below: seq<Entry>, prefix: string)
    ensures Lines([Entry(name, Node(below))], prefix) == [prefix + CORNER + name] + Lines(below, prefix + GAP)
  {
    var kids := [Entry(name, Node(below))];
    assert kids[1..] == [];
    assert Lines(kids[1..], prefix) == [];
  }

  lemma Imitation(a: string, s: string)
    ensures Text.Join([CORNER + a, s], '\n') == Text.Join([CORNER + (a + "\n" + s)], '\n')
  {
    assert [CORNER + a, s][1..] == [s];
    assert (CORNER + a) + ['\n'] + s == CORNER + (a + "\n" + s);
  }

  /** A name with a line feed can imitate a deeper node: the condition cannot be dropped. */
  lemma LineFeedsAreAmbiguous()
    ensures var nested := Node([Entry("a", Node([Entry("b", EMPTY)]))]);
      var flat := Node([Entry("a" + "\n" + (GAP + CORNER + "b"), EMPTY)]);
      && nested != flat
      && forall heading :: Listing(heading, nested) == Listing(heading, flat)
  {
    var name := "a" + "\n" + (GAP + CORNER + "b");
    var nested := Node([Entry("a", Node([Entry("b", EMPTY)]))]);
    var flat := Node([Entry(name, EMPTY)]);
    LinesOfOne("b", [], "" + GAP);
    LinesOfOne("a", [Entry("b", EMPTY)], "");
    LinesOfOne(name, [], "");
    assert forall prefix :: Lines([], prefix) == [];
    hide Lines;
    assert "" + CORNER == CORNER && "" + GAP == GAP;
    var two, one := Lines(nested.children, ""), Lines(flat.children, "");
    assert two == [CORNER + "a", GAP + CORNER + "b"] && one == [CORNER + name];
    Imitation("a", GAP + CORNER + "b");
    forall heading ensures Listing(heading, nested) == Listing(heading, flat) {
      assert ([heading] + two)[1..] == two && ([heading] + one)[1..] == one;
    }
    assert |nested.children[0].name| == 1 && |name| > 1;
  }

  /** What the drawing looks like: a connector before each name, and a bar below all but the last of its siblings. */
  lemma DrawsConnectors(name: string, below: seq<Entry>, after: seq<Entry>, prefix: string)
    ensures Drawn([Entry(name, Node(below))] + after, prefix) ==
      if after == [] then prefix + "\U{2514}\U{2500}\U{2500} " + name + "\n" + Drawn(below, prefix + "    ")
      else prefix + "\U{251C}\U{2500}\U{2500} " + name + "\n" + Drawn(below, prefix + "\U{2502}   ") + Drawn(after, prefix)
  {
    assert ([Entry(name, Node(below))] + after)[1..] == after;
    assert Drawn([], prefix) == "";
  }
}
