/** The check that directory symlinks cannot make a walk of the source tree endless: a three-colour
    depth-first search over parent-to-child and symlink-to-target edges. */
module SourceGraph {
  import opened Wrappers

  /** A slash-separated path relative to the source root; the root itself (".") is []. */
  type Path = seq<string>

  datatype Entry = Entry(path: Path, isDir: bool)

  /** A symlink whose resolved target is an existing directory. */
  datatype Link = Link(path: Path, target: Path)

  type Graph = map<Path, seq<Path>>

  function Dir(p: Path): Path {
    if p == [] then [] else p[..|p| - 1]
  }

  /** What the walk of the tree reports to the check: a directory below the root, outside ".git",
      whose subtree the walk skips. */
  predicate IsDirectory(e: Entry) {
    e.isDir && e.path != [] && e.path[0] != ".git"
  }

  // ------------------------------------------------------------------ what the check promises

  predicate DirectoryEdge(e: Entry, a: Path, b: Path) {
    IsDirectory(e) && a == Dir(e.path) && b == e.path
  }

  predicate LinkEdge(l: Link, a: Path, b: Path) {
    a == Dir(l.path) && b == l.target
  }

  ghost predicate Edge(entries: seq<Entry>, links: seq<Link>, a: Path, b: Path) {
    (exists e :: e in entries && DirectoryEdge(e, a, b)) || (exists l :: l in links && LinkEdge(l, a, b))
  }

  predicate DirectlyBelow(p: Path, a: Path) {
    p != [] && p[..|p| - 1] == a
  }

  /** An edge leads from a directory to one directly below it outside the Git metadata, or from the
      directory that holds a link to the link's target. */
  lemma EdgeMeaning(entries: seq<Entry>, links: seq<Link>, a: Path, b: Path)
    ensures Edge(entries, links, a, b) <==>
              || (DirectlyBelow(b, a) && b[0] != ".git" && Entry(b, true) in entries)
              || exists l :: l in links && l.target == b && if l.path == [] then a == [] else DirectlyBelow(l.path, a)
  {
    forall e | e in entries && DirectoryEdge(e, a, b) ensures e == Entry(b, true) {}
    if DirectlyBelow(b, a) && b[0] != ".git" && Entry(b, true) in entries { assert DirectoryEdge(Entry(b, true), a, b); }
    forall l ensures LinkEdge(l, a, b) <==> l.target == b && if l.path == [] then a == [] else DirectlyBelow(l.path, a) {}
  }

  ghost predicate Cycle(entries: seq<Entry>, links: seq<Link>, p: seq<Path>) {
    |p| >= 2 && p[0] == p[|p| - 1] && forall i :: 0 <= i < |p| - 1 ==> Edge(entries, links, p[i], p[i + 1])
  }

  ghost predicate Acyclic(entries: seq<Entry>, links: seq<Link>) {
    forall p :: !Cycle(entries, links, p)
  }

  // ------------------------------------------------------------------ adjacency lists

  predicate Closed(g: Graph) {
    forall a, b :: a in g && b in g[a] ==> b in g
  }

  predicate Follows(g: Graph, a: Path, b: Path) {
    a in g && b in g[a]
  }

  /** The graph's edges are those of the entries and links. */
  ghost predicate Represents(g: Graph, entries: seq<Entry>, links: seq<Link>) {
    Closed(g) && forall a, b :: Follows(g, a, b) <==> Edge(entries, links, a, b)
  }

  function Children(g: Graph, a: Path): seq<Path> {
    if a in g then g[a] else []
  }

  /** Append b to a's list; b gets a list of its own if it has none. */
  function WithEdge(g: Graph, a: Path, b: Path): Graph {
    var h := g[a := Children(g, a) + [b]];
    if b in h then h else h[b := []]
  }

  lemma WithEdgeAddsEdge(g: Graph, a: Path, b: Path)
    requires Closed(g)
    ensures Closed(WithEdge(g, a, b))
    ensures forall x, y :: Follows(WithEdge(g, a, b), x, y) <==> Follows(g, x, y) || (x == a && y == b)
  {
    var h := WithEdge(g, a, b);
    forall x, y ensures Follows(h, x, y) <==> Follows(g, x, y) || (x == a && y == b) {
      if x == a { assert h[a] == Children(g, a) + [b]; }
    }
    forall x, y | x in h && y in h[x] ensures y in h {
      assert Follows(h, x, y);
    }
  }

  method BuildGraph(entries: seq<Entry>, links: seq<Link>) returns (graph: Graph)
    ensures Represents(graph, entries, links)
  {
    graph := map[[] := []];
    for i := 0 to |entries|
      invariant Represents(graph, entries[..i], [])
    {
      var entry := entries[i];
      assert forall e :: e in entries[..i + 1] <==> e in entries[..i] || e == entry;
      if !IsDirectory(entry) {
        assert forall a, b :: Edge(entries[..i + 1], [], a, b) <==> Edge(entries[..i], [], a, b);
        continue;
      }
      WithEdgeAddsEdge(graph, Dir(entry.path), entry.path);
      assert forall a, b :: Edge(entries[..i + 1], [], a, b) <==> Edge(entries[..i], [], a, b) || DirectoryEdge(entry, a, b);
      graph := WithEdge(graph, Dir(entry.path), entry.path);
    }
    assert entries[..|entries|] == entries && links[..0] == [];
    for i := 0 to |links|
      invariant Represents(graph, entries, links[..i])
    {
      var link := links[i];
      assert forall l :: l in links[..i + 1] <==> l in links[..i] || l == link;
      WithEdgeAddsEdge(graph, Dir(link.path), link.target);
      assert forall a, b :: Edge(entries, links[..i + 1], a, b) <==> Edge(entries, links[..i], a, b) || LinkEdge(link, a, b);
      graph := WithEdge(graph, Dir(link.path), link.target);
    }
    assert links[..|links|] == links;
  }

  // ------------------------------------------------------------------ the search

  datatype Colour = Visiting | Done

  /** The nodes done so far in order: each comes after all its successors. */
  ghost predicate Finished(g: Graph, order: seq<Path>) {
    forall i :: 0 <= i < |order| ==> order[i] in g && forall next :: next in g[order[i]] ==> next in order[..i]
  }

  lemma FinishOne(g: Graph, order: seq<Path>, node: Path)
    requires Finished(g, order) && node in g && forall next :: next in g[node] ==> next in order
    ensures Finished(g, order + [node])
  {
    var longer := order + [node];
    forall i | 0 <= i < |longer| ensures longer[i] in g && forall next :: next in g[longer[i]] ==> next in longer[..i] {
      assert longer[..i] == order[..i];
      if i == |order| { assert order[..i] == order; }
    }
  }

  ghost predicate Trail(g: Graph, trail: seq<Path>) {
    forall i :: 0 <= i < |trail| - 1 ==> Follows(g, trail[i], trail[i + 1])
  }

  ghost predicate HasCycle(g: Graph) {
    exists p :: |p| >= 2 && p[0] == p[|p| - 1] && Trail(g, p)
  }

  class Visitor {
    const graph: Graph
    var state: map<Path, Colour>
    ghost var trail: seq<Path>
    ghost var order: seq<Path>

    ghost predicate Valid()
      reads this
    {
      && Closed(graph) && state.Keys <= graph.Keys
      && Trail(graph, trail) && Finished(graph, order)
      && (forall n :: n in trail <==> n in state && state[n] == Visiting)
      && (forall n :: n in order <==> n in state && state[n] == Done)
    }

    constructor (graph: Graph)
      requires Closed(graph)
      ensures Valid() && this.graph == graph && state == map[] && trail == []
    {
      this.graph, state, trail, order := graph, map[], [], [];
    }

    method Visit(node: Path) returns (ok: bool)
      requires Valid() && node in graph && (trail != [] ==> Follows(graph, trail[|trail| - 1], node))
      modifies this
      ensures old(state.Keys) <= state.Keys
      ensures ok ==> Valid() && trail == old(trail) && old(order) <= order && node in order
      ensures !ok ==> HasCycle(graph)
      decreases graph.Keys - state.Keys
    {
      if node in state {
        if state[node] == Visiting {
          CycleClosed(graph, trail, node);
          return false;
        }
        return true;
      }
      ghost var above, done := trail, order;
      state, trail := state[node := Visiting], trail + [node];
      ghost var seen := state.Keys;
      var children := graph[node];
      for i := 0 to |children|
        invariant Valid() && trail == above + [node] && done <= order && seen <= state.Keys
        invariant forall j :: 0 <= j < i ==> children[j] in order
      {
        var inner := Visit(children[i]);
        if !inner { return false; }
      }
      FinishOne(graph, order, node);
      state, trail, order := state[node := Done], above, order + [node];
      assert forall n :: n in order <==> n in state && state[n] == Done;
      ok := true;
    }
  }

  lemma CycleClosed(g: Graph, trail: seq<Path>, node: Path)
    requires Trail(g, trail) && node in trail && Follows(g, trail[|trail| - 1], node)
    ensures HasCycle(g)
  {
    var k :| 0 <= k < |trail| && trail[k] == node;
    var p := trail[k..] + [node];
    forall i | 0 <= i < |p| - 1 ensures Follows(g, p[i], p[i + 1]) {
      if i < |trail| - k - 1 { assert Follows(g, trail[k + i], trail[k + i + 1]); }
    }
    assert p[0] == p[|p| - 1];
  }

  function FirstIndex(order: seq<Path>, n: Path): (k: nat)
    requires n in order
    ensures k < |order| && order[k] == n && n !in order[..k]
  {
    if order[0] == n then 0 else 1 + FirstIndex(order[1..], n)
  }

  /** Along a trail the position in the finishing order falls with every step. */
  lemma {:induction false} TrailDescends(g: Graph, order: seq<Path>, p: seq<Path>, k: nat)
    requires Closed(g) && Finished(g, order) && Trail(g, p) && k < |p| && p[0] in order
    ensures p[k] in order && FirstIndex(order, p[k]) + k <= FirstIndex(order, p[0])
  {
    if k > 0 {
      TrailDescends(g, order, p, k - 1);
      assert Follows(g, p[k - 1], p[k - 1 + 1]);
      var i := FirstIndex(order, p[k - 1]);
      assert p[k] in order[..i];
    }
  }

  lemma FinishedIsAcyclic(g: Graph, order: seq<Path>)
    requires Closed(g) && Finished(g, order) && forall n :: n in g ==> n in order
    ensures !HasCycle(g)
  {
    forall p | |p| >= 2 && p[0] == p[|p| - 1] ensures !Trail(g, p) {
      if Trail(g, p) {
        assert Follows(g, p[0], p[0 + 1]);
        TrailDescends(g, order, p, |p| - 1);
      }
    }
  }

  lemma CyclesAgree(g: Graph, entries: seq<Entry>, links: seq<Link>)
    requires Represents(g, entries, links)
    ensures HasCycle(g) <==> !Acyclic(entries, links)
  {
    forall p: seq<Path> ensures Cycle(entries, links, p) <==> |p| >= 2 && p[0] == p[|p| - 1] && Trail(g, p) {
      forall i | 0 <= i < |p| - 1 ensures Follows(g, p[i], p[i + 1]) <==> Edge(entries, links, p[i], p[i + 1]) {}
    }
  }

  /** validateSourceDirectoryGraph, over any walk that succeeds and any iteration order of the
      graph's nodes: it accepts exactly the acyclic graphs. */
  method Validate(walk: Option<seq<Entry>>, links: seq<Link>) returns (ok: bool)
    ensures ok <==> walk.Some? && Acyclic(walk.value, links)
  {
    if walk.None? { return false; }
    var graph := BuildGraph(walk.value, links);
    CyclesAgree(graph, walk.value, links);
    var visitor := new Visitor(graph);
    var nodes := graph.Keys;
    while nodes != {}
      invariant nodes <= graph.Keys && visitor.Valid() && visitor.graph == graph && visitor.trail == [] && fresh(visitor)
      invariant forall n :: n in graph && n !in nodes ==> n in visitor.order
      decreases nodes
    {
      var node :| node in nodes;
      nodes := nodes - {node};
      ok := visitor.Visit(node);
      if !ok { return; }
    }
    FinishedIsAcyclic(graph, visitor.order);
    ok := true;
  }
}
