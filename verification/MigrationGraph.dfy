/** The release check of the migration chain: it reads each migration's revision and parents,
    tests that the expected revision is the only head, and walks the graph depth first. */
module MigrationGraph {

  /** The literal bound to `down_revision`. */
  datatype Parent = NoParent | One(name: string) | Many(names: seq<string>) | Malformed

  datatype Migration = Migration(revision: string, parent: Parent)

  type Graph = map<string, seq<string>>

  function ParentsOf(p: Parent): (names: seq<string>)
    requires !p.Malformed?
  {
    match p
    case NoParent => []
    case One(name) => [name]
    case Many(names) => names
  }

  predicate WellFormed(m: Migration) {
    m.revision != "" && !m.parent.Malformed? && "" !in ParentsOf(m.parent)
  }

  /** Every file is well formed and no revision is declared twice. */
  ghost predicate Readable(files: seq<Migration>) {
    && (forall i :: 0 <= i < |files| ==> WellFormed(files[i]))
    && (forall i, j :: 0 <= i < j < |files| ==> files[i].revision != files[j].revision)
  }

  ghost function GraphOf(files: seq<Migration>): Graph
    requires forall i :: 0 <= i < |files| ==> WellFormed(files[i])
  {
    if files == [] then map[]
    else
      var last := files[|files| - 1];
      assert WellFormed(last);
      GraphOf(files[..|files| - 1])[last.revision := ParentsOf(last.parent)]
  }

  lemma {:induction false} GraphKeys(files: seq<Migration>)
    requires forall i :: 0 <= i < |files| ==> WellFormed(files[i])
    ensures forall r :: r in GraphOf(files) <==> exists i :: 0 <= i < |files| && files[i].revision == r
  {
    if files != [] {
      var front := files[..|files| - 1];
      GraphKeys(front);
      assert forall i :: 0 <= i < |front| ==> front[i] == files[i];
    }
  }

  /** The file names `p` as a parent of its revision. */
  ghost predicate Names(m: Migration, p: string) {
    m.parent == One(p) || (m.parent.Many? && p in m.parent.names)
  }

  ghost predicate Declares(files: seq<Migration>, c: string, p: string) {
    exists i :: 0 <= i < |files| && files[i].revision == c && Names(files[i], p)
  }

  lemma DeclaresSnoc(front: seq<Migration>, last: Migration, c: string, p: string)
    ensures Declares(front + [last], c, p) <==> Declares(front, c, p) || (last.revision == c && Names(last, p))
  {
    var files := front + [last];
    assert files[|front|] == last && forall i :: 0 <= i < |front| ==> files[i] == front[i];
  }

  /** The graph has an edge exactly where some file declares its revision with that parent. */
  lemma {:induction false} EdgesAreDeclared(files: seq<Migration>, c: string, p: string)
    requires Readable(files)
    ensures Edge(GraphOf(files), c, p) <==> Declares(files, c, p)
  {
    if files != [] {
      var front, last := files[..|files| - 1], files[|files| - 1];
      ReadableFront(files);
      EdgesAreDeclared(front, c, p);
      DeclaresSnoc(front, last, c, p);
      assert files == front + [last];
      if c == last.revision { NotBefore(files, p); }
    }
  }

  lemma ReadableFront(files: seq<Migration>)
    requires Readable(files) && files != []
    ensures Readable(files[..|files| - 1]) && WellFormed(files[|files| - 1])
  {
  }

  /** No earlier file declares the last one's revision. */
  lemma NotBefore(files: seq<Migration>, p: string)
    requires Readable(files) && files != []
    ensures !Declares(files[..|files| - 1], files[|files| - 1].revision, p)
  {
  }

  // ------------------------------------------------------------------ what the check decides

  ghost predicate Edge(g: Graph, child: string, parent: string) {
    child in g && parent in g[child]
  }

  /** A walk along parent links. */
  ghost predicate Path(g: Graph, p: seq<string>) {
    forall i :: 0 <= i < |p| - 1 ==> Edge(g, p[i], p[i + 1])
  }

  ghost predicate Cycle(g: Graph, p: seq<string>) {
    |p| >= 2 && p[0] == p[|p| - 1] && Path(g, p)
  }

  ghost predicate Acyclic(g: Graph) {
    forall p :: !Cycle(g, p)
  }

  ghost predicate Closed(g: Graph) {
    forall c, p :: Edge(g, c, p) ==> p in g
  }

  /** A head is a revision that is nobody's parent. */
  ghost predicate IsHead(g: Graph, r: string) {
    r in g && forall c :: !Edge(g, c, r)
  }

  ghost predicate UniqueHead(g: Graph, head: string) {
    forall r :: IsHead(g, r) <==> r == head
  }

  ghost predicate Reaches(g: Graph, from: string, to: string) {
    exists p :: |p| > 0 && p[0] == from && p[|p| - 1] == to && Path(g, p)
  }

  /** Each revision's parents stand before it. */
  ghost predicate Ordered(g: Graph, order: seq<string>) {
    && (forall i, j :: 0 <= i < j < |order| ==> order[i] != order[j])
    && (forall i :: 0 <= i < |order| ==>
          order[i] in g && forall p :: p in g[order[i]] ==> p in order[..i])
  }

  lemma {:induction false} PathDescends(g: Graph, order: seq<string>, p: seq<string>, i: nat, k: nat) returns (j: nat)
    requires Ordered(g, order) && Path(g, p) && k < |p|
    requires i < |order| && |p| > 0 && p[0] == order[i]
    ensures j < |order| && p[k] == order[j] && (if k == 0 then j == i else j < i)
    decreases k
  {
    if k == 0 {
      j := i;
    } else {
      var m := PathDescends(g, order, p, i, k - 1);
      assert Edge(g, p[k - 1], p[k - 1 + 1]);
      j :| 0 <= j < m && order[..m][j] == p[k];
    }
  }

  lemma OrderedIsAcyclic(g: Graph, order: seq<string>)
    requires Ordered(g, order) && forall r :: r in g ==> r in order
    ensures Acyclic(g)
  {
    forall p | Cycle(g, p) ensures false {
      assert Edge(g, p[0], p[0 + 1]);
      var i :| 0 <= i < |order| && order[i] == p[0];
      var j := PathDescends(g, order, p, i, |p| - 1);
    }
  }

  ghost predicate HasChildIn(g: Graph, up: set<string>, r: string) {
    exists child :: child in up && Edge(g, child, r)
  }

  lemma PrependPath(g: Graph, child: string, p: seq<string>)
    requires |p| > 0 && Path(g, p) && Edge(g, child, p[0])
    ensures Path(g, [child] + p)
  {
    var q := [child] + p;
    forall i | 0 <= i < |q| - 1 ensures Edge(g, q[i], q[i + 1]) {
      if i > 0 { assert Edge(g, p[i - 1], p[i - 1 + 1]); }
    }
  }

  lemma PathPrefix(g: Graph, p: seq<string>, n: nat)
    requires Path(g, p) && n <= |p|
    ensures Path(g, p[..n])
  {
    var q := p[..n];
    forall i | 0 <= i < |q| - 1 ensures Edge(g, q[i], q[i + 1]) { assert Edge(g, p[i], p[i + 1]); }
  }

  predicate Distinct(p: seq<string>) { p == [] || (p[0] !in p[1..] && Distinct(p[1..])) }

  lemma {:induction false} DistinctFits(p: seq<string>, up: set<string>)
    requires Distinct(p) && forall r :: r in p ==> r in up
    ensures |p| <= |up|
  {
    if p != [] {
      assert forall r :: r in p[1..] ==> r in p;
      DistinctFits(p[1..], up - {p[0]});
    }
  }

  lemma CloseCycle(g: Graph, up: set<string>, q: seq<string>, k: nat)
    requires Path(g, q) && forall r :: r in q ==> r in up
    requires 1 <= k < |q| && q[k] == q[0]
    ensures Cycle(g, q[..k + 1]) && forall r :: r in q[..k + 1] ==> r in up
  {
    PathPrefix(g, q, k + 1);
    assert forall r :: r in q[..k + 1] ==> r in q;
  }

  lemma StepUp(g: Graph, up: set<string>, p: seq<string>) returns (q: seq<string>)
    requires |p| > 0 && Path(g, p) && (forall r :: r in p ==> r in up) && HasChildIn(g, up, p[0])
    ensures |q| == |p| + 1 && q[1..] == p && Path(g, q) && forall r :: r in q ==> r in up
  {
    var child :| child in up && Edge(g, child, p[0]);
    q := [child] + p;
    PrependPath(g, child, p);
  }

  /** Where every member of a finite set is the parent of another member, a cycle exists. */
  lemma {:induction false} AscentCloses(g: Graph, up: set<string>, p: seq<string>) returns (c: seq<string>)
    requires |p| > 0 && Path(g, p) && Distinct(p) && forall r :: r in p ==> r in up
    requires forall r :: r in up ==> HasChildIn(g, up, r)
    ensures Cycle(g, c) && forall r :: r in c ==> r in up
    decreases |up| - |p|
  {
    assert p[0] in p;
    var q := StepUp(g, up, p);
    if q[0] in p {
      var k :| 0 <= k < |p| && p[k] == q[0];
      assert q[k + 1] == q[1..][k] == q[0];
      CloseCycle(g, up, q, k + 1);
      c := q[..k + 2];
    } else {
      DistinctFits(q, up);
      c := AscentCloses(g, up, q);
    }
  }

  /** What the head reaches stays inside any set that holds the head and is closed under parents. */
  lemma {:induction false} ReachStaysInside(g: Graph, inside: set<string>, p: seq<string>, k: nat)
    requires |p| > 0 && k < |p| && p[0] in inside && Path(g, p)
    requires forall r, q :: r in inside && Edge(g, r, q) ==> q in inside
    ensures p[k] in inside
  {
    if k > 0 {
      ReachStaysInside(g, inside, p, k - 1);
      assert Edge(g, p[k - 1], p[k - 1 + 1]);
    }
  }

  lemma NotReached(g: Graph, head: string, inside: set<string>, r: string)
    requires head in inside && r !in inside && forall x, q :: x in inside && Edge(g, x, q) ==> q in inside
    ensures !Reaches(g, head, r)
  {
    if Reaches(g, head, r) {
      var p :| |p| > 0 && p[0] == head && p[|p| - 1] == r && Path(g, p);
      ReachStaysInside(g, inside, p, |p| - 1);
    }
  }

  /** A cycle none of whose revisions the head reaches. */
  ghost predicate DetachedCycle(g: Graph, head: string, c: seq<string>) {
    Cycle(g, c) && forall i :: 0 <= i < |c| ==> c[i] in g && !Reaches(g, head, c[i])
  }

  /** Whatever the walk from the only head leaves unvisited holds a detached cycle. */
  lemma UnvisitedHoldsCycle(g: Graph, head: string, visited: set<string>) returns (c: seq<string>)
    requires UniqueHead(g, head) && head in visited
    requires forall r, p :: r in visited && Edge(g, r, p) ==> p in visited
    requires visited < g.Keys
    ensures DetachedCycle(g, head, c)
  {
    var up := g.Keys - visited;
    forall r | r in up ensures HasChildIn(g, up, r) {
      assert !IsHead(g, r);
      var child :| Edge(g, child, r);
      assert child in up;
    }
    var start :| start in g.Keys && start !in visited;
    c := AscentCloses(g, up, [start]);
    forall i | 0 <= i < |c| ensures c[i] in g && !Reaches(g, head, c[i]) {
      NotReached(g, head, visited, c[i]);
    }
  }

  lemma OrderedSnoc(g: Graph, order: seq<string>, r: string)
    requires Ordered(g, order) && r in g && r !in order && forall p :: p in g[r] ==> p in order
    ensures Ordered(g, order + [r])
  {
    var longer := order + [r];
    forall i | 0 <= i < |longer|
      ensures longer[i] in g && forall p :: p in g[longer[i]] ==> p in longer[..i]
    {
      if i < |order| { assert longer[i] == order[i] && longer[..i] == order[..i]; }
      else { assert longer[..i] == order; }
    }
  }

  // ------------------------------------------------------------------ the walk

  /** The depth-first search and the two sets it mutates. */
  class Walker {
    const graph: Graph
    var visiting: set<string>
    var visited: set<string>
    ghost var order: seq<string>

    constructor (g: Graph)
      ensures graph == g && visiting == {} && visited == {} && order == [] && Valid()
    {
      graph, visiting, visited, order := g, {}, {}, [];
    }

    /** The visited revisions stand in an order that puts parents first. */
    ghost predicate Valid()
      reads this
    {
      && visiting <= graph.Keys
      && Ordered(graph, order)
      && (forall r :: r in visited <==> r in order)
    }

    /** walk: visits everything above `revision`, or stops at a cycle; `stack` is the chain of open calls. */
    method Walk(revision: string, ghost stack: seq<string>) returns (ok: bool, ghost cycle: seq<string>)
      requires Valid() && Closed(graph) && revision in graph
      requires Path(graph, stack + [revision]) && (forall r :: r in visiting <==> r in stack)
      requires visiting !! visited
      modifies this
      ensures ok ==> Valid() && visiting == old(visiting) && visiting !! visited
      ensures ok ==> old(visited) <= visited && revision in visited
      ensures ok ==> forall r :: r in visited ==> r in old(visited) || Reaches(graph, revision, r)
      ensures !ok ==> Cycle(graph, cycle) && Reaches(graph, (stack + [revision])[0], cycle[0])
      decreases graph.Keys - visiting
    {
      cycle := [];
      if revision in visiting {
        ghost var k :| 0 <= k < |stack| && stack[k] == revision;
        ghost var all := stack + [revision];
        cycle := all[k..];
        assert Path(graph, cycle) by {
          forall i | 0 <= i < |cycle| - 1 ensures Edge(graph, cycle[i], cycle[i + 1]) {
            assert Edge(graph, all[k + i], all[k + i + 1]);
          }
        }
        assert Reaches(graph, all[0], cycle[0]) by { ReachAlong(graph, all, k); }
        return false, cycle;
      }
      if revision in visited {
        return true, cycle;
      }
      visiting := visiting + {revision};
      ghost var inner := stack + [revision];
      assert forall r :: r in visiting <==> r in inner;
      var parents := graph[revision];
      var n := 0;
      while n < |parents|
        invariant n <= |parents| && Valid() && visiting == old(visiting) + {revision} && visiting !! visited
        invariant old(visited) <= visited
        invariant forall i :: 0 <= i < n ==> parents[i] in visited
        invariant forall r :: r in visited ==> r in old(visited) || Reaches(graph, revision, r)
        decreases |parents| - n
      {
        var parent := parents[n];
        assert Edge(graph, revision, parent);
        ExtendPath(graph, inner, parent);
        ghost var sofar := visited;
        ok, cycle := Walk(parent, inner);
        if !ok {
          assert (inner + [parent])[0] == (stack + [revision])[0];
          return false, cycle;
        }
        forall r | r in visited && r !in sofar ensures Reaches(graph, revision, r) {
          ReachThrough(graph, revision, parent, r);
        }
        n := n + 1;
      }
      visiting := visiting - {revision};
      visited := visited + {revision};
      OrderedSnoc(graph, order, revision);
      order := order + [revision];
      assert Reaches(graph, revision, revision) by { assert Path(graph, [revision]) && [revision][0] == revision; }
      return true, cycle;
    }
  }

  lemma ReachAlong(g: Graph, p: seq<string>, k: nat)
    requires Path(g, p) && k < |p|
    ensures Reaches(g, p[0], p[k])
  {
    PathPrefix(g, p, k + 1);
    assert p[..k + 1][0] == p[0] && p[..k + 1][|p[..k + 1]| - 1] == p[k];
  }

  lemma ExtendPath(g: Graph, p: seq<string>, next: string)
    requires |p| > 0 && Path(g, p) && Edge(g, p[|p| - 1], next)
    ensures Path(g, p + [next])
  {
    var q := p + [next];
    forall i | 0 <= i < |q| - 1 ensures Edge(g, q[i], q[i + 1]) {
      if i < |p| - 1 { assert Edge(g, p[i], p[i + 1]); }
    }
  }

  lemma ReachThrough(g: Graph, from: string, via: string, to: string)
    requires Edge(g, from, via) && Reaches(g, via, to)
    ensures Reaches(g, from, to)
  {
    var p :| |p| > 0 && p[0] == via && p[|p| - 1] == to && Path(g, p);
    PrependPath(g, from, p);
    assert ([from] + p)[0] == from;
  }

  // ------------------------------------------------------------------ the whole check

  datatype Verdict =
    | Accepted
    | ChainMissing
    | Unreadable          // a duplicate or invalid revision, or an invalid parent
    | NotTheOnlyHead
    | CycleFound
    | Disconnected

  lemma RepeatedIsUnreadable(files: seq<Migration>, n: nat)
    requires n < |files| && Readable(files[..n]) && files[n].revision in GraphOf(files[..n])
    ensures !Readable(files)
  {
    GraphKeys(files[..n]);
    var i :| 0 <= i < n && files[..n][i].revision == files[n].revision;
    assert files[i].revision == files[n].revision;
  }

  /** The reading loop: it stops at the first malformed or repeated migration. */
  method ReadGraph(files: seq<Migration>) returns (ok: bool, g: Graph)
    ensures ok <==> Readable(files)
    ensures ok ==> g == GraphOf(files)
  {
    ok, g := true, map[];
    for n := 0 to |files|
      invariant Readable(files[..n]) && g == GraphOf(files[..n])
    {
      GraphKeys(files[..n]);
      var m := files[n];
      if !WellFormed(m) {
        return false, g;
      }
      if m.revision in g {
        RepeatedIsUnreadable(files, n);
        return false, g;
      }
      assert files[..n + 1][..n] == files[..n];
      g := g[m.revision := ParentsOf(m.parent)];
    }
    assert files[..|files|] == files;
  }

  /** The head reaches some cycle. */
  ghost predicate ReachesCycle(g: Graph, head: string) {
    exists c :: Cycle(g, c) && Reaches(g, head, c[0])
  }

  /** A cycle that leaves the visited revisions cannot start there, and a walk that ended saw all of it. */
  lemma NoVisitedCycle(g: Graph, head: string, order: seq<string>)
    requires Ordered(g, order) && head in order
    ensures !ReachesCycle(g, head)
  {
    forall c | Cycle(g, c) && Reaches(g, head, c[0]) ensures false {
      OrderedIsClosed(g, order);
      var inside := set r | r in order;
      if c[0] !in inside { NotReached(g, head, inside, c[0]); }
      var i :| 0 <= i < |order| && order[i] == c[0];
      var j := PathDescends(g, order, c, i, |c| - 1);
    }
  }

  lemma OrderedIsClosed(g: Graph, order: seq<string>)
    requires Ordered(g, order)
    ensures forall x, q :: x in order && Edge(g, x, q) ==> q in order
  {
    forall x, q | x in order && Edge(g, x, q) ensures q in order {
      var i :| 0 <= i < |order| && order[i] == x;
      assert q in order[..i];
    }
  }

  /** verify_migrations: accepts exactly the readable chains whose parents are all defined, whose graph
      has no cycle and whose only head is the expected revision. A cycle is found exactly when the head
      reaches one; the last test is left with cycles that it does not reach. */
  method Verify(files: seq<Migration>, expected: string) returns (v: Verdict)
    ensures v.Accepted? <==>
      files != [] && Readable(files)
      && (var g := GraphOf(files); Closed(g) && UniqueHead(g, expected) && Acyclic(g))
    ensures v.ChainMissing? <==> files == []
    ensures v.Unreadable? <==> files != [] && !Readable(files)
    ensures v.NotTheOnlyHead? <==>
      files != [] && Readable(files)
      && (var g := GraphOf(files); !(Closed(g) && UniqueHead(g, expected)))
    ensures v.CycleFound? <==>
      files != [] && Readable(files)
      && (var g := GraphOf(files); Closed(g) && UniqueHead(g, expected) && ReachesCycle(g, expected))
    ensures v.Disconnected? <==>
      files != [] && Readable(files)
      && (var g := GraphOf(files);
          Closed(g) && UniqueHead(g, expected) && !Acyclic(g) && !ReachesCycle(g, expected))
    ensures v.Disconnected? ==> exists c :: DetachedCycle(GraphOf(files), expected, c)
  {
    if files == [] {
      return ChainMissing;
    }
    var readable, g := ReadGraph(files);
    if !readable {
      return Unreadable;
    }
    var parents := set r, p | r in g && p in g[r] :: p;
    ParentsAreEdges(g, parents);
    if !(parents <= g.Keys && g.Keys - parents == {expected}) {
      if Closed(g) && UniqueHead(g, expected) {
        NonParentsAreHeads(g, parents, expected);
      }
      return NotTheOnlyHead;
    }
    HeadsAreNonParents(g, parents, expected);
    var walker := new Walker(g);
    assert Path(g, [] + [expected]);
    var ok; ghost var cycle;
    ok, cycle := walker.Walk(expected, []);
    if !ok {
      assert ([] + [expected])[0] == expected && ReachesCycle(g, expected);
      return CycleFound;
    }
    NoVisitedCycle(g, expected, walker.order);
    if walker.visited != g.Keys {
      var c := UnvisitedHoldsCycle(g, expected, walker.visited);
      return Disconnected;
    }
    OrderedIsAcyclic(g, walker.order);
    return Accepted;
  }

  ghost predicate HasChild(g: Graph, p: string) {
    exists c :: Edge(g, c, p)
  }

  lemma ParentsAreEdges(g: Graph, parents: set<string>)
    requires parents == set r, p | r in g && p in g[r] :: p
    ensures forall p :: p in parents <==> HasChild(g, p)
  {
    forall p ensures p in parents <==> HasChild(g, p) {
      if p in parents {
        var r :| r in g && p in g[r];
        assert Edge(g, r, p);
      }
      if HasChild(g, p) {
        var c :| Edge(g, c, p);
        assert c in g && p in g[c];
      }
    }
  }

  lemma NonParentsAreHeads(g: Graph, parents: set<string>, head: string)
    requires forall p :: p in parents <==> HasChild(g, p)
    requires Closed(g) && UniqueHead(g, head)
    ensures parents <= g.Keys && g.Keys - parents == {head}
  {
    forall r ensures r in g.Keys - parents <==> r in {head} {
      assert IsHead(g, r) <==> r == head;
    }
  }

  lemma HeadsAreNonParents(g: Graph, parents: set<string>, head: string)
    requires forall p :: p in parents <==> HasChild(g, p)
    requires parents <= g.Keys && g.Keys - parents == {head}
    ensures Closed(g) && UniqueHead(g, head) && head in g
  {
    forall r ensures IsHead(g, r) <==> r == head {
      assert r in g.Keys - parents <==> r in {head};
    }
  }

  /** In an acyclic graph the only head reaches every revision. */
  lemma HeadReachesAll(g: Graph, head: string, r: string)
    requires Closed(g) && UniqueHead(g, head) && Acyclic(g) && r in g
    ensures Reaches(g, head, r)
  {
    var reached := set x | x in g && Reaches(g, head, x);
    assert head in reached by { assert IsHead(g, head) && Path(g, [head]) && [head][0] == head; }
    forall x, p | x in reached && Edge(g, x, p) ensures p in reached {
      var q :| |q| > 0 && q[0] == head && q[|q| - 1] == x && Path(g, q);
      ExtendPath(g, q, p);
      assert (q + [p])[0] == head;
    }
    if r !in reached {
      var c := UnvisitedHoldsCycle(g, head, reached);
    }
  }

  /** A linear chain: the first file has no parent, every later one names the one before it, and no revision
      is empty or repeated. */
  ghost predicate Chain(files: seq<Migration>) {
    && files != []
    && var front, last := files[..|files| - 1], files[|files| - 1];
    && last.revision != "" && last.revision !in Revisions(front)
    && if front == [] then last.parent.NoParent?
       else Chain(front) && last.parent == One(front[|front| - 1].revision)
  }

  function Revisions(files: seq<Migration>): (r: seq<string>) {
    if files == [] then [] else Revisions(files[..|files| - 1]) + [files[|files| - 1].revision]
  }

  lemma {:induction false} RevisionsAre(files: seq<Migration>)
    ensures |Revisions(files)| == |files| && forall i :: 0 <= i < |files| ==> Revisions(files)[i] == files[i].revision
  {
    if files != [] { RevisionsAre(files[..|files| - 1]); }
  }

  /** The graph of a chain: each revision's only parent is the one before it. */
  ghost predicate ChainGraph(files: seq<Migration>)
    requires files != []
  {
    && Readable(files)
    && var g := GraphOf(files);
    && Closed(g) && UniqueHead(g, files[|files| - 1].revision)
    && Ordered(g, Revisions(files)) && forall r :: r in g ==> r in Revisions(files)
  }

  lemma ReadableSnoc(front: seq<Migration>, last: Migration)
    requires Readable(front) && WellFormed(last) && last.revision !in Revisions(front)
    ensures Readable(front + [last])
  {
    RevisionsAre(front);
    var files := front + [last];
    forall i | 0 <= i < |front| ensures files[i].revision != last.revision {
      assert Revisions(front)[i] == front[i].revision;
    }
  }

  /** One more migration on top of the only head. */
  lemma NextHead(g: Graph, head: string, r: string, order: seq<string>)
    requires Closed(g) && UniqueHead(g, head) && Ordered(g, order) && r !in g
    requires forall x :: x in g ==> x in order
    ensures var h := g[r := [head]];
      && Closed(h) && UniqueHead(h, r) && Ordered(h, order + [r]) && forall x :: x in h ==> x in order + [r]
  {
    var h := g[r := [head]];
    assert IsHead(g, head);
    forall c, p ensures Edge(h, c, p) <==> Edge(g, c, p) || (c == r && p == head) {}
    forall x ensures IsHead(h, x) <==> x == r { NextHeadAt(g, head, r, x); }
    assert Ordered(h, order);
    OrderedSnoc(h, order, r);
  }

  lemma NextHeadAt(g: Graph, head: string, r: string, x: string)
    requires Closed(g) && UniqueHead(g, head) && r !in g
    ensures IsHead(g[r := [head]], x) <==> x == r
  {
    var h := g[r := [head]];
    assert Edge(h, r, head) && IsHead(g, head);
    forall c ensures !Edge(h, c, r) {
      assert c != r ==> Edge(h, c, r) == Edge(g, c, r);
    }
    if x in g && !IsHead(g, x) {
      var c :| Edge(g, c, x);
      assert Edge(h, c, x);
    }
  }

  lemma {:induction false} ChainGraphs(files: seq<Migration>)
    requires Chain(files)
    ensures ChainGraph(files)
  {
    var front, last := files[..|files| - 1], files[|files| - 1];
    assert files == front + [last];
    if front == [] {
      assert GraphOf(files) == map[last.revision := []];
      assert Revisions(files) == [last.revision];
    } else {
      ChainGraphs(front);
      var head := front[|front| - 1].revision;
      assert head != "" && WellFormed(last);
      ReadableSnoc(front, last);
      NextHead(GraphOf(front), head, last.revision, Revisions(front));
    }
  }

  /** A linear chain with distinct, non-empty names passes every test of the check, at its last revision. */
  lemma ChainIsSound(files: seq<Migration>)
    requires Chain(files)
    ensures files != [] && Readable(files)
    ensures var g := GraphOf(files); Closed(g) && UniqueHead(g, files[|files| - 1].revision) && Acyclic(g)
  {
    ChainGraphs(files);
    OrderedIsAcyclic(GraphOf(files), Revisions(files));
  }

  /** What is readable: non-empty revisions, none declared twice, and a parent that is none, one or several
      non-empty names. */
  lemma ReadableMeans(files: seq<Migration>)
    ensures Readable(files) <==>
      && (forall i, j :: 0 <= i < j < |files| ==> files[i].revision != files[j].revision)
      && (forall i :: 0 <= i < |files| ==>
            files[i].revision != "" && !files[i].parent.Malformed? && !Names(files[i], ""))
  {
    forall i | 0 <= i < |files|
      ensures WellFormed(files[i]) <==>
        files[i].revision != "" && !files[i].parent.Malformed? && !Names(files[i], "")
    {
    }
  }
}
