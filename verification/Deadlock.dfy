/**
  The deadlock detector: a wait-for graph kept as adjacency lists of sources, and a
  depth-first search started from every edge of every vertex.
 */
module Deadlock {
  const MAX: nat := 100

  // A vertex label: the identifier and whether it is a process or a resource.
  datatype Source = Source(id: nat, isProcess: bool)

  // ---------- graphs by vertex number ----------

  type Graph = seq<seq<nat>>

  predicate WellFormed(g: Graph) {
    forall u, j :: 0 <= u < |g| && 0 <= j < |g[u]| ==> g[u][j] < |g|
  }

  // Edge j of vertex u exists and leads to v.
  predicate Edge(g: Graph, u: int, j: int, v: int) {
    0 <= u < |g| && 0 <= j < |g[u]| && g[u][j] == v
  }

  // A walk along edges.
  ghost predicate Walk(g: Graph, p: seq<nat>) {
    && |p| > 0
    && (forall i :: 0 <= i < |p| ==> p[i] < |g|)
    && (forall i :: 0 <= i < |p| - 1 ==> p[i + 1] in g[p[i]])
  }

  ghost predicate WalkTo(g: Graph, p: seq<nat>, u: nat, v: nat) {
    Walk(g, p) && p[0] == u && p[|p| - 1] == v
  }

  ghost predicate Reach(g: Graph, u: nat, v: nat) {
    exists p :: WalkTo(g, p, u, v)
  }

  // A walk of at least one edge back to where it began.
  ghost predicate Cyclic(g: Graph) {
    exists p, u :: |p| > 1 && WalkTo(g, p, u, u)
  }

  // Two different edges reachable from c lead to the same vertex.
  ghost predicate Meet(g: Graph, c: nat, u1: int, j1: int, u2: int, j2: int, v: int) {
    && (u1, j1) != (u2, j2)
    && Edge(g, u1, j1, v) && Edge(g, u2, j2, v)
    && Reach(g, c, u1) && Reach(g, c, u2)
  }

  // Entered at c while r is marked, the search finds a marked vertex: r is reachable, or
  // an edge returns to c, or two edges meet.
  ghost predicate Trips(g: Graph, r: nat, c: nat) {
    || Reach(g, c, r)
    || (exists u, j :: Edge(g, u, j, c) && Reach(g, c, u))
    || (exists u1, j1, u2, j2, v :: Meet(g, c, u1, j1, u2, j2, v))
  }

  ghost predicate Flagged(g: Graph) {
    exists r, j, c :: Edge(g, r, j, c) && Trips(g, r, c)
  }

  // Some edge leads to a vertex from which two edges meet.
  ghost predicate Reconverges(g: Graph) {
    exists r, j, c, u1, j1, u2, j2, v :: Edge(g, r, j, c) && Meet(g, c, u1, j1, u2, j2, v)
  }

  lemma ReachSelf(g: Graph, u: nat)
    requires u < |g|
    ensures Reach(g, u, u)
  {
    assert WalkTo(g, [u], u, u);
  }

  lemma ReachEdge(g: Graph, c: nat, u: nat, j: nat, v: nat)
    requires WellFormed(g) && Reach(g, c, u) && Edge(g, u, j, v)
    ensures Reach(g, c, v)
  {
    var p :| WalkTo(g, p, c, u);
    assert WalkTo(g, p + [v], c, v);
  }

  // ---------- what the search computes ----------

  // The marks and the flag after DFS(v) started with the marks `seen`.
  function Dfs(g: Graph, v: nat, seen: set<nat>): (r: (set<nat>, bool))
    requires WellFormed(g) && v < |g| && forall u :: u in seen ==> u < |g|
    ensures seen <= r.0 && v in r.0 && forall u :: u in r.0 ==> u < |g|
    decreases Unseen(g, seen), 0, 0
  {
    if v in seen then (seen, true)
    else
      UnseenShrinks(g, seen, seen + {v});
      Children(g, v, 0, seen + {v})
  }

  function Children(g: Graph, v: nat, j: nat, seen: set<nat>): (r: (set<nat>, bool))
    requires WellFormed(g) && v < |g| && j <= |g[v]| && forall u :: u in seen ==> u < |g|
    ensures seen <= r.0 && forall u :: u in r.0 ==> u < |g|
    decreases Unseen(g, seen), 1, |g[v]| - j
  {
    if j == |g[v]| then (seen, false)
    else
      var first := Dfs(g, g[v][j], seen);
      UnseenShrinks(g, seen, first.0);
      var rest := Children(g, v, j + 1, first.0);
      (rest.0, first.1 || rest.1)
  }

  lemma ChildrenStep(g: Graph, v: nat, j: nat, seen: set<nat>)
    requires WellFormed(g) && v < |g| && j < |g[v]| && forall u :: u in seen ==> u < |g|
    ensures var first := Dfs(g, g[v][j], seen);
            var rest := Children(g, v, j + 1, first.0);
            Children(g, v, j, seen) == (rest.0, first.1 || rest.1)
  {
  }

  function Vertices(n: nat): (r: set<nat>)
    ensures |r| == n && forall u: nat :: u in r <==> u < n
  {
    if n == 0 then {} else Vertices(n - 1) + {n - 1}
  }

  function Unseen(g: Graph, seen: set<nat>): nat {
    |Vertices(|g|) - seen|
  }

  lemma UnseenShrinks(g: Graph, a: set<nat>, b: set<nat>)
    requires a <= b
    ensures Unseen(g, b) <= Unseen(g, a)
    ensures forall v :: v in b - a && v < |g| ==> Unseen(g, b) < Unseen(g, a)
  {
    SubsetSize(Vertices(|g|) - b, Vertices(|g|) - a);
    forall v | v in b - a && v < |g|
      ensures Unseen(g, b) < Unseen(g, a)
    {
      SubsetSize(Vertices(|g|) - b, Vertices(|g|) - a - {v});
    }
  }

  lemma {:induction false} SubsetSize(a: set<nat>, b: set<nat>)
    requires a <= b
    ensures |a| <= |b|
  {
    if a != {} {
      var x :| x in a;
      SubsetSize(a - {x}, b - {x});
    }
  }

  // ---------- a quiet search proves a tree ----------

  // The edges of the vertices in `tree`, and those of v from index j on.
  predicate From(v: nat, j: nat, tree: set<nat>, u: int, i: int) {
    (u == v && i >= j) || u in tree
  }

  // These edges stay inside `tree` and no two of them meet.
  ghost predicate Branches(g: Graph, v: nat, j: nat, tree: set<nat>) {
    && (forall u, i, w :: From(v, j, tree, u, i) && Edge(g, u, i, w) ==> w in tree)
    && (forall u1, i1, u2, i2, w ::
          From(v, j, tree, u1, i1) && From(v, j, tree, u2, i2) && Edge(g, u1, i1, w) && Edge(g, u2, i2, w)
          ==> u1 == u2 && i1 == i2)
  }

  lemma {:induction false} QuietChildren(g: Graph, v: nat, j: nat, seen: set<nat>)
    requires WellFormed(g) && v < |g| && j <= |g[v]| && forall u :: u in seen ==> u < |g|
    requires v in seen && !Children(g, v, j, seen).1
    ensures Branches(g, v, j, Children(g, v, j, seen).0 - seen)
    decreases Unseen(g, seen), 1, |g[v]| - j
  {
    if j < |g[v]| {
      var c := g[v][j];
      var first := Dfs(g, c, seen);
      UnseenShrinks(g, seen, first.0);
      var r := Children(g, v, j, seen).0;
      QuietDfs(g, c, seen);
      QuietChildren(g, v, j + 1, first.0);
      JoinBranches(g, v, j, c, seen, first.0, r);
    }
  }

  // The child's tree and the trees of the later children make one.
  lemma JoinBranches(g: Graph, v: nat, j: nat, c: nat, seen: set<nat>, mid: set<nat>, end: set<nat>)
    requires seen <= mid <= end && v in seen && c in mid && c !in seen
    requires Edge(g, v, j, c) && Branches(g, c, 0, mid - seen - {c}) && Branches(g, v, j + 1, end - mid)
    ensures Branches(g, v, j, end - seen)
  {
    var t1, t2 := mid - seen - {c}, end - mid;
    forall u, i, w | From(v, j, end - seen, u, i) && Edge(g, u, i, w)
      ensures (u == v && i == j) || From(c, 0, t1, u, i) || From(v, j + 1, t2, u, i)
    {
    }
  }

  lemma {:induction false} QuietDfs(g: Graph, v: nat, seen: set<nat>)
    requires WellFormed(g) && v < |g| && forall u :: u in seen ==> u < |g|
    requires !Dfs(g, v, seen).1
    ensures v !in seen && Branches(g, v, 0, Dfs(g, v, seen).0 - seen - {v})
    decreases Unseen(g, seen), 0, 0
  {
    UnseenShrinks(g, seen, seen + {v});
    QuietChildren(g, v, 0, seen + {v});
    assert Dfs(g, v, seen).0 - seen - {v} == Dfs(g, v, seen).0 - (seen + {v});
  }

  // Everything reachable from v lies in a set that contains v and is closed under edges.
  lemma {:induction false} ReachStays(g: Graph, v: nat, tree: set<nat>, p: seq<nat>, u: nat)
    requires WellFormed(g) && Branches(g, v, 0, tree) && WalkTo(g, p, v, u)
    ensures u == v || u in tree
    decreases |p|
  {
    if |p| > 1 {
      var n := |p| - 2;
      var q := p[..n + 1];
      assert WalkTo(g, q, v, p[n]);
      ReachStays(g, v, tree, q, p[n]);
      var i :| 0 <= i < |g[p[n]]| && g[p[n]][i] == p[n + 1];
      assert From(v, 0, tree, p[n], i) && Edge(g, p[n], i, u);
    }
  }

  lemma QuietMeansTree(g: Graph, r: nat, c: nat)
    requires WellFormed(g) && r < |g| && c < |g| && !Dfs(g, c, {r}).1
    ensures !Trips(g, r, c)
  {
    QuietDfs(g, c, {r});
    var tree := Dfs(g, c, {r}).0 - {r} - {c};
    forall u: nat | Reach(g, c, u)
      ensures u == c || u in tree
    {
      var p :| WalkTo(g, p, c, u);
      ReachStays(g, c, tree, p, u);
    }
    forall u, j, v | Edge(g, u, j, v) && Reach(g, c, u)
      ensures From(c, 0, tree, u, j)
    {
    }
  }

  // ---------- a loud search has a reason ----------

  // Every marked vertex other than r and c was entered over an edge already used.
  ghost predicate Entered(g: Graph, r: nat, c: nat, seen: set<nat>, used: set<(nat, nat)>) {
    && (forall e :: e in used ==> e.0 in seen)
    && (forall w :: w in seen && w != r && w != c ==>
          exists e :: e in used && Edge(g, e.0, e.1, w) && Reach(g, c, e.0))
  }

  // None of v's edges from the j-th on has been used.
  ghost predicate Unused(used: set<(nat, nat)>, v: nat, j: nat) {
    forall i :: i >= j ==> (v, i) !in used
  }

  // The edges newly used belong to newly marked vertices, or to v from its j-th edge on.
  ghost predicate Extends(
    seen: set<nat>, used: set<(nat, nat)>, seen': set<nat>, used': set<(nat, nat)>, v: nat, j: nat)
  {
    && used <= used'
    && forall e :: e in used' && e !in used ==> (e.0 == v && e.1 >= j) || (e.0 in seen' && e.0 !in seen)
  }

  // The same with the j-th edge of v as the only old one.
  ghost predicate Gains(
    seen: set<nat>, used: set<(nat, nat)>, seen': set<nat>, used': set<(nat, nat)>, v: nat, j: nat)
  {
    && used <= used'
    && forall e :: e in used' && e !in used ==> e == (v, j) || (e.0 in seen' && e.0 !in seen)
  }

  lemma EnteredUnused(
    g: Graph, r: nat, c: nat, seen: set<nat>, used: set<(nat, nat)>, u: nat, j: nat, v: nat)
    requires Entered(g, r, c, seen, used) && u in seen && v !in seen
    ensures Unused(used + {(u, j)}, v, 0)
  {
  }

  lemma ExtendsGains(
    seen: set<nat>, used: set<(nat, nat)>, seen': set<nat>, used': set<(nat, nat)>, u: nat, j: nat, v: nat)
    requires v !in seen && v in seen' && Extends(seen + {v}, used + {(u, j)}, seen', used', v, 0)
    ensures Gains(seen, used, seen', used', u, j)
  {
  }

  lemma GainsUnused(
    seen: set<nat>, used: set<(nat, nat)>, seen': set<nat>, used': set<(nat, nat)>, v: nat, j: nat)
    requires Gains(seen, used, seen', used', v, j) && v in seen && Unused(used, v, j)
    ensures Unused(used', v, j + 1)
  {
  }

  lemma GainsExtends(
    seen: set<nat>, used: set<(nat, nat)>, mid: set<nat>, usedMid: set<(nat, nat)>,
    seen': set<nat>, used': set<(nat, nat)>, v: nat, j: nat)
    requires Gains(seen, used, mid, usedMid, v, j) && Extends(mid, usedMid, seen', used', v, j + 1)
    requires seen <= mid <= seen'
    ensures Extends(seen, used, seen', used', v, j)
  {
  }

  // A vertex marked over a new edge has been entered over a used one.
  lemma EnteredMore(g: Graph, r: nat, c: nat, seen: set<nat>, used: set<(nat, nat)>, u: nat, j: nat, v: nat)
    requires Entered(g, r, c, seen, used) && u in seen && Edge(g, u, j, v) && Reach(g, c, u)
    ensures Entered(g, r, c, seen + {v}, used + {(u, j)})
  {
    var more := used + {(u, j)};
    forall w | w in seen + {v} && w != r && w != c
      ensures exists e :: e in more && Edge(g, e.0, e.1, w) && Reach(g, c, e.0)
    {
      if w == v {
        assert (u, j) in more;
      } else {
        var e :| e in used && Edge(g, e.0, e.1, w) && Reach(g, c, e.0);
        assert e in more;
      }
    }
  }

  // An edge that meets a marked vertex is a reason.
  lemma MeetTrips(
    g: Graph, r: nat, c: nat, seen: set<nat>, used: set<(nat, nat)>, u: nat, j: nat, v: nat)
    requires WellFormed(g) && Entered(g, r, c, seen, used) && (u, j) !in used && v in seen
    requires Edge(g, u, j, v) && Reach(g, c, u)
    ensures Trips(g, r, c)
  {
    ReachEdge(g, c, u, j, v);
    if v != r && v != c {
      var e :| e in used && Edge(g, e.0, e.1, v) && Reach(g, c, e.0);
      assert Meet(g, c, e.0, e.1, u, j, v);
    }
  }

  lemma {:induction false} LoudDfs(
    g: Graph, r: nat, c: nat, v: nat, seen: set<nat>, used: set<(nat, nat)>, u: nat, j: nat)
    returns (used': set<(nat, nat)>)
    requires WellFormed(g) && v < |g| && forall x :: x in seen ==> x < |g|
    requires Entered(g, r, c, seen, used) && u in seen && (u, j) !in used
    requires Edge(g, u, j, v) && Reach(g, c, u)
    ensures Entered(g, r, c, Dfs(g, v, seen).0, used')
    ensures Gains(seen, used, Dfs(g, v, seen).0, used', u, j)
    ensures Dfs(g, v, seen).1 ==> Trips(g, r, c)
    decreases Unseen(g, seen), 0, 0
  {
    used' := used + {(u, j)};
    EnteredMore(g, r, c, seen, used, u, j, v);
    if v in seen {
      MeetTrips(g, r, c, seen, used, u, j, v);
      assert seen + {v} == seen;
    } else {
      ReachEdge(g, c, u, j, v);
      UnseenShrinks(g, seen, seen + {v});
      EnteredUnused(g, r, c, seen, used, u, j, v);
      used' := LoudChildren(g, r, c, v, 0, seen + {v}, used');
      ExtendsGains(seen, used, Children(g, v, 0, seen + {v}).0, used', u, j, v);
    }
  }

  lemma {:induction false} LoudChildren(
    g: Graph, r: nat, c: nat, v: nat, j: nat, seen: set<nat>, used: set<(nat, nat)>)
    returns (used': set<(nat, nat)>)
    requires WellFormed(g) && v < |g| && j <= |g[v]| && forall x :: x in seen ==> x < |g|
    requires Entered(g, r, c, seen, used) && v in seen && Reach(g, c, v)
    requires Unused(used, v, j)
    ensures Entered(g, r, c, Children(g, v, j, seen).0, used')
    ensures Extends(seen, used, Children(g, v, j, seen).0, used', v, j)
    ensures Children(g, v, j, seen).1 ==> Trips(g, r, c)
    decreases Unseen(g, seen), 1, |g[v]| - j
  {
    used' := used;
    if j < |g[v]| {
      var first := Dfs(g, g[v][j], seen);
      UnseenShrinks(g, seen, first.0);
      var usedMid := LoudDfs(g, r, c, g[v][j], seen, used, v, j);
      GainsUnused(seen, used, first.0, usedMid, v, j);
      used' := LoudChildren(g, r, c, v, j + 1, first.0, usedMid);
      GainsExtends(seen, used, first.0, usedMid, Children(g, v, j + 1, first.0).0, used', v, j);
    }
  }

  lemma LoudMeansTrips(g: Graph, r: nat, c: nat)
    requires WellFormed(g) && r < |g| && c < |g| && Dfs(g, c, {r}).1
    ensures Trips(g, r, c)
  {
    ReachSelf(g, c);
    if c != r {
      UnseenShrinks(g, {r}, {r} + {c});
      var _ := LoudChildren(g, r, c, c, 0, {r} + {c}, {});
    }
  }

  // The search from an edge is loud exactly when the graph behind the edge is no tree.
  lemma DfsExact(g: Graph, r: nat, c: nat)
    requires WellFormed(g) && r < |g| && c < |g|
    ensures Dfs(g, c, {r}).1 <==> Trips(g, r, c)
  {
    if Dfs(g, c, {r}).1 {
      LoudMeansTrips(g, r, c);
    } else {
      QuietMeansTree(g, r, c);
    }
  }

  // Some search over the first j edges of v is loud.
  ghost predicate LoudBelow(g: Graph, v: nat, j: nat)
    requires WellFormed(g) && v < |g| && j <= |g[v]|
  {
    j > 0 && (LoudBelow(g, v, j - 1) || Dfs(g, g[v][j - 1], {v}).1)
  }

  // Some search from the first i vertices is loud.
  ghost predicate LoudFrom(g: Graph, i: nat)
    requires WellFormed(g) && i <= |g|
  {
    i > 0 && (LoudFrom(g, i - 1) || LoudBelow(g, i - 1, |g[i - 1]|))
  }

  lemma {:induction false} LoudBelowExact(g: Graph, v: nat, j: nat)
    requires WellFormed(g) && v < |g| && j <= |g[v]|
    ensures LoudBelow(g, v, j) <==> exists i, c :: 0 <= i < j && Edge(g, v, i, c) && Trips(g, v, c)
  {
    if j > 0 {
      LoudBelowExact(g, v, j - 1);
      DfsExact(g, v, g[v][j - 1]);
      assert Edge(g, v, j - 1, g[v][j - 1]);
    }
  }

  lemma {:induction false} LoudFromExact(g: Graph, i: nat)
    requires WellFormed(g) && i <= |g|
    ensures LoudFrom(g, i) <==> exists r, j, c :: 0 <= r < i && Edge(g, r, j, c) && Trips(g, r, c)
  {
    if i > 0 {
      LoudFromExact(g, i - 1);
      LoudBelowExact(g, i - 1, |g[i - 1]|);
    }
  }

  lemma {:induction false} LoudFromMore(g: Graph, i: nat)
    requires WellFormed(g) && i <= |g|
    ensures LoudFrom(g, i) ==> LoudFrom(g, |g|)
    decreases |g| - i
  {
    if i < |g| {
      LoudFromMore(g, i + 1);
    }
  }

  // All the searches together are loud exactly on the flagged graphs.
  lemma LoudIsFlagged(g: Graph)
    requires WellFormed(g)
    ensures LoudFrom(g, |g|) <==> Flagged(g)
  {
    LoudFromExact(g, |g|);
  }

  // Stopping at the first loud vertex, or after the last, decides the flag.
  lemma LoudFromFlags(g: Graph, i: nat)
    requires WellFormed(g) && i <= |g| && (i == |g| || LoudFrom(g, i))
    ensures LoudFrom(g, i) <==> Flagged(g)
  {
    LoudFromMore(g, i);
    LoudIsFlagged(g);
  }

  // ---------- what the flag means ----------

  lemma CycleIsFlagged(g: Graph)
    requires WellFormed(g) && Cyclic(g)
    ensures Flagged(g)
  {
    var p, u: nat :| |p| > 1 && WalkTo(g, p, u, u);
    var c := p[1];
    var j :| 0 <= j < |g[u]| && g[u][j] == c;
    assert WalkTo(g, p[1..], c, u);
    assert Edge(g, u, j, c) && Trips(g, u, c);
  }

  lemma BackEdgeIsCycle(g: Graph, u: nat, j: nat, c: nat)
    requires WellFormed(g) && Edge(g, u, j, c) && Reach(g, c, u)
    ensures Cyclic(g)
  {
    var p :| WalkTo(g, p, c, u);
    assert WalkTo(g, p + [c], c, c);
  }

  // The detector reports exactly the graphs with a cycle or with reconverging edges.
  lemma FlaggedExactly(g: Graph)
    requires WellFormed(g)
    ensures Flagged(g) <==> Cyclic(g) || Reconverges(g)
  {
    if Cyclic(g) {
      CycleIsFlagged(g);
    }
    if Reconverges(g) {
      var r, j, c, u1, j1, u2, j2, v :| Edge(g, r, j, c) && Meet(g, c, u1, j1, u2, j2, v);
      assert Trips(g, r, c);
    }
    if Flagged(g) {
      var r, j, c :| Edge(g, r, j, c) && Trips(g, r, c);
      if Reach(g, c, r) {
        BackEdgeIsCycle(g, r, j, c);
      } else if u, i :| Edge(g, u, i, c) && Reach(g, c, u) {
        BackEdgeIsCycle(g, u, i, c);
      }
    }
  }

  // With one outgoing edge each, two walks from the same vertex agree as far as both go.
  lemma {:induction false} WalksAgree(g: Graph, p: seq<nat>, q: seq<nat>, i: nat)
    requires Walk(g, p) && Walk(g, q) && p[0] == q[0] && i < |p| && i < |q|
    requires forall u :: 0 <= u < |g| ==> |g[u]| <= 1
    ensures p[i] == q[i]
  {
    if i > 0 {
      WalksAgree(g, p, q, i - 1);
    }
  }

  lemma MeetIsCycle(g: Graph, p1: seq<nat>, p2: seq<nat>, c: nat, u1: nat, u2: nat, v: nat)
    requires WellFormed(g) && forall u :: 0 <= u < |g| ==> |g[u]| <= 1
    requires WalkTo(g, p1, c, u1) && WalkTo(g, p2, c, u2) && |p1| <= |p2| && u1 != u2
    requires Edge(g, u1, 0, v) && Edge(g, u2, 0, v)
    ensures Cyclic(g)
  {
    var n := |p1|;
    WalksAgree(g, p1, p2, n - 1);
    assert p2[n] in g[u1] && p2[n] == v;
    assert WalkTo(g, p2[n..] + [v], v, v);
  }

  // Where every vertex waits for at most one other, the flag means a cycle and nothing
  // else.
  lemma SingleWaitFlagIsCycle(g: Graph)
    requires WellFormed(g) && forall u :: 0 <= u < |g| ==> |g[u]| <= 1
    ensures Flagged(g) <==> Cyclic(g)
  {
    FlaggedExactly(g);
    if Reconverges(g) {
      var r, j, c, u1, j1, u2, j2, v :| Edge(g, r, j, c) && Meet(g, c, u1, j1, u2, j2, v);
      var p1 :| WalkTo(g, p1, c, u1);
      var p2 :| WalkTo(g, p2, c, u2);
      if |p1| <= |p2| {
        MeetIsCycle(g, p1, p2, c, u1, u2, v);
      } else {
        MeetIsCycle(g, p2, p1, c, u2, u1, v);
      }
    }
  }

  // Four processes, no cycle, and still a report: two waits for the same process meet.
  const DIAMOND: Graph := [[1], [2, 3], [3], []]

  lemma {:induction false} DiamondWalksUp(p: seq<nat>)
    requires Walk(DIAMOND, p)
    ensures p[0] + |p| - 1 <= p[|p| - 1]
  {
    if |p| > 1 {
      assert Walk(DIAMOND, p[1..]);
      DiamondWalksUp(p[1..]);
      assert p[1] in DIAMOND[p[0]];
    }
  }

  lemma DiamondIsReported()
    ensures WellFormed(DIAMOND) && Flagged(DIAMOND) && !Cyclic(DIAMOND)
  {
    assert WellFormed(DIAMOND);
    assert WalkTo(DIAMOND, [1], 1, 1);
    assert WalkTo(DIAMOND, [1, 2], 1, 2);
    assert Edge(DIAMOND, 0, 0, 1) && Meet(DIAMOND, 1, 1, 1, 2, 0, 3);
    assert Trips(DIAMOND, 0, 1);
    forall p, u | WalkTo(DIAMOND, p, u, u)
      ensures |p| <= 1
    {
      DiamondWalksUp(p);
    }
  }

  // ---------- the detector ----------

  function IndexOf(q: seq<Source>, s: Source): (i: nat)
    requires s in q
    ensures i < |q| && q[i] == s
  {
    if q[0] == s then 0 else 1 + IndexOf(q[1..], s)
  }

  function WithVertex(q: seq<Source>, s: Source): seq<Source> {
    if s in q then q else q + [s]
  }

  // One adjacency list per vertex, of labels that are vertices.
  predicate Labelled(vertices: seq<Source>, edges: seq<seq<Source>>) {
    && |edges| == |vertices|
    && forall u, j :: 0 <= u < |edges| && 0 <= j < |edges[u]| ==> edges[u][j] in vertices
  }

  function Row(vertices: seq<Source>, row: seq<Source>): (r: seq<nat>)
    requires forall j :: 0 <= j < |row| ==> row[j] in vertices
    ensures |r| == |row| && forall j :: 0 <= j < |r| ==> r[j] < |vertices| && vertices[r[j]] == row[j]
  {
    if row == [] then [] else [IndexOf(vertices, row[0])] + Row(vertices, row[1..])
  }

  // The graph by vertex number.
  function ByNumber(vertices: seq<Source>, edges: seq<seq<Source>>): (g: Graph)
    requires Labelled(vertices, edges)
    ensures |g| == |vertices| && WellFormed(g)
    ensures forall u :: 0 <= u < |g| ==> |g[u]| == |edges[u]|
    ensures forall u, j :: 0 <= u < |g| && 0 <= j < |g[u]| ==> vertices[g[u][j]] == edges[u][j]
  {
    seq(|edges|, u requires 0 <= u < |edges| => Row(vertices, edges[u]))
  }

  // A sequence of vertices along edges of the graph.
  ghost predicate Trail(g: Graph, p: seq<int>) {
    && p != [] && (forall i :: 0 <= i < |p| ==> 0 <= p[i] < |g|)
    && forall i :: 0 < i < |p| ==> p[i] in g[p[i - 1]]
  }

  // The sequence ends at v.
  ghost predicate EndsAt(g: Graph, p: seq<int>, v: int) {
    Trail(g, p) && p[|p| - 1] == v
  }

  // It ends at a vertex with an edge to v.
  ghost predicate Leads(g: Graph, p: seq<int>, v: int) {
    Trail(g, p) && 0 <= v < |g| && v in g[p[|p| - 1]]
  }

  lemma TrailMore(g: Graph, p: seq<int>, v: int)
    requires Leads(g, p, v)
    ensures EndsAt(g, p + [v], v)
  {
  }

  lemma Shorter(longer: seq<int>, p: seq<int>, v: int)
    requires longer == p + [v]
    ensures longer[..|p|] == p
  {
  }

  lemma DfsGrows(g: Graph, c: nat, start: set<nat>)
    requires WellFormed(g) && c < |g| && forall x :: x in start ==> x < |g|
    ensures |start| <= |Dfs(g, c, start).0| && Unseen(g, Dfs(g, c, start).0) <= Unseen(g, start)
  {
    SubsetSize(start, Dfs(g, c, start).0);
    UnseenShrinks(g, start, Dfs(g, c, start).0);
  }

  // The marks and the flag when the search from v is over.
  function Found(g: Graph, v: nat, seen: set<nat>, flag: bool): (set<nat>, bool)
    requires WellFormed(g) && v < |g| && forall x :: x in seen ==> x < |g|
  {
    (Dfs(g, v, seen).0, flag || Dfs(g, v, seen).1)
  }

  lemma FoundBelow(g: Graph, v: nat, seen: set<nat>, flag: bool)
    requires WellFormed(g) && v < |g| && v !in seen && forall x :: x in seen ==> x < |g|
    ensures Found(g, v, seen, flag) == Rest(g, v, 0, seen + {v}, flag)
  {
  }

  // The marks and the flag when all edges of v from the j-th on have been followed.
  function Rest(g: Graph, v: nat, j: nat, seen: set<nat>, flag: bool): (set<nat>, bool)
    requires WellFormed(g) && v < |g| && j <= |g[v]| && forall x :: x in seen ==> x < |g|
  {
    (Children(g, v, j, seen).0, flag || Children(g, v, j, seen).1)
  }

  lemma RestStep(g: Graph, v: nat, j: nat, seen: set<nat>, flag: bool)
    requires WellFormed(g) && v < |g| && j < |g[v]| && forall x :: x in seen ==> x < |g|
    ensures var found := Found(g, g[v][j], seen, flag); Rest(g, v, j, seen, flag) == Rest(g, v, j + 1, found.0, found.1)
  {
    ChildrenStep(g, v, j, seen);
  }

  lemma RestNone(g: Graph, v: nat, seen: set<nat>, flag: bool)
    requires WellFormed(g) && v < |g| && forall x :: x in seen ==> x < |g|
    ensures Rest(g, v, |g[v]|, seen, flag) == (seen, flag)
  {
  }

  class Detector {
    var vertices: seq<Source>
    var edges: seq<seq<Source>>
    const visited: array<bool>
    const path: array<int>
    var k: nat
    var deadlock: bool
    // The paths printed so far.
    ghost var reports: seq<seq<int>>

    constructor ()
      ensures Valid() && vertices == [] && reports == []
    {
      vertices, edges, k, deadlock, reports := [], [], 0, false, [];
      visited := new bool[MAX];
      path := new int[MAX + 1];
    }

    ghost predicate Valid()
      reads this`vertices, this`edges
    {
      && visited.Length == MAX && path.Length == MAX + 1
      && |vertices| <= MAX
      && (forall i, j :: 0 <= i < j < |vertices| ==> vertices[i] != vertices[j])
      && Labelled(vertices, edges)
    }

    ghost function GraphOf(): Graph
      requires Valid()
      reads this`vertices, this`edges
    {
      ByNumber(vertices, edges)
    }

    // The vertices marked visited.
    ghost function Marks(): (m: set<nat>)
      requires Valid()
      reads this`vertices, this`edges, visited
    {
      set u: nat | u < |vertices| && visited[u]
    }

    method SearchVertex(s: Source) returns (r: int)
      requires Valid()
      ensures if s in vertices then 0 <= r < |vertices| && vertices[r] == s else r == -1
    {
      var i := 0;
      while i < |vertices|
        invariant 0 <= i <= |vertices| && s !in vertices[..i]
      {
        if vertices[i] == s {
          return i;
        }
        i := i + 1;
      }
      return -1;
    }

    method AddVertex(s: Source)
      requires Valid() && (s in vertices || |vertices| < MAX)
      modifies this`vertices, this`edges
      ensures Valid()
      ensures vertices == WithVertex(old(vertices), s)
      ensures edges == if s in old(vertices) then old(edges) else old(edges) + [[]]
    {
      var i := SearchVertex(s);
      if i == -1 {
        vertices := vertices + [s];
        edges := edges + [[]];
      }
    }

    // Appends `to` to the adjacency list of `from`, adding either label when it is new.
    method AddEdge(from: Source, to: Source)
      requires Valid() && |WithVertex(WithVertex(vertices, from), to)| <= MAX
      modifies this`vertices, this`edges
      ensures Valid()
      ensures vertices == WithVertex(WithVertex(old(vertices), from), to)
      ensures |edges| == |vertices|
      ensures forall u :: 0 <= u < |vertices| ==>
        edges[u] == (if u < |old(edges)| then old(edges)[u] else []) + (if vertices[u] == from then [to] else [])
    {
      AddVertex(from);
      AddVertex(to);
      var i := SearchVertex(from);
      edges := edges[i := edges[i] + [to]];
    }

    // The path so far.
    ghost predicate AtPath(trail: seq<int>)
      reads this, path
    {
      |trail| == k <= path.Length && path[..k] == trail
    }

    // Every path printed so far was one along edges.
    ghost predicate Reported()
      requires Valid()
      reads this
    {
      forall r :: r in reports ==> Trail(GraphOf(), r)
    }

    method Push(v: nat, ghost trail: seq<int>)
      requires AtPath(trail) && k < path.Length
      modifies this`k, path
      ensures AtPath(trail + [v])
    {
      path[k] := v;
      k := k + 1;
    }

    // Marks v and pushes it on the path.
    method Enter(v: nat, ghost trail: seq<int>)
      requires Valid() && v < |vertices| && !visited[v] && k <= |Marks()| && AtPath(trail)
      modifies this`k, visited, path
      ensures Marks() == old(Marks()) + {v}
      ensures k == old(k) + 1 && k <= |Marks()| && AtPath(trail + [v])
    {
      MarksBounded();
      ghost var start := Marks();
      visited[v] := true;
      assert Marks() == start + {v} && v !in start;
      Push(v, trail);
    }

    // A vertex met again: the path to it is printed.
    method Report(v: nat, ghost trail: seq<int>)
      requires Valid() && v < |vertices| && AtPath(trail) && k < path.Length && Leads(GraphOf(), trail, v) && Reported()
      modifies this`k, this`deadlock, this`reports, path
      ensures k == old(k) + 1 && deadlock && AtPath(trail + [v]) && Reported()
      ensures reports == old(reports) + [trail + [v]]
    {
      TrailMore(GraphOf(), trail, v);
      Push(v, trail);
      reports := reports + [path[..k]];
      deadlock := true;
    }

    // The marks and the flag.
    ghost function Outcome(): (set<nat>, bool)
      reads this, visited
      requires Valid()
    {
      (Marks(), deadlock)
    }

    // The recursive search.  `path` is written only at the recursion depth, which the
    // number of marks bounds.
    method DFS(v: nat, ghost trail: seq<int>)
      requires Valid() && v < |vertices| && k <= |Marks()|
      requires AtPath(trail) && Leads(GraphOf(), trail, v) && Reported()
      modifies this`k, this`deadlock, this`reports, visited, path
      ensures Outcome() == Found(GraphOf(), v, old(Marks()), old(deadlock))
      ensures k == old(k) + 1 && AtPath(trail + [v]) && Reported()
      decreases Unseen(GraphOf(), Marks()), 0, 0
    {
      MarksBounded();
      if visited[v] {
        Report(v, trail);
        return;
      }
      Enter(v, trail);
      TrailMore(GraphOf(), trail, v);
      UnseenShrinks(GraphOf(), old(Marks()), Marks());
      FoundBelow(GraphOf(), v, old(Marks()), deadlock);
      VisitChildren(v, trail + [v]);
    }

    // The loop of DFS over the adjacency list of v.
    method VisitChildren(v: nat, ghost trail: seq<int>)
      requires Valid() && v < |vertices| && k <= |Marks()|
      requires AtPath(trail) && EndsAt(GraphOf(), trail, v) && Reported()
      modifies this`k, this`deadlock, this`reports, visited, path
      ensures Outcome() == Rest(GraphOf(), v, 0, old(Marks()), old(deadlock))
      ensures AtPath(trail) && Reported()
      decreases Unseen(GraphOf(), Marks()), 1, 0
    {
      MarksBounded();
      ghost var bound, goal := Unseen(GraphOf(), Marks()), Rest(GraphOf(), v, 0, Marks(), deadlock);
      var j := 0;
      while j < |edges[v]|
        invariant 0 <= j <= |edges[v]|
        invariant k <= |Marks()| && AtPath(trail) && Reported()
        invariant Unseen(GraphOf(), Marks()) <= bound && Remains(v, j, goal)
      {
        VisitChild(v, j, trail, goal);
        j := j + 1;
      }
      RestNone(GraphOf(), v, Marks(), deadlock);
    }

    // What following the edges of v from the j-th on will come to.
    ghost predicate Remains(v: nat, j: nat, goal: (set<nat>, bool))
      requires Valid() && v < |vertices| && j <= |edges[v]|
      reads this, visited
    {
      MarksBounded();
      Rest(GraphOf(), v, j, Marks(), deadlock) == goal
    }

    // One turn of that loop.
    method VisitChild(v: nat, j: nat, ghost trail: seq<int>, ghost goal: (set<nat>, bool))
      requires Valid() && v < |vertices| && j < |edges[v]| && k <= |Marks()|
      requires AtPath(trail) && EndsAt(GraphOf(), trail, v) && Reported() && Remains(v, j, goal)
      modifies this`k, this`deadlock, this`reports, visited, path
      ensures k <= |Marks()| && AtPath(trail) && Reported() && Remains(v, j + 1, goal)
      ensures Unseen(GraphOf(), Marks()) <= old(Unseen(GraphOf(), Marks()))
      decreases Unseen(GraphOf(), Marks()), 0, 2
    {
      var c := SearchVertex(edges[v][j]);
      assert c == GraphOf()[v][j];
      MarksBounded();
      RestStep(GraphOf(), v, j, Marks(), deadlock);
      Descend(c, trail);
    }

    // Down the path and up again.
    method Descend(c: nat, ghost trail: seq<int>)
      requires Valid() && c < |vertices| && k <= |Marks()|
      requires AtPath(trail) && Leads(GraphOf(), trail, c) && Reported()
      modifies this`k, this`deadlock, this`reports, visited, path
      ensures Outcome() == Found(GraphOf(), c, old(Marks()), old(deadlock))
      ensures k == old(k) <= |Marks()| && AtPath(trail) && Reported()
      ensures Unseen(GraphOf(), Marks()) <= old(Unseen(GraphOf(), Marks()))
      decreases Unseen(GraphOf(), Marks()), 0, 1
    {
      MarksBounded();
      DfsGrows(GraphOf(), c, Marks());
      DFS(c, trail);
      k := k - 1;
      Shorter(path[..k + 1], trail, c);
      assert path[..k] == path[..k + 1][..k];
    }

    lemma MarksBounded()
      requires Valid()
      ensures |Marks()| <= |vertices| && forall u :: u in Marks() ==> u < |vertices|
    {
      SubsetSize(Marks(), Vertices(|vertices|));
    }

    method SearchForCycle(v: nat)
      requires Valid() && v < |vertices| && Reported()
      modifies this`k, this`deadlock, this`reports, visited, path
      ensures deadlock <==> old(deadlock) || LoudBelow(GraphOf(), v, |GraphOf()[v]|)
      ensures Reported()
    {
      ghost var g := GraphOf();
      visited[v] := true;
      path[0] := v;
      k := 1;
      var j := 0;
      while j < |edges[v]|
        invariant 0 <= j <= |edges[v]| && visited[v] && path[0] == v && Reported()
        invariant deadlock <==> old(deadlock) || LoudBelow(g, v, j)
      {
        ResetMarks(v);
        k := 1;
        var c := SearchVertex(edges[v][j]);
        assert c == g[v][j];
        assert path[..1] == [v];
        DFS(c, [v]);
        assert path[0] == path[..k][0];
        j := j + 1;
      }
    }

    // Clears every mark but v's and the path behind its first entry.
    method ResetMarks(v: nat)
      requires Valid() && v < |vertices| && visited[v]
      modifies visited, path
      ensures Marks() == {v} && path[0] == old(path[0]) && forall i :: 0 < i <= MAX ==> path[i] == -1
    {
      var i := 0;
      while i < |vertices|
        invariant 0 <= i <= |vertices| && visited[v] && path[..] == old(path[..])
        invariant forall u :: 0 <= u < i && u != v ==> !visited[u]
      {
        if i != v {
          visited[i] := false;
        }
        i := i + 1;
      }
      i := 1;
      while i <= MAX
        invariant 1 <= i <= MAX + 1 && path[0] == old(path[0]) && forall j :: 0 < j < i ==> path[j] == -1
        invariant visited[v] && forall u :: 0 <= u < |vertices| && u != v ==> !visited[u]
      {
        path[i] := -1;
        i := i + 1;
      }
    }

    // Main theorem: the flag is set exactly when some edge leads into a part of the graph
    // that is not a tree.
    method CheckDeadLock()
      requires Valid() && Reported()
      modifies this`k, this`deadlock, this`reports, visited, path
      ensures deadlock <==> Flagged(GraphOf())
      ensures Reported()
    {
      ghost var g := GraphOf();
      deadlock := false;
      var i := 0;
      while i < |vertices| && !deadlock
        invariant 0 <= i <= |vertices| && Reported()
        invariant deadlock <==> LoudFrom(g, i)
      {
        SearchForCycle(i);
        i := i + 1;
      }
      LoudFromFlags(g, i);
    }
  }
}
