/**
 The fallback configuration generator. The cache becomes a graph whose edges lead from a dependency
 to the objects that depend on it; everything reachable from a broken object is left out, and, if
 a last valid cache is kept, what was reachable there is put back in its last valid form.
 */
module FallbackGeneration {
  import opened Common
  import opened CacheSnapshots

  /** ObjectHash; the kind stands for group and kind. */
  datatype Hash = Hash(uid: string, kind: Kind, namespace: string, name: string)

  function HashOf(o: Object): Hash {
    Hash(o.uid, o.kind, o.namespace, o.name)
  }

  ghost function Objects(c: Contents): set<Object> {
    set k, x | k in c && x in c[k] :: c[k][x]
  }

  /** ResolveDependencies: the cached objects an object refers to. */
  type Resolver = (Contents, Object) -> set<Object>

  /** Dependencies are looked up in the cache, so they are objects of the cache. */
  ghost predicate Resolves(resolve: Resolver, c: Contents) {
    forall o :: o in Objects(c) ==> resolve(c, o) <= Objects(c)
  }

  /** A hash is the UID, kind, namespace and name: an object created anew under its name has another. */
  lemma HashMeans(o: Object, p: Object)
    ensures HashOf(o) == HashOf(p) <==>
              o.uid == p.uid && o.kind == p.kind && o.namespace == p.namespace && o.name == p.name
  {
  }

  lemma HashIdentifies(c: Contents, o: Object, p: Object)
    requires WellKeyed(c) && o in Objects(c) && p in Objects(c) && HashOf(o) == HashOf(p)
    ensures o == p
  {
    assert Key(o) == Key(p);
  }

  // ---------------------------------------------------------------- graphs

  datatype Graph = Graph(vertices: map<Hash, Object>, dependants: map<Hash, set<Hash>>) {
    ghost predicate Valid() {
      && vertices.Keys == dependants.Keys
      && (forall h :: h in vertices ==> HashOf(vertices[h]) == h && dependants[h] <= vertices.Keys)
    }
  }

  ghost predicate Path(g: Graph, p: seq<Hash>) {
    && |p| > 0 && (forall i :: 0 <= i < |p| ==> p[i] in g.dependants)
    && forall i :: 0 <= i < |p| - 1 ==> p[i + 1] in g.dependants[p[i]]
  }

  /** b depends on a, directly or through others. */
  ghost predicate Reachable(g: Graph, a: Hash, b: Hash) {
    exists p :: Path(g, p) && p[0] == a && p[|p| - 1] == b
  }

  lemma ReachSelf(g: Graph, a: Hash)
    requires a in g.dependants
    ensures Reachable(g, a, a)
  {
    assert Path(g, [a]);
  }

  lemma ReachNext(g: Graph, a: Hash, b: Hash, c: Hash)
    requires Reachable(g, a, b) && b in g.dependants && c in g.dependants[b] && c in g.dependants
    ensures Reachable(g, a, c)
  {
    var p :| Path(g, p) && p[0] == a && p[|p| - 1] == b;
    var q := p + [c];
    assert forall i :: 0 <= i < |q| - 1 ==> q[i + 1] in g.dependants[q[i]];
    assert Path(g, q) && q[0] == a && q[|q| - 1] == c;
  }

  lemma ReachAllNext(g: Graph, a: Hash, b: Hash)
    requires g.Valid() && Reachable(g, a, b) && b in g.dependants
    ensures forall d :: d in g.dependants[b] ==> Reachable(g, a, d)
  {
    forall d | d in g.dependants[b] ensures Reachable(g, a, d) {
      ReachNext(g, a, b, d);
    }
  }

  /** A set closed under dependants that holds the start holds the end of every path. */
  lemma {:induction false} ClosedHoldsPath(g: Graph, s: set<Hash>, p: seq<Hash>)
    requires Path(g, p) && p[0] in s
    requires forall h, d :: h in s && h in g.dependants && d in g.dependants[h] ==> d in s
    ensures p[|p| - 1] in s
    decreases |p|
  {
    if |p| > 1 {
      assert p[1] in s;
      assert Path(g, p[1..]);
      ClosedHoldsPath(g, s, p[1..]);
    }
  }

  lemma ClosedHoldsReachable(g: Graph, s: set<Hash>, a: Hash)
    requires a in s && forall h, d :: h in s && h in g.dependants && d in g.dependants[h] ==> d in s
    ensures forall b :: Reachable(g, a, b) ==> b in s
  {
    forall b | Reachable(g, a, b) ensures b in s {
      var p :| Path(g, p) && p[0] == a && p[|p| - 1] == b;
      ClosedHoldsPath(g, s, p);
    }
  }

  lemma ReachableIsVertex(g: Graph, a: Hash, b: Hash)
    requires Reachable(g, a, b)
    ensures a in g.dependants && b in g.dependants
  {
  }

  /** What holds between two steps of the search. */
  ghost predicate Searching(g: Graph, source: Hash, seen: set<Hash>, stack: seq<Hash>) {
    && g.Valid() && seen <= g.vertices.Keys
    && (forall h :: h in stack || h in seen ==> h in g.vertices && Reachable(g, source, h))
    && (source in seen || source in stack)
    && (forall h, d :: h in seen && d in g.dependants[h] ==> d in seen || d in stack)
  }

  lemma PopSeen(g: Graph, source: Hash, seen: set<Hash>, stack: seq<Hash>)
    requires Searching(g, source, seen, stack) && stack != [] && stack[|stack| - 1] in seen
    ensures Searching(g, source, seen, stack[..|stack| - 1])
  {
    hide Reachable;
    assert stack == stack[..|stack| - 1] + [stack[|stack| - 1]];
  }

  lemma PopNew(g: Graph, source: Hash, seen: set<Hash>, stack: seq<Hash>, next: seq<Hash>)
    requires Searching(g, source, seen, stack) && stack != [] && stack[|stack| - 1] !in seen
    requires stack[|stack| - 1] in g.dependants
    requires forall d :: d in next <==> d in g.dependants[stack[|stack| - 1]]
    ensures Searching(g, source, seen + {stack[|stack| - 1]}, stack[..|stack| - 1] + next)
    ensures |g.vertices.Keys - (seen + {stack[|stack| - 1]})| < |g.vertices.Keys - seen|
  {
    hide Reachable;
    var h, rest := stack[|stack| - 1], stack[..|stack| - 1];
    assert stack == rest + [h];
    assert forall d :: d in rest + next <==> d in rest || d in next;
    ReachAllNext(g, source, h);
    assert g.vertices.Keys - seen == (g.vertices.Keys - (seen + {h})) + {h};
  }

  lemma DistinctSnoc(visited: seq<Hash>, h: Hash)
    requires Distinct(visited) && h !in visited
    ensures Distinct(visited + [h]) && forall d :: d in visited + [h] <==> d in visited || d == h
  {
  }

  /** graph.DFS: an explicit stack, a hash is visited when it is first popped. */
  method DepthFirstSearch(g: Graph, source: Hash) returns (visited: seq<Hash>)
    requires g.Valid() && source in g.vertices
    ensures forall h :: h in visited <==> Reachable(g, source, h)
    ensures Distinct(visited)
  {
    var stack := [source];
    var seen: set<Hash> := {};
    visited := [];
    ReachSelf(g, source);
    assert Searching(g, source, seen, stack);
    hide Reachable, Path, HashOf, Searching, Distinct;
    while stack != []
      invariant forall h :: h in visited <==> h in seen
      invariant Distinct(visited) && Searching(g, source, seen, stack)
      decreases |g.vertices.Keys - seen|, |stack|
    {
      var h, rest := stack[|stack| - 1], stack[..|stack| - 1];
      if h in seen {
        PopSeen(g, source, seen, stack);
        stack := rest;
      } else {
        StackedIsVertex(g, source, seen, stack, h);
        var next := UnsortedList(g.dependants[h]);
        PopNew(g, source, seen, stack, next);
        DistinctSnoc(visited, h);
        visited := visited + [h];
        seen := seen + {h};
        stack := rest + next;
      }
    }
    SearchDone(g, source, seen);
  }

  lemma StackedIsVertex(g: Graph, source: Hash, seen: set<Hash>, stack: seq<Hash>, h: Hash)
    requires Searching(g, source, seen, stack) && h in stack
    ensures h in g.dependants
  {
    hide Reachable;
  }

  lemma SearchDone(g: Graph, source: Hash, seen: set<Hash>)
    requires Searching(g, source, seen, [])
    ensures forall h :: h in seen <==> Reachable(g, source, h)
  {
    hide Reachable;
    ClosedHoldsReachable(g, seen, source);
  }

  /** SubgraphObjects: nothing for an unknown source, else the source and all its dependants. */
  method SubgraphObjects(g: Graph, source: Hash) returns (objects: seq<Object>)
    requires g.Valid()
    ensures forall o :: o in objects <==>
              HashOf(o) in g.vertices && g.vertices[HashOf(o)] == o && Reachable(g, source, HashOf(o))
  {
    if source !in g.vertices {
      forall h ensures !Reachable(g, source, h) {
        if Reachable(g, source, h) {
          ReachableIsVertex(g, source, h);
        }
      }
      return [];
    }
    var hashes := DepthFirstSearch(g, source);
    objects := [];
    for i := 0 to |hashes|
      invariant forall o :: o in objects <==>
                  HashOf(o) in hashes[..i] && HashOf(o) in g.vertices && g.vertices[HashOf(o)] == o
    {
      assert hashes[i] in hashes;
      ReachableIsVertex(g, source, hashes[i]);
      assert hashes[..i + 1] == hashes[..i] + [hashes[i]];
      objects := objects + [g.vertices[hashes[i]]];
    }
    assert hashes[..|hashes|] == hashes;
  }

  // ---------------------------------------------------------------- from cache to graph

  /** The graph has vertices v and an edge from d to o for each pair (d, o) in e. */
  ghost predicate Represents(g: Graph, v: set<Object>, e: set<(Object, Object)>) {
    && g.Valid()
    && (forall o :: o in v <==> HashOf(o) in g.vertices && g.vertices[HashOf(o)] == o)
    && (forall a, b :: a in g.vertices && b in g.vertices ==>
          (b in g.dependants[a] <==> (g.vertices[a], g.vertices[b]) in e))
    && (forall p :: p in e ==> p.0 in v && p.1 in v)
  }

  /** AddVertex; a vertex that is already there is left alone. */
  function AddVertex(g: Graph, o: Object): Graph {
    if HashOf(o) in g.vertices then g
    else Graph(g.vertices[HashOf(o) := o], g.dependants[HashOf(o) := {}])
  }

  function AddEdge(g: Graph, from: Hash, to: Hash): Graph
    requires from in g.dependants
  {
    g.(dependants := g.dependants[from := g.dependants[from] + {to}])
  }

  lemma AddVertexRepresents(g: Graph, v: set<Object>, e: set<(Object, Object)>, o: Object)
    requires Represents(g, v, e) && forall p :: p in v && HashOf(p) == HashOf(o) ==> p == o
    ensures Represents(AddVertex(g, o), v + {o}, e)
  {
    hide HashOf;
    assert HashOf(o) in g.vertices ==> g.vertices[HashOf(o)] in v;
    if HashOf(o) in g.vertices {
      assert v + {o} == v;
    } else {
      assert forall a :: a in g.vertices ==> HashOf(o) !in g.dependants[a];
    }
  }

  lemma AddEdgeRepresents(g: Graph, v: set<Object>, e: set<(Object, Object)>, d: Object, o: Object)
    requires Represents(g, v, e) && d in v && o in v
    ensures Represents(AddEdge(g, HashOf(d), HashOf(o)), v, e + {(d, o)})
  {
    hide HashOf;
  }

  ghost function EdgesInto(c: Contents, resolve: Resolver, objects: set<Object>): set<(Object, Object)> {
    set o, d | o in objects && d in resolve(c, o) :: (d, o)
  }

  ghost predicate GraphOf(g: Graph, c: Contents, resolve: Resolver) {
    Represents(g, Objects(c), EdgesInto(c, resolve, Objects(c)))
  }

  /** CacheToGraph: every cached object is a vertex, every dependency an edge to its dependant. */
  method CacheToGraph(c: Contents, resolve: Resolver) returns (g: Graph)
    requires WellKeyed(c) && Resolves(resolve, c)
    ensures GraphOf(g, c, resolve)
  {
    hide HashOf, Represents, WellKeyed, Objects, EdgesInto, Resolves;
    var all := AllObjects(c);
    g := Graph(map[], map[]);
    ghost var v: set<Object> := {};
    ghost var done: set<Object> := {};
    NothingRepresented(c, resolve);
    for i := 0 to |all|
      invariant Represents(g, v, EdgesInto(c, resolve, done))
      invariant done <= v <= Objects(c) && forall j :: 0 <= j < i ==> all[j] in done
    {
      assert all[i] in all;
      g, v := AddObject(c, resolve, g, all[i], v, done);
      done := done + {all[i]};
    }
    AllDone(all, done, Objects(c));
    assert v == done;
  }

  lemma AllDone(all: seq<Object>, done: set<Object>, objects: set<Object>)
    requires (forall o :: o in objects ==> o in all) && (forall j :: 0 <= j < |all| ==> all[j] in done)
    requires done <= objects
    ensures done == objects
  {
  }

  lemma NothingRepresented(c: Contents, resolve: Resolver)
    ensures Represents(Graph(map[], map[]), {}, EdgesInto(c, resolve, {}))
  {
  }

  /** One object of the cache: its vertex, the vertices of its dependencies, and the edges. */
  method AddObject(c: Contents, resolve: Resolver, g0: Graph, o: Object, ghost v0: set<Object>, ghost done: set<Object>)
    returns (g: Graph, ghost v: set<Object>)
    requires WellKeyed(c) && Resolves(resolve, c) && o in Objects(c) && v0 <= Objects(c)
    requires Represents(g0, v0, EdgesInto(c, resolve, done))
    ensures v0 + {o} <= v <= Objects(c)
    ensures Represents(g, v, EdgesInto(c, resolve, done + {o}))
  {
    hide HashOf, Represents, WellKeyed, Objects;
    ghost var e0 := EdgesInto(c, resolve, done);
    UniqueHash(c, v0, o);
    AddVertexRepresents(g0, v0, e0, o);
    g, v := AddVertex(g0, o), v0 + {o};
    var rest := resolve(c, o);
    assert e0 + (set d | d in resolve(c, o) && d !in rest :: (d, o)) == e0;
    while rest != {}
      invariant rest <= resolve(c, o) && v0 + {o} <= v <= Objects(c)
      invariant Represents(g, v, e0 + (set d | d in resolve(c, o) && d !in rest :: (d, o)))
      decreases rest
    {
      var d :| d in rest;
      ghost var e := e0 + (set d | d in resolve(c, o) && d !in rest :: (d, o));
      UniqueHash(c, v, d);
      AddVertexRepresents(g, v, e, d);
      VertexKnown(AddVertex(g, d), v + {d}, e, d);
      AddEdgeRepresents(AddVertex(g, d), v + {d}, e, d, o);
      g, v := AddEdge(AddVertex(g, d), HashOf(d), HashOf(o)), v + {d};
      rest := rest - {d};
      assert e0 + (set d | d in resolve(c, o) && d !in rest :: (d, o)) == e + {(d, o)};
    }
    assert EdgesInto(c, resolve, done + {o}) == e0 + (set d | d in resolve(c, o) && d !in rest :: (d, o));
  }

  lemma UniqueHash(c: Contents, v: set<Object>, o: Object)
    requires WellKeyed(c) && v <= Objects(c) && o in Objects(c)
    ensures forall p :: p in v && HashOf(p) == HashOf(o) ==> p == o
  {
    forall p | p in v && HashOf(p) == HashOf(o) ensures p == o {
      HashIdentifies(c, p, o);
    }
  }

  lemma VertexKnown(g: Graph, v: set<Object>, e: set<(Object, Object)>, o: Object)
    requires Represents(g, v, e) && o in v
    ensures HashOf(o) in g.dependants
  {
  }

  /** The objects of all stores, store after store. */
  method AllObjects(c: Contents) returns (all: seq<Object>)
    requires WellKeyed(c)
    ensures forall o :: o in all <==> o in Objects(c)
  {
    KindsIn(c);
    all := ObjectsOf(c, KINDS);
    forall o ensures o in all <==> o in Objects(c) {
      if k, x :| k in c && x in c[k] && c[k][x] == o {
        assert k in KINDS;
      }
    }
  }

  method ObjectsOf(c: Contents, kinds: seq<Kind>) returns (all: seq<Object>)
    requires WellKeyed(c) && forall k :: k in kinds ==> k in c
    ensures forall o :: o in all <==> exists k, x :: k in kinds && x in c[k] && c[k][x] == o
  {
    all := [];
    for i := 0 to |kinds|
      invariant forall o :: o in all <==> exists j, x :: 0 <= j < i && x in c[kinds[j]] && c[kinds[j]][x] == o
    {
      var list := ListStore(c[kinds[i]]);
      all := all + list;
    }
  }

  // ---------------------------------------------------------------- what depends on what, on caches

  /** The objects that are broken or depend, directly or not, on a broken object. */
  ghost function Affected(g: Graph, broken: seq<Hash>): set<Hash>
    requires g.Valid()
  {
    set h | h in g.vertices && AffectedBy(g, broken, h)
  }

  ghost predicate AffectedBy(g: Graph, broken: seq<Hash>, h: Hash) {
    exists i :: 0 <= i < |broken| && Reachable(g, broken[i], h)
  }

  /** The cache without the objects whose hashes are in doomed. */
  ghost function Exclude(c: Contents, doomed: set<Hash>): Contents {
    map k | k in c :: ExcludeStore(c[k], doomed)
  }

  ghost function ExcludeStore(s: Store, doomed: set<Hash>): Store {
    map x | x in s && HashOf(s[x]) !in doomed :: s[x]
  }

  ghost predicate DependencyClosed(objects: set<Object>, c: Contents, resolve: Resolver) {
    forall o, d :: o in objects && d in resolve(c, o) ==> d in objects
  }

  lemma ExcludeObjects(c: Contents, doomed: set<Hash>)
    ensures forall o :: o in Objects(Exclude(c, doomed)) <==> o in Objects(c) && HashOf(o) !in doomed
  {
    var r := Exclude(c, doomed);
    forall o ensures o in Objects(r) <==> o in Objects(c) && HashOf(o) !in doomed {
      if o in Objects(c) && HashOf(o) !in doomed {
        var k, x :| k in c && x in c[k] && c[k][x] == o;
        assert r[k][x] == o;
      }
      if k, x :| k in r && x in r[k] && r[k][x] == o {
        assert c[k][x] == o;
      }
    }
  }

  /** The fallback cache keeps, with every object, all its dependencies. */
  lemma ExclusionClosed(g: Graph, c: Contents, resolve: Resolver, broken: seq<Hash>)
    requires WellKeyed(c) && Resolves(resolve, c) && GraphOf(g, c, resolve)
    ensures DependencyClosed(Objects(Exclude(c, Affected(g, broken))), c, resolve)
  {
    var doomed := Affected(g, broken);
    ExcludeObjects(c, doomed);
    forall o, d | o in Objects(Exclude(c, doomed)) && d in resolve(c, o)
      ensures d in Objects(Exclude(c, doomed))
    {
      assert d in Objects(c) && (d, o) in EdgesInto(c, resolve, Objects(c));
      AffectedSpreads(g, broken, HashOf(d), HashOf(o));
    }
  }

  lemma AffectedSpreads(g: Graph, broken: seq<Hash>, a: Hash, b: Hash)
    requires g.Valid() && a in g.dependants && b in g.dependants[a]
    ensures a in Affected(g, broken) ==> b in Affected(g, broken)
  {
    if a in Affected(g, broken) {
      var i :| 0 <= i < |broken| && Reachable(g, broken[i], a);
      ReachNext(g, broken[i], a, b);
    }
  }

  /** No broken object is left. */
  lemma ExclusionDropsBroken(g: Graph, c: Contents, resolve: Resolver, broken: seq<Hash>, o: Object)
    requires GraphOf(g, c, resolve) && o in Objects(c) && HashOf(o) in broken
    ensures o !in Objects(Exclude(c, Affected(g, broken)))
  {
    ExcludeObjects(c, Affected(g, broken));
    ReachSelf(g, HashOf(o));
    var i :| 0 <= i < |broken| && broken[i] == HashOf(o);
    assert AffectedBy(g, broken, HashOf(o));
  }

  /** And nothing is dropped without need: a dependency-closed part of the cache without broken
      objects lies within the fallback cache. */
  lemma ExclusionLargest(g: Graph, c: Contents, resolve: Resolver, broken: seq<Hash>, part: set<Object>)
    requires WellKeyed(c) && GraphOf(g, c, resolve) && part <= Objects(c)
    requires DependencyClosed(part, c, resolve) && forall o :: o in part ==> HashOf(o) !in broken
    ensures part <= Objects(Exclude(c, Affected(g, broken)))
  {
    ExcludeObjects(c, Affected(g, broken));
    var outside := set h | h in g.vertices && g.vertices[h] !in part;
    forall h, d | h in outside && h in g.dependants && d in g.dependants[h] ensures d in outside {
      assert (g.vertices[h], g.vertices[d]) in EdgesInto(c, resolve, Objects(c));
    }
    forall h | h in g.vertices && AffectedBy(g, broken, h) ensures h in outside {
      var i :| 0 <= i < |broken| && Reachable(g, broken[i], h);
      ReachableIsVertex(g, broken[i], h);
      assert broken[i] in outside;
      ClosedHoldsReachable(g, outside, broken[i]);
    }
    forall o | o in part ensures HashOf(o) !in Affected(g, broken) {
      assert g.vertices[HashOf(o)] == o;
    }
  }

  // ---------------------------------------------------------------- backfilling

  /** The objects of the last valid cache that were affected objects or depended on one there. */
  ghost function Overlay(r: Contents, last: Contents, revived: set<Hash>): Contents
    requires r.Keys <= last.Keys
  {
    map k | k in r :: OverlayStore(r[k], last[k], revived)
  }

  ghost function OverlayStore(s: Store, last: Store, revived: set<Hash>): Store {
    s + map x | x in last && HashOf(last[x]) in revived :: last[x]
  }

  /** GenerateBackfillingBrokenObjects, as a function of the two graphs. */
  ghost function Backfilled(g: Graph, c: Contents, broken: seq<Hash>, lastGraph: Graph, last: Contents): Contents
    requires g.Valid() && lastGraph.Valid() && c.Keys <= last.Keys
  {
    Overlay(Exclude(c, Affected(g, broken)), last, AffectedIn(lastGraph, Affected(g, broken)))
  }

  ghost function AffectedIn(g: Graph, sources: set<Hash>): set<Hash>
    requires g.Valid()
  {
    set h | h in g.vertices && exists a :: a in sources && Reachable(g, a, h)
  }

  /** An affected object that was valid before comes back in its last valid form. */
  lemma AffectedComesBack(g: Graph, c: Contents, broken: seq<Hash>, lastGraph: Graph, last: Contents, resolve: Resolver,
                          o: Object)
    requires WellKeyed(c) && WellKeyed(last) && g.Valid() && GraphOf(lastGraph, last, resolve)
    requires o in Objects(last) && HashOf(o) in Affected(g, broken)
    ensures o in Objects(Backfilled(g, c, broken, lastGraph, last))
  {
    hide Backfilled, Affected;
    var k, x :| k in last && x in last[k] && last[k][x] == o;
    ReachSelf(lastGraph, HashOf(o));
    assert HashOf(o) in AffectedIn(lastGraph, Affected(g, broken));
    BackfilledAt(g, c, broken, lastGraph, last, k, x);
    var r := Backfilled(g, c, broken, lastGraph, last);
    assert k in r && x in r[k] && r[k][x] == o;
  }

  /** What the fallback cache holds at a key: a revived object if there is one, else the current
      object unless it is affected. */
  lemma BackfilledAt(g: Graph, c: Contents, broken: seq<Hash>, lastGraph: Graph, last: Contents, k: Kind, x: string)
    requires WellKeyed(c) && WellKeyed(last) && g.Valid() && lastGraph.Valid() && k in c
    ensures var r := Backfilled(g, c, broken, lastGraph, last);
            var revived := k in last && x in last[k]
              && HashOf(last[k][x]) in AffectedIn(lastGraph, Affected(g, broken));
            && k in r
            && (revived ==> x in r[k] && r[k][x] == last[k][x])
            && (!revived ==> (x in r[k] <==> x in c[k] && HashOf(c[k][x]) !in Affected(g, broken)))
            && (!revived && x in r[k] ==> r[k][x] == c[k][x])
  {
  }

  /** A healthy object keeps its current form exactly when no other form of it is revived: being a
      dependant of an affected object in the last valid cache is enough to be set back. */
  lemma HealthyKeptExactly(g: Graph, c: Contents, broken: seq<Hash>, lastGraph: Graph, last: Contents, k: Kind,
                           x: string)
    requires WellKeyed(c) && WellKeyed(last) && g.Valid() && lastGraph.Valid()
    requires k in c && x in c[k] && HashOf(c[k][x]) !in Affected(g, broken)
    ensures var r := Backfilled(g, c, broken, lastGraph, last);
            (k in r && x in r[k] && r[k][x] == c[k][x]) <==>
              !(k in last && x in last[k] && last[k][x] != c[k][x]
                && HashOf(last[k][x]) in AffectedIn(lastGraph, Affected(g, broken)))
  {
    BackfilledAt(g, c, broken, lastGraph, last, k, x);
  }

  // ---------------------------------------------------------------- dependencies after backfilling

  /** Some form of the object is in the cache, under its kind and key. */
  ghost predicate Present(r: Contents, d: Object) {
    d.kind in r && Key(d) in r[d.kind]
  }

  /** The hashes of the last valid cache whose objects are put back. */
  ghost function Revived(g: Graph, broken: seq<Hash>, lastGraph: Graph): set<Hash>
    requires g.Valid() && lastGraph.Valid()
  {
    AffectedIn(lastGraph, Affected(g, broken))
  }

  ghost predicate HealthyAt(c: Contents, g: Graph, broken: seq<Hash>, d: Object)
    requires g.Valid()
  {
    Present(c, d) && HashOf(c[d.kind][Key(d)]) !in Affected(g, broken)
  }

  /** What an object of the backfilled cache depends on, in the cache it was taken from. */
  ghost function Needs(o: Object, g: Graph, c: Contents, broken: seq<Hash>, lastGraph: Graph, last: Contents,
                       resolve: Resolver): set<Object>
    requires g.Valid() && lastGraph.Valid()
  {
    if o in Objects(last) && HashOf(o) in Revived(g, broken, lastGraph) then resolve(last, o) else resolve(c, o)
  }

  /** Every object finds what it depends on, in some form. */
  ghost predicate BackfillComplete(g: Graph, c: Contents, broken: seq<Hash>, lastGraph: Graph, last: Contents,
                                   resolve: Resolver)
    requires g.Valid() && lastGraph.Valid() && c.Keys <= last.Keys
  {
    var r := Backfilled(g, c, broken, lastGraph, last);
    forall o, d :: o in Objects(r) && d in Needs(o, g, c, broken, lastGraph, last, resolve) ==> Present(r, d)
  }

  /** Whatever an object that is put back depended on is put back too or still has a healthy form. */
  ghost predicate RevivedHaveDependencies(g: Graph, c: Contents, broken: seq<Hash>, lastGraph: Graph, last: Contents,
                                          resolve: Resolver)
    requires g.Valid() && lastGraph.Valid()
  {
    var revived := Revived(g, broken, lastGraph);
    forall o, d :: o in Objects(last) && HashOf(o) in revived && d in resolve(last, o) ==>
      HashOf(d) in revived || HealthyAt(c, g, broken, d)
  }

  /** Backfilling leaves no dependency dangling if and only if that holds; objects that were not
      put back never lose one. */
  lemma BackfillCompleteExactly(g: Graph, c: Contents, broken: seq<Hash>, lastGraph: Graph, last: Contents,
                                resolve: Resolver)
    requires WellKeyed(c) && Resolves(resolve, c) && GraphOf(g, c, resolve)
    requires WellKeyed(last) && Resolves(resolve, last) && GraphOf(lastGraph, last, resolve)
    ensures BackfillComplete(g, c, broken, lastGraph, last, resolve) <==>
              RevivedHaveDependencies(g, c, broken, lastGraph, last, resolve)
  {
    GraphValid(g, c, resolve);
    GraphValid(lastGraph, last, resolve);
    if RevivedHaveDependencies(g, c, broken, lastGraph, last, resolve) {
      EnoughForCompleteness(g, c, broken, lastGraph, last, resolve);
    }
    if BackfillComplete(g, c, broken, lastGraph, last, resolve) {
      NeededForCompleteness(g, c, broken, lastGraph, last, resolve);
    }
  }

  lemma EnoughForCompleteness(g: Graph, c: Contents, broken: seq<Hash>, lastGraph: Graph, last: Contents,
                              resolve: Resolver)
    requires WellKeyed(c) && Resolves(resolve, c) && GraphOf(g, c, resolve)
    requires WellKeyed(last) && Resolves(resolve, last) && lastGraph.Valid()
    requires RevivedHaveDependencies(g, c, broken, lastGraph, last, resolve)
    ensures BackfillComplete(g, c, broken, lastGraph, last, resolve)
  {
    var r := Backfilled(g, c, broken, lastGraph, last);
    hide Backfilled, Revived, Affected, GraphOf, WellKeyed, Objects, Present, HealthyAt, HashOf;
    forall o, d | o in Objects(r) && d in Needs(o, g, c, broken, lastGraph, last, resolve) ensures Present(r, d) {
      if o in Objects(last) && HashOf(o) in Revived(g, broken, lastGraph) {
        PresentExactly(g, c, broken, lastGraph, last, d);
      } else {
        KeptDependencyPresent(g, c, broken, lastGraph, last, resolve, o, d);
      }
    }
  }

  lemma NeededForCompleteness(g: Graph, c: Contents, broken: seq<Hash>, lastGraph: Graph, last: Contents,
                              resolve: Resolver)
    requires WellKeyed(c) && WellKeyed(last) && Resolves(resolve, last) && g.Valid() && lastGraph.Valid()
    requires BackfillComplete(g, c, broken, lastGraph, last, resolve)
    ensures RevivedHaveDependencies(g, c, broken, lastGraph, last, resolve)
  {
    var r, revived := Backfilled(g, c, broken, lastGraph, last), Revived(g, broken, lastGraph);
    hide Backfilled, Revived, Affected, WellKeyed, Objects, Present, HealthyAt, HashOf;
    forall o, d | o in Objects(last) && HashOf(o) in revived && d in resolve(last, o)
      ensures HashOf(d) in revived || HealthyAt(c, g, broken, d)
    {
      RevivedPresent(g, c, broken, lastGraph, last, o);
      assert d in Needs(o, g, c, broken, lastGraph, last, resolve);
      PresentExactly(g, c, broken, lastGraph, last, d);
    }
  }

  lemma RevivedPresent(g: Graph, c: Contents, broken: seq<Hash>, lastGraph: Graph, last: Contents, o: Object)
    requires WellKeyed(c) && WellKeyed(last) && g.Valid() && lastGraph.Valid()
    requires o in Objects(last) && HashOf(o) in Revived(g, broken, lastGraph)
    ensures o in Objects(Backfilled(g, c, broken, lastGraph, last))
  {
    hide Backfilled, Affected, AffectedIn;
    var r := Backfilled(g, c, broken, lastGraph, last);
    FoundAtKey(last, o);
    BackfilledAt(g, c, broken, lastGraph, last, o.kind, Key(o));
    assert r[o.kind][Key(o)] == o;
  }

  lemma PresentExactly(g: Graph, c: Contents, broken: seq<Hash>, lastGraph: Graph, last: Contents, d: Object)
    requires WellKeyed(c) && WellKeyed(last) && g.Valid() && lastGraph.Valid() && d in Objects(last)
    ensures Present(Backfilled(g, c, broken, lastGraph, last), d) <==>
              HashOf(d) in Revived(g, broken, lastGraph) || HealthyAt(c, g, broken, d)
  {
    hide Backfilled, Affected, AffectedIn;
    FoundAtKey(last, d);
    BackfilledAt(g, c, broken, lastGraph, last, d.kind, Key(d));
  }

  /** What was not put back comes from the current cache and is healthy, and so are its dependencies. */
  lemma KeptDependencyPresent(g: Graph, c: Contents, broken: seq<Hash>, lastGraph: Graph, last: Contents,
                              resolve: Resolver, o: Object, d: Object)
    requires WellKeyed(c) && WellKeyed(last) && Resolves(resolve, c) && GraphOf(g, c, resolve) && lastGraph.Valid()
    requires o in Objects(Backfilled(g, c, broken, lastGraph, last))
    requires !(o in Objects(last) && HashOf(o) in Revived(g, broken, lastGraph)) && d in resolve(c, o)
    ensures Present(Backfilled(g, c, broken, lastGraph, last), d)
  {
    hide Affected, AffectedIn;
    var r := Backfilled(g, c, broken, lastGraph, last);
    KeptIsHealthy(g, c, broken, lastGraph, last, o);
    hide Backfilled;
    ExclusionClosed(g, c, resolve, broken);
    ExcludeObjects(c, Affected(g, broken));
    assert d in Objects(Exclude(c, Affected(g, broken)));
    FoundAtKey(c, d);
    BackfilledAt(g, c, broken, lastGraph, last, d.kind, Key(d));
  }

  lemma KeptIsHealthy(g: Graph, c: Contents, broken: seq<Hash>, lastGraph: Graph, last: Contents, o: Object)
    requires WellKeyed(c) && WellKeyed(last) && g.Valid() && lastGraph.Valid()
    requires o in Objects(Backfilled(g, c, broken, lastGraph, last))
    requires !(o in Objects(last) && HashOf(o) in Revived(g, broken, lastGraph))
    ensures o in Objects(c) && HashOf(o) !in Affected(g, broken)
  {
    var r := Backfilled(g, c, broken, lastGraph, last);
    assert r.Keys == c.Keys;
    hide Backfilled, Affected, AffectedIn;
    var k, x :| k in r && x in r[k] && r[k][x] == o;
    BackfilledAt(g, c, broken, lastGraph, last, k, x);
    assert k in last && x in last[k] ==> last[k][x] in Objects(last);
  }

  /** So nothing dangles if every object of the last valid cache is still there, in any form. */
  lemma NothingDeletedComplete(g: Graph, c: Contents, broken: seq<Hash>, lastGraph: Graph, last: Contents,
                               resolve: Resolver)
    requires WellKeyed(c) && Resolves(resolve, c) && GraphOf(g, c, resolve)
    requires WellKeyed(last) && Resolves(resolve, last) && GraphOf(lastGraph, last, resolve)
    requires forall d :: d in Objects(last) ==> Present(c, d) && HashOf(c[d.kind][Key(d)]) == HashOf(d)
    ensures BackfillComplete(g, c, broken, lastGraph, last, resolve)
  {
    hide BackfillComplete, WellKeyed, Present, HashOf, Affected;
    BackfillCompleteExactly(g, c, broken, lastGraph, last, resolve);
    forall d | d in Objects(last) ensures HashOf(d) in Revived(g, broken, lastGraph) || HealthyAt(c, g, broken, d) {
      ReachSelf(lastGraph, HashOf(d));
    }
  }

  // ---------------------------------------------------------------- the generator

  /** In the store of its kind an object is found by its hash exactly under its key; elsewhere not at all. */
  lemma HashAtKey(c: Contents, k: Kind, x: string, o: Object)
    requires WellKeyed(c) && o in Objects(c) && k in c && x in c[k]
    ensures HashOf(c[k][x]) == HashOf(o) <==> k == o.kind && x == Key(o)
  {
  }

  lemma DeleteOne(c: Contents, doomed: set<Hash>, o: Object)
    requires WellKeyed(c) && o in Objects(c)
    ensures var r := Exclude(c, doomed);
            o.kind in r && r[o.kind := r[o.kind] - {Key(o)}] == Exclude(c, doomed + {HashOf(o)})
  {
    hide ExcludeStore, HashOf, Key;
    ObjectKindSupported(c, o);
    forall k | k in c
      ensures ExcludeStore(c[k], doomed + {HashOf(o)}) ==
              if k == o.kind then ExcludeStore(c[k], doomed) - {Key(o)} else ExcludeStore(c[k], doomed)
    {
      forall x | x in c[k] ensures HashOf(c[k][x]) == HashOf(o) <==> k == o.kind && x == Key(o) {
        HashAtKey(c, k, x, o);
      }
      DeleteFromStore(c[k], doomed, HashOf(o), Key(o), k == o.kind);
    }
  }

  lemma DeleteFromStore(s: Store, doomed: set<Hash>, h: Hash, key: string, here: bool)
    requires forall x :: x in s ==> (HashOf(s[x]) == h <==> here && x == key)
    ensures ExcludeStore(s, doomed + {h}) == if here then ExcludeStore(s, doomed) - {key} else ExcludeStore(s, doomed)
  {
    hide HashOf;
  }

  lemma AddOne(r: Contents, last: Contents, revived: set<Hash>, o: Object)
    requires WellKeyed(r) && WellKeyed(last) && o in Objects(last)
    ensures var s := Overlay(r, last, revived);
            o.kind in s && s[o.kind := s[o.kind][Key(o) := o]] == Overlay(r, last, revived + {HashOf(o)})
  {
    hide OverlayStore, HashOf, Key;
    ObjectKindSupported(last, o);
    forall k | k in r
      ensures OverlayStore(r[k], last[k], revived + {HashOf(o)})
              == if k == o.kind then OverlayStore(r[k], last[k], revived)[Key(o) := o]
                else OverlayStore(r[k], last[k], revived)
    {
      forall x | x in last[k] ensures HashOf(last[k][x]) == HashOf(o) <==> k == o.kind && x == Key(o) {
        HashAtKey(last, k, x, o);
      }
      FoundAtKey(last, o);
      AddToStore(r[k], last[k], revived, o, k == o.kind);
    }
  }

  lemma FoundAtKey(c: Contents, o: Object)
    requires WellKeyed(c) && o in Objects(c)
    ensures o.kind in c && Key(o) in c[o.kind] && c[o.kind][Key(o)] == o
  {
  }

  lemma AddToStore(s: Store, last: Store, revived: set<Hash>, o: Object, here: bool)
    requires forall x :: x in last ==> (HashOf(last[x]) == HashOf(o) <==> here && x == Key(o))
    requires here ==> Key(o) in last && last[Key(o)] == o
    ensures OverlayStore(s, last, revived + {HashOf(o)})
            == if here then OverlayStore(s, last, revived)[Key(o) := o] else OverlayStore(s, last, revived)
  {
    hide HashOf, Key;
  }

  ghost function Hashes(objects: seq<Object>): set<Hash> {
    set o | o in objects :: HashOf(o)
  }

  /** Delete each object from the fallback cache and note its hash. */
  method DeleteAll(cache: CacheStores, objects: seq<Object>, ghost c: Contents, ghost doomed: set<Hash>)
    returns (hashes: seq<Hash>)
    requires cache.Valid() && WellKeyed(c) && cache.stores == Exclude(c, doomed)
    requires forall o :: o in objects ==> o in Objects(c)
    modifies cache
    ensures cache.Valid() && cache.stores == Exclude(c, doomed + Hashes(objects))
    ensures forall h :: h in hashes <==> h in Hashes(objects)
  {
    hide Exclude, WellKeyed, Objects, HashOf;
    hashes := [];
    assert doomed + Hashes(objects[..0]) == doomed;
    for i := 0 to |objects|
      invariant cache.Valid() && cache.stores == Exclude(c, doomed + Hashes(objects[..i]))
      invariant forall h :: h in hashes <==> h in Hashes(objects[..i])
    {
      assert objects[i] in objects;
      assert objects[..i + 1] == objects[..i] + [objects[i]];
      DeleteOne(c, doomed + Hashes(objects[..i]), objects[i]);
      ObjectKindSupported(c, objects[i]);
      var ok := cache.Delete(objects[i]);
      hashes := hashes + [HashOf(objects[i])];
      assert doomed + Hashes(objects[..i + 1]) == doomed + Hashes(objects[..i]) + {HashOf(objects[i])};
    }
    assert objects[..|objects|] == objects;
  }

  lemma ObjectKindSupported(c: Contents, o: Object)
    requires WellKeyed(c) && o in Objects(c)
    ensures !o.kind.Unsupported?
  {
  }

  method AddAll(cache: CacheStores, objects: seq<Object>, ghost r: Contents, ghost last: Contents,
                ghost revived: set<Hash>)
    requires cache.Valid() && WellKeyed(r) && WellKeyed(last) && cache.stores == Overlay(r, last, revived)
    requires forall o :: o in objects ==> o in Objects(last)
    modifies cache
    ensures cache.Valid() && cache.stores == Overlay(r, last, revived + Hashes(objects))
  {
    hide Overlay, Objects, HashOf;
    assert revived + Hashes(objects[..0]) == revived;
    for i := 0 to |objects|
      invariant cache.Valid() && cache.stores == Overlay(r, last, revived + Hashes(objects[..i]))
    {
      assert objects[i] in objects;
      assert objects[..i + 1] == objects[..i] + [objects[i]];
      AddOne(r, last, revived + Hashes(objects[..i]), objects[i]);
      ObjectKindSupported(last, objects[i]);
      var ok := cache.Add(objects[i]);
      assert revived + Hashes(objects[..i + 1]) == revived + Hashes(objects[..i]) + {HashOf(objects[i])};
    }
    assert objects[..|objects|] == objects;
  }

  /** GenerateExcludingBrokenObjects; affected lists the hashes of what was excluded. */
  method GenerateExcludingBrokenObjects(cache: CacheStores, broken: seq<Hash>, resolve: Resolver)
    returns (fallback: CacheStores, affected: seq<Hash>, ghost g: Graph)
    requires cache.Valid() && Resolves(resolve, cache.stores)
    ensures fresh(fallback) && fallback.Valid() && GraphOf(g, cache.stores, resolve)
    ensures fallback.stores == Exclude(cache.stores, Affected(g, broken))
    ensures forall h :: h in affected <==> h in Affected(g, broken)
  {
    ghost var c := cache.stores;
    var graph := CacheToGraph(cache.stores, resolve);
    g := graph;
    fallback := cache.TakeSnapshot();
    affected := [];
    NothingExcluded(c);
    NothingAffected(g);
    hide Exclude, WellKeyed, Objects, GraphOf, Resolves, Affected;
    for i := 0 to |broken|
      invariant fresh(fallback) && fallback.Valid() && fallback.stores == Exclude(c, Affected(g, broken[..i]))
      invariant forall h :: h in affected <==> h in Affected(g, broken[..i])
    {
      GraphValid(g, c, resolve);
      var objects := SubgraphObjects(graph, broken[i]);
      SubgraphAffected(g, c, resolve, broken, i, objects);
      var hashes := DeleteAll(fallback, objects, c, Affected(g, broken[..i]));
      affected := affected + hashes;
    }
    assert broken[..|broken|] == broken;
  }

  lemma NothingExcluded(c: Contents)
    ensures Exclude(c, {}) == c
  {
    forall k | k in c ensures Exclude(c, {})[k] == c[k] {
    }
  }

  lemma NothingAffected(g: Graph)
    requires g.Valid()
    ensures Affected(g, []) == {}
  {
  }

  lemma GraphValid(g: Graph, c: Contents, resolve: Resolver)
    requires GraphOf(g, c, resolve)
    ensures g.Valid()
  {
  }

  lemma SubgraphAffected(g: Graph, c: Contents, resolve: Resolver, broken: seq<Hash>, i: nat, objects: seq<Object>)
    requires GraphOf(g, c, resolve) && i < |broken|
    requires forall o :: o in objects <==>
               HashOf(o) in g.vertices && g.vertices[HashOf(o)] == o && Reachable(g, broken[i], HashOf(o))
    ensures Affected(g, broken[..i + 1]) == Affected(g, broken[..i]) + Hashes(objects)
    ensures forall o :: o in objects ==> o in Objects(c)
  {
    forall h ensures h in Affected(g, broken[..i + 1]) <==> h in Affected(g, broken[..i]) || h in Hashes(objects) {
      AffectedOneMore(g, broken, i, h);
      if h in g.vertices && Reachable(g, broken[i], h) {
        assert g.vertices[h] in objects;
      }
    }
  }

  lemma AffectedOneMore(g: Graph, broken: seq<Hash>, i: nat, h: Hash)
    requires i < |broken|
    ensures AffectedBy(g, broken[..i + 1], h) <==> AffectedBy(g, broken[..i], h) || Reachable(g, broken[i], h)
  {
    hide Reachable;
    if j :| 0 <= j < i && Reachable(g, broken[..i][j], h) {
      assert broken[..i + 1][j] == broken[j];
    }
    if Reachable(g, broken[i], h) {
      assert broken[..i + 1][i] == broken[i];
    }
  }

  /** GenerateBackfillingBrokenObjects; without a last valid cache nothing is put back. */
  method GenerateBackfillingBrokenObjects(cache: CacheStores, lastValid: Option<Contents>, broken: seq<Hash>,
                                          resolve: Resolver)
    returns (fallback: CacheStores, ghost g: Graph, ghost lastGraph: Graph)
    requires cache.Valid() && Resolves(resolve, cache.stores)
    requires lastValid.Some? ==> WellKeyed(lastValid.value) && Resolves(resolve, lastValid.value)
    ensures fresh(fallback) && fallback.Valid() && GraphOf(g, cache.stores, resolve)
    ensures lastValid.None? ==> fallback.stores == Exclude(cache.stores, Affected(g, broken))
    ensures lastValid.Some? ==> GraphOf(lastGraph, lastValid.value, resolve)
    ensures lastValid.Some? ==> fallback.stores == Backfilled(g, cache.stores, broken, lastGraph, lastValid.value)
  {
    var affected;
    fallback, affected, g := GenerateExcludingBrokenObjects(cache, broken, resolve);
    lastGraph := g;
    if lastValid.None? {
      return;
    }
    var last := lastValid.value;
    var graph := CacheToGraph(last, resolve);
    lastGraph := graph;
    ghost var base := fallback.stores;
    NothingOverlaid(base, last);
    assert SetOf(affected[..0]) == {};
    NothingAffectedIn(graph);
    hide Exclude, Overlay, WellKeyed, GraphOf, Resolves, Affected, AffectedIn, Objects;
    for i := 0 to |affected|
      invariant fresh(fallback) && fallback.Valid()
      invariant fallback.stores == Overlay(base, last, AffectedIn(graph, SetOf(affected[..i])))
    {
      GraphValid(graph, last, resolve);
      var objects := SubgraphObjects(graph, affected[i]);
      SubgraphRevived(graph, last, resolve, affected, i, objects);
      AddAll(fallback, objects, base, last, AffectedIn(graph, SetOf(affected[..i])));
    }
    assert affected[..|affected|] == affected;
    assert SetOf(affected) == Affected(g, broken);
  }

  ghost function SetOf(hashes: seq<Hash>): set<Hash> {
    set h | h in hashes
  }

  lemma NothingOverlaid(r: Contents, last: Contents)
    requires WellKeyed(r) && WellKeyed(last)
    ensures Overlay(r, last, {}) == r
  {
    forall k | k in r ensures OverlayStore(r[k], last[k], {}) == r[k] {
    }
  }

  lemma NothingAffectedIn(g: Graph)
    requires g.Valid()
    ensures AffectedIn(g, {}) == {}
  {
  }

  lemma SubgraphRevived(g: Graph, last: Contents, resolve: Resolver, affected: seq<Hash>, i: nat, objects: seq<Object>)
    requires GraphOf(g, last, resolve) && i < |affected|
    requires forall o :: o in objects <==>
               HashOf(o) in g.vertices && g.vertices[HashOf(o)] == o && Reachable(g, affected[i], HashOf(o))
    ensures AffectedIn(g, SetOf(affected[..i + 1])) == AffectedIn(g, SetOf(affected[..i])) + Hashes(objects)
    ensures forall o :: o in objects ==> o in Objects(last)
  {
    hide Reachable;
    assert SetOf(affected[..i + 1]) == SetOf(affected[..i]) + {affected[i]};
    forall h | h in g.vertices && Reachable(g, affected[i], h) ensures h in Hashes(objects) {
      assert g.vertices[h] in objects;
    }
  }

  /** An object that no longer depends on a broken one, but did in the last valid cache, is set back. */
  lemma DependantSetBack(g: Graph, c: Contents, broken: seq<Hash>, lastGraph: Graph, last: Contents, resolve: Resolver,
                         dep: Object, before: Object, now: Object)
    requires WellKeyed(c) && WellKeyed(last) && Resolves(resolve, last) && GraphOf(g, c, resolve)
    requires GraphOf(lastGraph, last, resolve)
    requires dep in Objects(c) && dep in Objects(last) && HashOf(dep) in broken
    requires before in Objects(last) && dep in resolve(last, before)
    requires now in Objects(c) && now != before && now.kind == before.kind && Key(now) == Key(before)
    requires HashOf(now) !in Affected(g, broken)
    ensures var r := Backfilled(g, c, broken, lastGraph, last); before in Objects(r) && now !in Objects(r)
  {
    var k, x := now.kind, Key(now);
    FoundAtKey(c, now);
    FoundAtKey(last, before);
    DirectDependantRevived(g, c, broken, lastGraph, last, resolve, dep, before);
    hide Backfilled, Affected, AffectedIn, GraphOf, Resolves;
    BackfilledAt(g, c, broken, lastGraph, last, k, x);
    BackfilledKeyed(g, c, broken, lastGraph, last);
    var r := Backfilled(g, c, broken, lastGraph, last);
    assert r[k][x] == before;
  }

  /** Two objects of different kinds. */
  ghost function Pair(a: Object, b: Object): Contents
    requires !a.kind.Unsupported? && !b.kind.Unsupported? && a.kind != b.kind
  {
    Empty()[a.kind := map[Key(a) := a]][b.kind := map[Key(b) := b]]
  }

  lemma PairObjects(a: Object, b: Object)
    requires !a.kind.Unsupported? && !b.kind.Unsupported? && a.kind != b.kind
    ensures WellKeyed(Pair(a, b)) && Objects(Pair(a, b)) == {a, b}
  {
    hide Empty, Key;
    var c := Pair(a, b);
    assert c[a.kind] == map[Key(a) := a] && c[b.kind] == map[Key(b) := b];
    assert c[a.kind][Key(a)] == a && c[b.kind][Key(b)] == b;
    assert forall k :: k in c && k != a.kind && k != b.kind ==> c[k] == map[];
    assert forall k, x :: k in c && x in c[k] ==>
             (k == a.kind && c[k][x] == a && x == Key(a)) || (k == b.kind && c[k][x] == b && x == Key(b));
  }

  /** The graph of two objects, the second depending on the first or not. */
  ghost function PairGraph(a: Object, b: Object, depends: bool): Graph {
    var g := AddVertex(AddVertex(Graph(map[], map[]), a), b);
    if depends then AddEdge(g, HashOf(a), HashOf(b)) else g
  }

  lemma PairRepresented(a: Object, b: Object, depends: bool)
    requires HashOf(a) != HashOf(b)
    ensures Represents(PairGraph(a, b, depends), {a, b}, if depends then {(a, b)} else {})
  {
    hide HashOf, AddVertex, AddEdge;
    var g := Graph(map[], map[]);
    assert Represents(g, {}, {});
    hide Represents;
    AddVertexRepresents(g, {}, {}, a);
    assert {} + {a} == {a};
    AddVertexRepresents(AddVertex(g, a), {a}, {}, b);
    assert {a} + {b} == {a, b};
    if depends {
      AddEdgeRepresents(AddVertex(AddVertex(g, a), b), {a, b}, {}, a, b);
      assert {} + {(a, b)} == {(a, b)};
    }
  }

  lemma PairGraphOf(c: Contents, a: Object, b: Object, resolve: Resolver, depends: bool)
    requires Objects(c) == {a, b} && HashOf(a) != HashOf(b)
    requires resolve(c, a) == {} && resolve(c, b) == if depends then {a} else {}
    ensures GraphOf(PairGraph(a, b, depends), c, resolve) && Resolves(resolve, c)
  {
    hide HashOf, Objects, PairGraph, Represents;
    PairRepresented(a, b, depends);
    assert EdgesInto(c, resolve, {a, b}) == if depends then {(a, b)} else {};
  }

  lemma UnrelatedNotReached(a: Object, b: Object)
    requires HashOf(a) != HashOf(b)
    ensures HashOf(b) !in Affected(PairGraph(a, b, false), [HashOf(a)])
  {
    var g := PairGraph(a, b, false);
    hide HashOf, Reachable;
    ClosedHoldsReachable(g, {HashOf(a)}, HashOf(a));
  }

  ghost predicate SetBack(c: Contents, last: Contents, resolve: Resolver, g: Graph, lastGraph: Graph, broken: seq<Hash>,
                          before: Object, now: Object) {
    && WellKeyed(c) && WellKeyed(last) && GraphOf(g, c, resolve) && GraphOf(lastGraph, last, resolve)
    && now in Objects(c) && HashOf(now) !in Affected(g, broken)
    && before in Objects(Backfilled(g, c, broken, lastGraph, last))
    && now !in Objects(Backfilled(g, c, broken, lastGraph, last))
  }

  /** The one dependency there is: o on dep. */
  ghost function DependsOnly(o: Object, dep: Object): Resolver {
    (c: Contents, p: Object) => if p == o then {dep} else {}
  }

  /** It happens to any two objects of different kinds: dep breaks after its only dependant has dropped it. */
  lemma DroppedDependencySetsBack(dep: Object, before: Object, now: Object)
    requires !dep.kind.Unsupported? && !before.kind.Unsupported? && dep.kind != before.kind
    requires now != before && now.kind == before.kind && Key(now) == Key(before)
    ensures SetBack(Pair(dep, now), Pair(dep, before), DependsOnly(before, dep),
                    PairGraph(dep, now, false), PairGraph(dep, before, true), [HashOf(dep)], before, now)
  {
    assert forall c, o :: DependsOnly(before, dep)(c, o) == if o == before then {dep} else {};
    hide *;
    SetsBackFor(dep, before, now, DependsOnly(before, dep));
  }

  lemma SetsBackFor(dep: Object, before: Object, now: Object, resolve: Resolver)
    requires !dep.kind.Unsupported? && !before.kind.Unsupported? && dep.kind != before.kind
    requires now != before && now.kind == before.kind && Key(now) == Key(before)
    requires forall c, o :: resolve(c, o) == if o == before then {dep} else {}
    ensures SetBack(Pair(dep, now), Pair(dep, before), resolve,
                    PairGraph(dep, now, false), PairGraph(dep, before, true), [HashOf(dep)], before, now)
  {
    PairObjects(dep, now);
    PairObjects(dep, before);
    hide Pair, GraphOf, Objects, WellKeyed, Resolves, Affected, PairGraph, Backfilled, Key;
    var c, last := Pair(dep, now), Pair(dep, before);
    PairGraphOf(c, dep, now, resolve, false);
    PairGraphOf(last, dep, before, resolve, true);
    UnrelatedNotReached(dep, now);
    DependantSetBack(PairGraph(dep, now, false), c, [HashOf(dep)], PairGraph(dep, before, true), last, resolve, dep,
      before, now);
  }

  /** A dependency can dangle: now breaks and is set back to the form before, which needs dep, and
      dep has been deleted. */
  lemma DeletedDependencyDangles(dep: Object, before: Object, now: Object)
    requires !dep.kind.Unsupported? && !before.kind.Unsupported? && dep.kind != before.kind
    requires now != before && HashOf(now) == HashOf(before)
    ensures Dangles(SingleGraph(now), Single(now), [HashOf(now)],
                    PairGraph(dep, before, true), Pair(dep, before), DependsOnly(before, dep), before, dep)
  {
    assert forall c, o :: DependsOnly(before, dep)(c, o) == if o == before then {dep} else {};
    assert now.kind == before.kind;
    hide *;
    DanglesWith(dep, before, now, DependsOnly(before, dep));
  }

  lemma DanglesWith(dep: Object, before: Object, now: Object, resolve: Resolver)
    requires !dep.kind.Unsupported? && !before.kind.Unsupported? && dep.kind != before.kind
    requires now != before && now.kind == before.kind && HashOf(now) == HashOf(before)
    requires forall c, o :: resolve(c, o) == if o == before then {dep} else {}
    ensures Dangles(SingleGraph(now), Single(now), [HashOf(now)],
                    PairGraph(dep, before, true), Pair(dep, before), resolve, before, dep)
  {
    var c, last := Single(now), Pair(dep, before);
    assert HashOf(dep) != HashOf(before);
    hide HashOf, Dangles;
    SingleObjects(now);
    PairObjects(dep, before);
    NotInSingle(now, dep);
    hide Single, Pair, WellKeyed, Objects;
    SingleGraphOf(c, now, resolve);
    PairGraphOf(last, dep, before, resolve, true);
    DanglesFor(SingleGraph(now), c, PairGraph(dep, before, true), last, resolve, dep, before, now);
  }

  ghost predicate Dangles(g: Graph, c: Contents, broken: seq<Hash>, lastGraph: Graph, last: Contents, resolve: Resolver,
                          o: Object, d: Object) {
    && WellKeyed(c) && Resolves(resolve, c) && GraphOf(g, c, resolve)
    && WellKeyed(last) && Resolves(resolve, last) && GraphOf(lastGraph, last, resolve)
    && o in Objects(Backfilled(g, c, broken, lastGraph, last)) && d in Needs(o, g, c, broken, lastGraph, last, resolve)
    && !Present(Backfilled(g, c, broken, lastGraph, last), d)
  }

  lemma NotInSingle(o: Object, d: Object)
    requires !o.kind.Unsupported? && d.kind != o.kind
    ensures !Present(Single(o), d)
  {
    hide Empty;
    assert d.kind in Single(o) ==> Single(o)[d.kind] == map[];
  }

  lemma DanglesFor(g: Graph, c: Contents, lastGraph: Graph, last: Contents, resolve: Resolver, dep: Object,
                   before: Object, now: Object)
    requires WellKeyed(c) && Resolves(resolve, c) && g == SingleGraph(now) && GraphOf(g, c, resolve)
    requires WellKeyed(last) && Resolves(resolve, last) && lastGraph == PairGraph(dep, before, true)
    requires GraphOf(lastGraph, last, resolve)
    requires dep.kind != before.kind && HashOf(now) == HashOf(before) && Objects(last) == {dep, before}
    requires dep in resolve(last, before)
    requires !Present(c, dep)
    ensures Dangles(g, c, [HashOf(now)], lastGraph, last, resolve, before, dep)
  {
    GraphValid(g, c, resolve);
    GraphValid(lastGraph, last, resolve);
    OnlyBeforeRevived(dep, before, now);
    hide Backfilled, Revived, Affected, GraphOf, WellKeyed, Objects, Present, HashOf, Resolves, SingleGraph, PairGraph;
    PresentExactly(g, c, [HashOf(now)], lastGraph, last, dep);
    RevivedPresent(g, c, [HashOf(now)], lastGraph, last, before);
  }

  ghost function SingleGraph(o: Object): Graph {
    AddVertex(Graph(map[], map[]), o)
  }

  lemma SingleObjects(o: Object)
    requires !o.kind.Unsupported?
    ensures WellKeyed(Single(o)) && Objects(Single(o)) == {o}
  {
    hide Empty, Key;
    var c := Single(o);
    assert c[o.kind] == map[Key(o) := o] && c[o.kind][Key(o)] == o;
    assert forall k :: k in c && k != o.kind ==> c[k] == map[];
    assert forall k, x :: k in c && x in c[k] ==> k == o.kind && c[k][x] == o && x == Key(o);
  }

  lemma SingleGraphOf(c: Contents, o: Object, resolve: Resolver)
    requires Objects(c) == {o} && resolve(c, o) == {}
    ensures GraphOf(SingleGraph(o), c, resolve) && Resolves(resolve, c)
  {
    hide HashOf, Objects, AddVertex;
    var g := Graph(map[], map[]);
    assert Represents(g, {}, {});
    hide Represents;
    AddVertexRepresents(g, {}, {}, o);
    assert {} + {o} == {o};
    assert EdgesInto(c, resolve, {o}) == {};
  }

  lemma OnlyBeforeRevived(dep: Object, before: Object, now: Object)
    requires dep.kind != before.kind && HashOf(now) == HashOf(before)
    requires SingleGraph(now).Valid() && PairGraph(dep, before, true).Valid()
    ensures var revived := Revived(SingleGraph(now), [HashOf(now)], PairGraph(dep, before, true));
            HashOf(before) in revived && HashOf(dep) !in revived
  {
    var g, lastGraph, h := SingleGraph(now), PairGraph(dep, before, true), HashOf(before);
    assert HashOf(dep) != h;
    hide HashOf, Reachable;
    ReachSelf(g, h);
    ReachSelf(lastGraph, h);
    assert AffectedBy(g, [h], h);
    assert Affected(g, [h]) == {h};
    ClosedHoldsReachable(lastGraph, {h}, h);
  }

  lemma DirectDependantRevived(g: Graph, c: Contents, broken: seq<Hash>, lastGraph: Graph, last: Contents,
                               resolve: Resolver, dep: Object, o: Object)
    requires WellKeyed(last) && Resolves(resolve, last) && GraphOf(g, c, resolve) && GraphOf(lastGraph, last, resolve)
    requires dep in Objects(c) && dep in Objects(last) && HashOf(dep) in broken && o in Objects(last)
    requires dep in resolve(last, o)
    ensures HashOf(o) in AffectedIn(lastGraph, Affected(g, broken))
  {
    hide Reachable;
    ReachSelf(g, HashOf(dep));
    var i :| 0 <= i < |broken| && broken[i] == HashOf(dep);
    assert AffectedBy(g, broken, HashOf(dep));
    ReachSelf(lastGraph, HashOf(dep));
    assert (dep, o) in EdgesInto(last, resolve, Objects(last));
    ReachNext(lastGraph, HashOf(dep), HashOf(dep), HashOf(o));
  }

  lemma BackfilledKeyed(g: Graph, c: Contents, broken: seq<Hash>, lastGraph: Graph, last: Contents)
    requires WellKeyed(c) && WellKeyed(last) && g.Valid() && lastGraph.Valid()
    ensures WellKeyed(Backfilled(g, c, broken, lastGraph, last))
  {
    hide Affected, AffectedIn;
  }
}
