/**
 * The exhaustive longest-chain search of `Main.java`: a `Walker` holds the
 * track walked so far, the snapshot without the vertices on the track, and the
 * candidates for the next step; `Compute` branches over every candidate and
 * keeps the longest result. The fork/join pool only runs the branches in
 * parallel; here they run one after another.
 */
module Walkers {
  import opened Wrappers
  import opened Graphs
  import opened Derivation
  import opened Chains

  /** `concatenate(list, newTail)`: a new list, `list` followed by `newTail`. */
  function Concatenate<T>(list: seq<T>, newTail: T): (r: seq<T>)
    ensures |r| == |list| + 1 && r[..|list|] == list && r[|list|] == newTail
  {
    list + [newTail]
  }

  /**
   * `Stream.max(comparingInt(List::size))`: empty for no lists, otherwise
   * one of the lists, none of the others longer.
   */
  function MaxBySize<T>(xs: seq<seq<T>>): (r: Option<seq<T>>)
    ensures r.None? <==> xs == []
    ensures r.Some? ==> r.value in xs && forall x :: x in xs ==> |x| <= |r.value|
  {
    if xs == [] then None
    else
      match MaxBySize(xs[1..])
      case None => Some(xs[0])
      case Some(m) => if |xs[0]| >= |m| then Some(xs[0]) else Some(m)
  }

  /**
   * The state a walker relies on: the snapshot is valid, the candidates are
   * vertices of it, the track is a chain whose vertices are no longer in the
   * snapshot, and the candidates are every vertex (at the start) or exactly the
   * vertices the track's last vertex links to.
   */
  ghost predicate Consistent(track: seq<Vertex>, g: Graph, candidates: set<Vertex>)
    reads g
  {
    g.Valid() &&
    candidates <= g.vertices &&
    Chained(track) && DistinctIds(track) &&
    (forall i :: 0 <= i < |track| ==> track[i].id !in g.Labels()) &&
    if track == [] then candidates == g.vertices
    else forall u :: u in g.vertices ==> (u in candidates <==> Linked(track[|track| - 1], u))
  }

  /** The first step of a path that starts from a vertex linked to `v` is one of the child's candidates. */
  lemma StartIsCandidate(track: seq<Vertex>, v: Vertex, s: Graph, next: set<Vertex>, x: Vertex)
    requires Consistent(track + [v], s, next)
    requires x.id in s.Labels() && s.Labels()[x.id] == x.name && Linked(v, x)
    ensures x.id in Ids(next)
  {
    s.ValidFacts();
    var u := s.mappings[x.id];
    assert (track + [v])[|track|] == v;
    assert u in next;
  }

  /** Appending a candidate keeps the track a chain of distinct vertices outside the smaller snapshot. */
  lemma TrackExtends(track: seq<Vertex>, g: Graph, candidates: set<Vertex>, v: Vertex, s: Graph)
    requires Consistent(track, g, candidates) && v in candidates
    requires s.Labels() == g.Labels() - {v.id}
    ensures Chained(track + [v]) && DistinctIds(track + [v])
    ensures forall i :: 0 <= i < |track| + 1 ==> (track + [v])[i].id !in s.Labels()
  {
    g.ValidFacts();
    var t := track + [v];
    forall i | 0 < i < |t| ensures Linked(t[i - 1], t[i]) {
      if i < |track| {
        assert t[i - 1] == track[i - 1] && t[i] == track[i];
      }
    }
    forall i, j | 0 <= i < j < |t| ensures t[i].id != t[j].id {
      assert t[i] == track[i];
    }
    forall i | 0 <= i < |t| ensures t[i].id !in s.Labels() {
      if i < |track| {
        assert t[i] == track[i];
      }
    }
  }

  /**
   * `v`'s neighbours, translated into the snapshot without `v` with `find`, are
   * exactly the vertices of that snapshot that `v` links to.
   */
  lemma NeighborsTranslate(g: Graph, s: Graph, v: Vertex, ns: set<Vertex>, next: set<Vertex>)
    requires Removes(g, s, v.id) && v in g.vertices
    requires ns <= g.vertices && forall w :: w in g.vertices ==> (w in ns <==> v.ConnectableTo(w))
    requires forall w :: w in ns ==> s.Find(w).Ok?
    requires next == set w | w in ns :: s.Find(w).value
    ensures next <= s.vertices
    ensures forall u :: u in s.vertices ==> (u in next <==> Linked(v, u))
  {
    forall u | u in s.vertices && Linked(v, u) ensures u in next {
      var x :| x in g.vertices && x.id != v.id && u == x.Duplicate(s);
      assert v.ConnectableTo(x);
      FindAcross(g, s, v.id, x);
    }
    forall u | u in next ensures u in s.vertices && Linked(v, u) {
      var w :| w in ns && u == s.Find(w).value;
      EqualsIsIdentity(g, v, w);
      FindAcross(g, s, v.id, w);
    }
  }

  /** The bound a child proves over its own snapshot and candidates, restated over the parent's snapshot. */
  lemma ChildBound(m: map<Id, Label>, track: seq<Vertex>, v: Vertex, s: Graph, next: set<Vertex>, res: seq<Vertex>)
    requires Consistent(track + [v], s, next) && s.Labels() == m - {v.id}
    requires forall p: seq<Vertex> :: IsChainPath(s.Labels(), p) && |p| > 0 && p[0].id in Ids(next) ==>
      |p| <= |res| - |track + [v]|
    ensures Bounded(m - {v.id}, v.name, |res| - |track| - 1)
  {
    forall q: seq<Id> | IdChain(m - {v.id}, q) && |q| > 0 && LastChar(v.name) == FirstChar((m - {v.id})[q[0]])
      ensures |q| <= |res| - |track| - 1
    {
      var p := PathAlong(s, s.Labels(), q);
      PathOfChain(s, s.Labels(), q);
      StartIsCandidate(track, v, s, next, p[0]);
    }
  }

  /**
   * The child that `compute` builds for candidate `v` is consistent: its track is
   * the parent's plus `v`, its snapshot is the parent's without `v`, and its
   * candidates are `v`'s neighbours translated with `find`.
   */
  lemma ChildConsistent(track: seq<Vertex>, g: Graph, candidates: set<Vertex>, v: Vertex,
                        s: Graph, ns: set<Vertex>, next: set<Vertex>)
    requires Consistent(track, g, candidates) && v in candidates
    requires Removes(g, s, v.id)
    requires ns <= g.vertices && forall w :: w in g.vertices ==> (w in ns <==> v.ConnectableTo(w))
    requires forall w :: w in ns ==> s.Find(w).Ok?
    requires next == set w | w in ns :: s.Find(w).value
    ensures Consistent(track + [v], s, next)
  {
    RemovedLabels(g, s, v.id);
    TrackExtends(track, g, candidates, v, s);
    NeighborsTranslate(g, s, v, ns, next);
    assert (track + [v])[|track|] == v;
  }

  /** The chosen child's result, seen from the parent: the track, then a path of the parent's snapshot. */
  lemma ExtendPath(m: map<Id, Label>, track: seq<Vertex>, v: Vertex, r: seq<Vertex>)
    requires v.id in m && m[v.id] == v.name
    requires |r| > |track| && r[..|track| + 1] == track + [v] && Chained(r)
    requires IsChainPath(m - {v.id}, r[|track| + 1..])
    ensures r[..|track|] == track && r[|track|] == v
    ensures IsChainPath(m, r[|track|..])
  {
    assert r[..|track|] == (track + [v])[..|track|];
    assert r[|track|] == (track + [v])[|track|];
    var q := r[|track| + 1..];
    if |q| > 0 {
      assert q[0] == r[|track| + 1];
      assert Linked(r[|track|], r[|track| + 1]);
    }
    PathCons(m, v, q);
    assert r[|track|..] == [v] + q;
  }

  /** A path that starts at candidate `c` is one vertex longer than a path of `c`'s child. */
  lemma BoundByChild(m: map<Id, Label>, c: Vertex, bound: int, p: seq<Vertex>)
    requires c.id in m && m[c.id] == c.name && bound >= 0
    requires Bounded(m - {c.id}, c.name, bound)
    requires IsChainPath(m, p) && |p| > 0 && p[0].id == c.id
    ensures |p| <= bound + 1
  {
    if |p| > 1 {
      PathTail(m, p);
      ChainOfPath(m - {c.id}, p[1..]);
      assert p[1..][0] == p[1];
      assert Linked(p[0], p[1]);
    }
  }

  /**
   * What the child for candidate `v` returns to a parent on `track` over the
   * snapshot `m`: `track + [v]` followed by a simple chain path of `m` without
   * `v`, and no chain of `m` without `v` that can follow `v` is longer than
   * that continuation.
   */
  ghost predicate Branched(m: map<Id, Label>, track: seq<Vertex>, v: Vertex, res: seq<Vertex>)
  {
    |res| > |track| && res[..|track| + 1] == track + [v] &&
    Chained(res) && DistinctIds(res) &&
    IsChainPath(m - {v.id}, res[|track| + 1..]) &&
    Bounded(m - {v.id}, v.name, |res| - |track| - 1)
  }

  /**
   * The join step: the longest child result extends the track by a path of the
   * snapshot that starts at a candidate, and every path that starts at a
   * candidate is at most as long, because its tail is bounded by that
   * candidate's child.
   */
  lemma Combine(m: map<Id, Label>, track: seq<Vertex>, candidates: set<Vertex>,
                chosen: seq<Vertex>, results: seq<seq<Vertex>>, r: seq<Vertex>)
    requires forall c :: c in candidates ==> c.id in m && m[c.id] == c.name
    requires |chosen| == |results|
    requires forall c :: c in candidates ==> c in chosen
    requires forall j :: 0 <= j < |chosen| ==> chosen[j] in candidates
    requires forall j :: 0 <= j < |results| ==> Branched(m, track, chosen[j], results[j])
    requires r in results && forall x :: x in results ==> |x| <= |r|
    ensures |r| > |track| && r[..|track|] == track && r[|track|] in candidates
    ensures IsChainPath(m, r[|track|..])
    ensures forall p: seq<Vertex> :: IsChainPath(m, p) && |p| > 0 && p[0].id in Ids(candidates) ==> |p| <= |r| - |track|
  {
    var k :| 0 <= k < |results| && results[k] == r;
    ExtendPath(m, track, chosen[k], r);
    forall p: seq<Vertex> | IsChainPath(m, p) && |p| > 0 && p[0].id in Ids(candidates)
      ensures |p| <= |r| - |track|
    {
      var c :| c in candidates && c.id == p[0].id;
      var j :| 0 <= j < |chosen| && chosen[j] == c;
      BoundByChild(m, c, |results[j]| - |track| - 1, p);
    }
  }

  class Walker {
    const track: seq<Vertex>
    const graph: Graph
    const vertices: set<Vertex>

    /** `new Walker(graph)`: the empty track, the whole graph, every vertex a candidate. */
    constructor Root(graph: Graph)
      ensures track == [] && this.graph == graph && vertices == graph.vertices
      ensures graph.Valid() ==> Valid()
    {
      track := [];
      this.graph := graph;
      vertices := graph.vertices;
    }

    /** The private constructor: a walker over the given track, snapshot and candidates. */
    constructor (track: seq<Vertex>, graph: Graph, vertices: set<Vertex>)
      ensures this.track == track && this.graph == graph && this.vertices == vertices
    {
      this.track := track;
      this.graph := graph;
      this.vertices := vertices;
    }

    ghost predicate Valid()
      reads graph
    {
      Consistent(track, graph, vertices)
    }

    /**
     * The task `compute()` builds for candidate `v`: a child walker on
     * track + [v], `graph.subGraph(v)` and `v`'s neighbours translated with
     * `find`. Neither `subGraph` nor `find` fails here: `v` is a vertex of this
     * snapshot and never its own neighbour.
     */
    method Branch(v: Vertex) returns (task: Walker)
      requires Valid() && v in vertices
      ensures task.track == track + [v] && task.Valid()
      ensures task.graph.Labels() == graph.Labels() - {v.id}
      ensures |task.graph.vertices| < |graph.vertices|
    {
      var nextTrack := Concatenate(track, v);
      var derived := graph.SubGraph(v);
      var subGraph := derived.value;
      var ns := v.Neighbors().value;
      forall w | w in ns ensures subGraph.Find(w).Ok? {
        FindAcross(graph, subGraph, v.id, w);
      }
      var nextVertices := set w | w in ns :: subGraph.Find(w).value;
      ChildConsistent(track, graph, vertices, v, subGraph, ns, nextVertices);
      RemovedLabels(graph, subGraph, v.id);
      task := new Walker(nextTrack, subGraph, nextVertices);
    }

    /**
     * The child task for candidate `v`, run to completion: its result starts
     * with track + [v] and continues with a path of the snapshot without `v`,
     * and no path of that snapshot starting at a vertex `v` links to is longer.
     */
    method Explore(v: Vertex, ghost m: map<Id, Label>) returns (res: seq<Vertex>)
      requires Valid() && v in vertices && m == graph.Labels()
      ensures Branched(m, track, v, res)
      decreases |graph.vertices|, 0
    {
      var task := Branch(v);
      res := task.Compute();
      ChildBound(m, track, v, task.graph, task.vertices, res);
    }

    /**
     * The loop of `compute()` and `invokeAll(tasks)` joined: one child per
     * candidate, each run to completion. `chosen` records, ghostly, the
     * candidate each result belongs to.
     */
    method InvokeAll() returns (results: seq<seq<Vertex>>, ghost chosen: seq<Vertex>)
      requires Valid()
      ensures |results| == |chosen| && |results| == |vertices|
      ensures forall c :: c in vertices ==> c in chosen
      ensures forall j :: 0 <= j < |chosen| ==> chosen[j] in vertices
      ensures forall j :: 0 <= j < |results| ==> Branched(graph.Labels(), track, chosen[j], results[j])
      decreases |graph.vertices|, 1
    {
      ghost var m: map<Id, Label> := graph.Labels();
      results := [];
      chosen := [];
      var rest := vertices;
      while rest != {}
        invariant rest <= vertices
        invariant |results| == |chosen| && |results| + |rest| == |vertices|
        invariant forall c :: c in vertices && c !in rest ==> c in chosen
        invariant forall j :: 0 <= j < |chosen| ==> chosen[j] in vertices
        invariant forall j :: 0 <= j < |results| ==> Branched(m, track, chosen[j], results[j])
        decreases |rest|
      {
        var v :| v in rest;
        var res := Explore(v, m);
        results := results + [res];
        chosen := chosen + [v];
        rest := rest - {v};
      }
    }

    /**
     * `compute()`: with no candidate, the track itself; otherwise the longest of
     * the children's results (there is one per candidate, so `orElseThrow` never
     * fires). The result extends the track by a simple chain path of the
     * snapshot that starts at a candidate, and no such path is longer.
     */
    method Compute() returns (r: seq<Vertex>)
      requires Valid()
      ensures |track| <= |r| && r[..|track|] == track
      ensures IsChainPath(graph.Labels(), r[|track|..])
      ensures Chained(r) && DistinctIds(r)
      ensures vertices == {} <==> |r| == |track|
      ensures |r| > |track| ==> r[|track|] in vertices
      ensures |r| <= |track| + graph.NumVertices()
      ensures forall p: seq<Vertex> :: IsChainPath(graph.Labels(), p) && |p| > 0 && p[0].id in Ids(vertices) ==>
                |p| <= |r| - |track|
      decreases |graph.vertices|, 2
    {
      if vertices == {} {
        r := track;
        assert r[|track|..] == [];
        return;
      }
      ghost var m: map<Id, Label> := graph.Labels();
      var results;
      ghost var chosen;
      results, chosen := InvokeAll();
      r := MaxBySize(results).value;
      assert forall c :: c in vertices ==> c.id in m && m[c.id] == c.name by {
        graph.ValidFacts();
      }
      Combine(m, track, vertices, chosen, results, r);
      PathLength(m, r[|track|..]);
    }
  }

  /**
   * `ForkJoinPool.commonPool().invoke(new Walker(graph))`: the longest chain
   * of the whole graph. It is a simple chain path of the graph, no simple chain
   * path is longer, and it is empty exactly when the graph is.
   */
  method LongestChain(graph: Graph) returns (r: seq<Vertex>)
    requires graph.Valid()
    ensures IsChainPath(graph.Labels(), r)
    ensures forall p: seq<Vertex> :: IsChainPath(graph.Labels(), p) ==> |p| <= |r|
    ensures |r| <= graph.NumVertices()
    ensures r == [] <==> graph.vertices == {}
  {
    var root := new Walker.Root(graph);
    r := root.Compute();
    assert r[0..] == r;
    forall p: seq<Vertex> | IsChainPath(graph.Labels(), p) && |p| > 0
      ensures |p| <= |r|
    {
      graph.ValidFacts();
      assert p[0].id in graph.Labels();
    }
  }

  /** Three stations "アイ", "イウ", "ウア" under distinct identifiers: visiting them in that order is a chain. */
  lemma CycleChain(m: map<Id, Label>, x: Id, y: Id, z: Id)
    requires x != y && y != z && x != z
    requires m == map[x := "アイ", y := "イウ", z := "ウア"]
    ensures IdChain(m, [x, y, z]) && |m| == 3
  {
    var q := [x, y, z];
    assert LastChar(m[q[0]]) == FirstChar(m[q[1]]);
    assert LastChar(m[q[1]]) == FirstChar(m[q[2]]);
    assert m.Keys == {x, y, z};
    ThreeDistinct(x, y, z);
  }

  lemma ThreeDistinct<T>(a: T, b: T, c: T)
    requires a != b && b != c && a != c
    ensures |{a, b, c}| == 3
  {
  }

  /**
   * Three stations whose labels chain in a cycle, "アイ" to "イウ" to "ウア" and
   * back: the longest chain visits each once and does not close the cycle.
   */
  method CycleOfThree(graph: Graph, x: Id, y: Id, z: Id) returns (r: seq<Vertex>)
    requires graph.Valid() && x != y && y != z && x != z
    requires graph.Labels() == map[x := "アイ", y := "イウ", z := "ウア"]
    ensures IsChainPath(graph.Labels(), r) && |r| == 3
  {
    r := LongestChain(graph);
    ghost var m := graph.Labels();
    CycleChain(m, x, y, z);
    PathOfChain(graph, m, [x, y, z]);
    assert |PathAlong(graph, m, [x, y, z])| <= |r|;
  }
}
