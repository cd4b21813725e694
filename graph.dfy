/**
 * The immutable graph snapshot of `Graph.java`: one vertex per Katakana word,
 * an identifier-to-vertex index, and the adjacency of the shiritori chaining
 * rule, all computed once when the snapshot is built and never changed.
 */
module Graphs {
  import opened Wrappers
  import opened Requires

  /** A vertex identifier; the source draws a random UUID, here the caller supplies distinct naturals. */
  type Id = nat

  /** One character of the Unicode Katakana block, U+30A0 to U+30FF. */
  predicate IsKatakana(c: char) {
    '\U{30A0}' <= c <= '\U{30FF}'
  }

  /** The pattern `\A[゠-ヿ]+\z`: one or more Katakana characters and nothing else. */
  predicate IsKatakanaWord(s: string) {
    |s| > 0 && forall i :: 0 <= i < |s| ==> IsKatakana(s[i])
  }

  /** A vertex label: a word that passed the Katakana check. */
  type Label = s: string | IsKatakanaWord(s) witness "\U{30A2}"

  /** `firstChar()`: the Katakana character a label starts with. */
  function FirstChar(s: Label): (c: char)
    ensures IsKatakana(c) && c in s
  {
    s[0]
  }

  /** `lastChar()`: the Katakana character a label ends with. */
  function LastChar(s: Label): (c: char)
    ensures IsKatakana(c) && c in s
  {
    s[|s| - 1]
  }

  /** `requireKatakana(s)`: returns iff `s` is a Katakana word, throws IllegalArgumentException otherwise. */
  function RequireKatakana(s: string): (r: Outcome<Failure>)
    ensures r.Pass? <==> IsKatakanaWord(s)
    ensures r.Fail? ==> r.error == IllegalArgument
  {
    RequireTrue(IsKatakanaWord(s))
  }

  /** `Map.get`: the value stored under `k`, or `null`. */
  function Get<K, V>(m: map<K, V>, k: K): (r: Option<V>)
    ensures r.Some? <==> k in m
    ensures r.Some? ==> r.value == m[k]
  {
    if k in m then Some(m[k]) else None
  }

  /**
   * A vertex: the snapshot it belongs to, its label and its identifier.
   * Two vertices are `Equals` when their identifiers are; a copy of a vertex
   * in a derived snapshot keeps identifier and label.
   */
  datatype Vertex = Vertex(graph: Graph, name: Label, id: Id) {

    /** `equals`: identity of identifiers, whatever the snapshot or the label. */
    predicate Equals(other: Vertex): (b: bool)
      ensures b <==> other.(id := id) == other
    {
      id == other.id
    }

    /** `duplicate(newGraph)`: the same identifier and label, owned by `newGraph`. */
    function Duplicate(newGraph: Graph): (r: Vertex)
      ensures r.graph == newGraph && r.name == name && r.Equals(this)
    {
      Vertex(newGraph, name, id)
    }

    /** `connectableTo`: a different vertex whose label starts with this label's last character. */
    predicate ConnectableTo(other: Vertex): (b: bool)
      ensures b <==> this != other && other.name[0] == name[|name| - 1]
    {
      this != other && LastChar(name) == FirstChar(other.name)
    }

    /**
     * `iterator()`: the adjacency set recorded for this vertex in its own snapshot;
     * a vertex its snapshot does not hold has none (a NullPointerException in the source).
     */
    function Neighbors(): (r: Result<set<Vertex>, Failure>)
      reads graph
      ensures r.Ok? <==> this in graph.edges
      ensures graph.Valid() && this in graph.vertices ==>
        r.Ok? && r.value <= graph.vertices &&
        forall w :: w in graph.vertices ==> (w in r.value <==> ConnectableTo(w))
    {
      if this in graph.edges then Ok(graph.edges[this]) else Err(NullPointer)
    }
  }

  /** The identifiers of a set of vertices. */
  function Ids(vs: set<Vertex>): set<Id> {
    set v | v in vs :: v.id
  }

  /** A Java `Set<Vertex>` holds no two vertices that are `equals`, i.e. no two with one identifier. */
  ghost predicate IdsDistinct(vs: set<Vertex>) {
    forall u, v :: u in vs && v in vs && u.id == v.id ==> u == v
  }

  /** The vertices of `vs` that `u` connects to. */
  function Adjacent(vs: set<Vertex>, u: Vertex): set<Vertex> {
    set w | w in vs && u.ConnectableTo(w)
  }

  lemma {:induction false} CardIds(vs: set<Vertex>)
    requires IdsDistinct(vs)
    ensures |Ids(vs)| == |vs|
  {
    if vs != {} {
      var v :| v in vs;
      var rest := vs - {v};
      CardIds(rest);
      assert Ids(vs) == Ids(rest) + {v.id};
    }
  }

  class Graph {
    var vertices: set<Vertex>
    var mappings: map<Id, Vertex>
    var edges: map<Vertex, set<Vertex>>

    /**
     * The snapshot invariant: every vertex belongs to this snapshot, `mappings`
     * indexes the vertices by identifier, and `edges` is exactly the chaining rule.
     */
    ghost predicate Valid()
      reads this
    {
      (forall v :: v in vertices ==> v.graph == this) &&
      (forall v :: v in vertices ==> v.id in mappings && mappings[v.id] == v) &&
      (forall id :: id in mappings ==> mappings[id] in vertices && mappings[id].id == id) &&
      edges.Keys == vertices &&
      (forall u :: u in vertices ==> edges[u] == Adjacent(vertices, u))
    }

    /** The abstract snapshot: identifier to label. */
    ghost function Labels(): map<Id, Label>
      reads this
    {
      map id | id in mappings :: mappings[id].name
    }

    /** A valid snapshot's vertices have distinct identifiers and `Labels` lists exactly them. */
    lemma ValidFacts()
      requires Valid()
      ensures IdsDistinct(vertices)
      ensures Labels().Keys == Ids(vertices)
      ensures forall v :: v in vertices ==> v.id in Labels() && Labels()[v.id] == v.name
      ensures forall id :: id in Labels() ==> mappings[id] in vertices && mappings[id].name == Labels()[id]
    {
      forall u, v | u in vertices && v in vertices && u.id == v.id ensures u == v {
        assert mappings[u.id] == u;
      }
    }

    /** `numVertices()`: as many vertices as distinct identifiers. */
    function NumVertices(): (n: nat)
      reads this
      requires Valid()
      ensures n == |Labels()|
    {
      ValidFacts(); CardIds(vertices); |vertices|
    }

    /** `buildMappings`: the index from identifier to vertex, filled one vertex at a time. */
    static method BuildMappings(vs: set<Vertex>) returns (m: map<Id, Vertex>)
      requires IdsDistinct(vs)
      ensures forall v :: v in vs ==> v.id in m && m[v.id] == v
      ensures forall id :: id in m ==> m[id] in vs && m[id].id == id
    {
      m := map[];
      var rest := vs;
      while rest != {}
        invariant rest <= vs
        invariant forall v :: v in vs - rest ==> v.id in m && m[v.id] == v
        invariant forall id :: id in m ==> m[id] in vs - rest && m[id].id == id
        decreases |rest|
      {
        var v :| v in rest;
        m := m[v.id := v];
        rest := rest - {v};
      }
    }

    /** `buildEdges`: one empty adjacency set per vertex, then every ordered pair tested with `connectableTo`. */
    static method BuildEdges(vs: set<Vertex>) returns (e: map<Vertex, set<Vertex>>)
      ensures e.Keys == vs
      ensures forall u :: u in vs ==> e[u] == Adjacent(vs, u)
    {
      e := map u | u in vs :: {};
      var outer := vs;
      while outer != {}
        invariant outer <= vs
        invariant e.Keys == vs
        invariant forall u :: u in vs - outer ==> e[u] == Adjacent(vs, u)
        invariant forall u :: u in outer ==> e[u] == {}
        decreases |outer|
      {
        var u :| u in outer;
        e := ConnectFrom(vs, u, e);
        outer := outer - {u};
      }
    }

    /** The inner loop of `buildEdges`: every `v` with `u.connectableTo(v)` is added to `u`'s set, which starts empty. */
    static method ConnectFrom(vs: set<Vertex>, u: Vertex, e0: map<Vertex, set<Vertex>>) returns (e: map<Vertex, set<Vertex>>)
      requires u in e0 && e0[u] == {}
      ensures e == e0[u := Adjacent(vs, u)]
    {
      e := e0;
      var inner := vs;
      while inner != {}
        invariant inner <= vs
        invariant e.Keys == e0.Keys && forall x :: x in e0 && x != u ==> e[x] == e0[x]
        invariant e[u] == set w | w in vs - inner && u.ConnectableTo(w)
        decreases |inner|
      {
        var v :| v in inner;
        if u.ConnectableTo(v) {
          e := e[u := e[u] + {v}];
        }
        inner := inner - {v};
      }
      assert vs - inner == vs;
      assert e[u] == Adjacent(vs, u);
      assert e.Keys == e0[u := Adjacent(vs, u)].Keys;
    }

    /** The root snapshot over already-checked labels, the i-th label under the i-th identifier. */
    constructor (labels: seq<Label>, ids: seq<Id>)
      requires |ids| == |labels|
      requires forall i, j :: 0 <= i < j < |ids| ==> ids[i] != ids[j]
      ensures Valid()
      ensures vertices == set i | 0 <= i < |labels| :: Vertex(this, labels[i], ids[i])
      ensures |vertices| == |labels|
    {
      new;
      var vs := NewVertices(this, labels, ids);
      vertices := vs;
      mappings := BuildMappings(vs);
      edges := BuildEdges(vs);
    }

    /** The stream of `new Vertex(this, name)`, one per label, collected into a set. */
    static method NewVertices(g: Graph, labels: seq<Label>, ids: seq<Id>) returns (vs: set<Vertex>)
      requires |ids| == |labels|
      requires forall i, j :: 0 <= i < j < |ids| ==> ids[i] != ids[j]
      ensures vs == set i | 0 <= i < |labels| :: Vertex(g, labels[i], ids[i])
      ensures |vs| == |labels| && IdsDistinct(vs)
      ensures forall v :: v in vs ==> v.graph == g
    {
      vs := {};
      for i := 0 to |labels|
        invariant vs == set k | 0 <= k < i :: Vertex(g, labels[k], ids[k])
        invariant |vs| == i
      {
        assert Vertex(g, labels[i], ids[i]) !in vs;
        vs := vs + {Vertex(g, labels[i], ids[i])};
      }
    }

    /** The private copy constructor: a copy of every vertex of `vs`, owned by the new snapshot. */
    constructor Derive(vs: set<Vertex>)
      requires IdsDistinct(vs)
      ensures Valid()
      ensures vertices == set v | v in vs :: v.Duplicate(this)
    {
      new;
      vertices := set v | v in vs :: v.Duplicate(this);
      mappings := BuildMappings(vertices);
      edges := BuildEdges(vertices);
    }

    /**
     * The public constructor: every token is checked to be a Katakana word (one
     * bad token aborts the whole construction with IllegalArgumentException);
     * otherwise one vertex per token, the i-th token labelled with `ids[i]`.
     */
    static method Build(tokens: seq<string>, ids: seq<Id>) returns (r: Result<Graph, Failure>)
      requires |ids| == |tokens|
      requires forall i, j :: 0 <= i < j < |ids| ==> ids[i] != ids[j]
      ensures r.Err? <==> exists i :: 0 <= i < |tokens| && !IsKatakanaWord(tokens[i])
      ensures r.Err? ==> r.error == IllegalArgument
      ensures r.Ok? ==> fresh(r.value) && r.value.Valid() && |r.value.vertices| == |tokens|
      ensures r.Ok? ==> r.value.vertices == set i | 0 <= i < |tokens| :: Vertex(r.value, tokens[i], ids[i])
    {
      var labels: seq<Label> := [];
      for i := 0 to |tokens|
        invariant labels == tokens[..i]
      {
        var checked := RequireKatakana(tokens[i]);
        if checked.Fail? {
          return Err(checked.error);
        }
        labels := labels + [tokens[i]];
      }
      assert labels == tokens;
      var g := new Graph(labels, ids);
      return Ok(g);
    }

    /** A token in Hiragana, "あおばだい", makes the construction fail with IllegalArgumentException. */
    static method RejectsHiragana() returns (r: Result<Graph, Failure>)
      ensures r == Err(IllegalArgument)
    {
      var tokens := ["あおばだい"];
      assert !IsKatakana(tokens[0][0]);
      r := Build(tokens, [0]);
    }

    /** `vertices.contains(v)`: some vertex here `equals` v. */
    predicate Contains(v: Vertex): (b: bool)
      reads this
      ensures Valid() ==> (b <==> v.id in Labels())
    {
      exists u :: u in vertices && u.Equals(v)
    }

    /**
     * `subGraph(v)`: v must belong to this snapshot, by reference and by membership
     * (IllegalArgumentException otherwise); the result is a new snapshot holding a
     * copy of every other vertex. The receiver is not changed.
     */
    method SubGraph(v: Vertex) returns (r: Result<Graph, Failure>)
      requires Valid()
      ensures r.Ok? <==> v.graph == this && v.id in Labels()
      ensures r.Err? ==> r.error == IllegalArgument
      ensures r.Ok? ==> fresh(r.value) && Removes(this, r.value, v.id)
      ensures unchanged(this)
    {
      ValidFacts();
      var same := RequireSame(this, v.graph);
      if same.Fail? {
        return Err(same.error);
      }
      var contained := RequireTrue(Contains(v));
      if contained.Fail? {
        return Err(contained.error);
      }
      var newVertices := vertices;
      newVertices := set u | u in newVertices && !u.Equals(v);
      var g := new Graph.Derive(newVertices);
      return Ok(g);
    }

    /**
     * `find(w)`: w must come from another snapshot (IllegalArgumentException
     * otherwise); the result is the vertex here with w's identifier, or
     * NoSuchElementException when there is none.
     */
    function Find(w: Vertex): (r: Result<Vertex, Failure>)
      reads this
      ensures w.graph == this ==> r == Err(IllegalArgument)
      ensures w.graph != this ==> (r.Ok? <==> w.id in Labels())
      ensures r.Err? && w.graph != this ==> r.error == NoSuchElement
      ensures Valid() && r.Ok? ==> r.value in vertices && r.value.Equals(w) && r.value.name == Labels()[w.id]
    {
      var notSame := RequireNotSame(this, w.graph);
      if notSame.Fail? then Err(notSame.error) else RequireFound(Get(mappings, w.id))
    }
  }

  /** `s` is what `g.subGraph` makes of `g` when it removes the vertex with identifier `id`. */
  ghost predicate Removes(g: Graph, s: Graph, id: Id)
    reads g, s
  {
    g.Valid() && s.Valid() && s != g && id in g.Labels() &&
    s.vertices == set u | u in g.vertices && u.id != id :: u.Duplicate(s)
  }
}

/** What `subGraph` and `find` guarantee across two snapshots, one derived from the other. */
module Derivation {
  import opened Requires
  import opened Wrappers
  import opened Graphs

  /** Inside one snapshot, `equals` (same identifier) is exactly being the same vertex. */
  lemma EqualsIsIdentity(g: Graph, u: Vertex, w: Vertex)
    requires g.Valid() && u in g.vertices && w in g.vertices
    ensures u.Equals(w) <==> u == w
  {
    g.ValidFacts();
  }

  /**
   * A derived snapshot labels every identifier of its parent but the removed
   * one exactly as the parent does, and has one vertex fewer.
   */
  lemma RemovedLabels(g: Graph, s: Graph, id: Id)
    requires Removes(g, s, id)
    ensures s.Labels() == g.Labels() - {id}
    ensures s.NumVertices() == g.NumVertices() - 1
    ensures |s.vertices| == |g.vertices| - 1
  {
    var m, n := g.Labels(), s.Labels();
    forall k | k in n ensures k in m && k != id && n[k] == m[k] {
      var x := s.mappings[k];
      assert x in s.vertices && x.id == k;
      var u :| u in g.vertices && u.id != id && x == u.Duplicate(s);
      assert g.mappings[u.id] == u;
    }
    forall k | k in m && k != id ensures k in n {
      var u := g.mappings[k];
      assert u.Duplicate(s) in s.vertices;
    }
    assert n == m - {id};
    assert |n.Keys| == |m.Keys - {id}|;
  }

  /**
   * A snapshot built from labels and identifiers labels the i-th identifier with
   * the i-th label, and holds no other identifier.
   */
  lemma BuiltLabels(g: Graph, labels: seq<Label>, ids: seq<Id>)
    requires |ids| == |labels| && forall i, j :: 0 <= i < j < |ids| ==> ids[i] != ids[j]
    requires g.Valid() && g.vertices == set i | 0 <= i < |labels| :: Vertex(g, labels[i], ids[i])
    ensures forall i :: 0 <= i < |ids| ==> ids[i] in g.Labels() && g.Labels()[ids[i]] == labels[i]
    ensures forall k :: k in g.Labels() ==> exists i :: 0 <= i < |ids| && ids[i] == k
  {
    g.ValidFacts();
    forall i | 0 <= i < |ids| ensures ids[i] in g.Labels() && g.Labels()[ids[i]] == labels[i] {
      assert Vertex(g, labels[i], ids[i]) in g.vertices;
    }
    forall k | k in g.Labels() ensures exists i :: 0 <= i < |ids| && ids[i] == k {
      var u := g.mappings[k];
      var i :| 0 <= i < |labels| && u == Vertex(g, labels[i], ids[i]);
    }
  }

  /** No vertex is its own neighbour, so every adjacency set leaves its owner out. */
  lemma NoSelfLoops(g: Graph, u: Vertex)
    requires g.Valid() && u in g.vertices
    ensures u.Neighbors().Ok? && u !in u.Neighbors().value
  {
  }

  /**
   * Two stations: "アオバダイ" ends with the character "イケガミ" starts with,
   * so the first links to the second and not the other way round.
   */
  lemma TwoStations(g: Graph, a: Vertex, b: Vertex)
    requires g.Valid() && g.vertices == {a, b}
    requires a.name == "アオバダイ" && b.name == "イケガミ"
    ensures a.Neighbors() == Ok({b})
    ensures b.Neighbors() == Ok({})
  {
    assert LastChar(a.name) == FirstChar(b.name);
    assert LastChar(b.name) != FirstChar(a.name);
    assert a.Neighbors().value == {b};
    assert !b.ConnectableTo(a) && !b.ConnectableTo(b);
    assert Adjacent(g.vertices, b) == {};
  }

  /**
   * `find` across a derivation: a vertex of the parent cannot be looked up in the
   * parent itself; in the derived snapshot the removed vertex is not found and
   * every other one is found as its own copy (equal identifier, equal label).
   */
  lemma FindAcross(g: Graph, s: Graph, id: Id, w: Vertex)
    requires Removes(g, s, id) && w in g.vertices
    ensures g.Find(w) == Err(IllegalArgument)
    ensures w.id == id ==> s.Find(w) == Err(NoSuchElement)
    ensures w.id != id ==> s.Find(w) == Ok(w.Duplicate(s))
  {
    RemovedLabels(g, s, id);
    g.ValidFacts();
    s.ValidFacts();
    if w.id != id {
      assert w.Duplicate(s) in s.vertices;
    }
  }
}
