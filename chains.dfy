/**
 * What a shiritori chain is, independently of how the search finds one: a
 * sequence of vertices whose identifiers and labels are those of a snapshot,
 * no identifier twice, each label starting with the last character of the
 * label before it.
 */
module Chains {
  import opened Graphs

  /** The chaining rule on labels: `u`'s last character is `w`'s first. */
  predicate Linked(u: Vertex, w: Vertex) {
    LastChar(u.name) == FirstChar(w.name)
  }

  /** Every pair of consecutive vertices obeys the chaining rule. */
  ghost predicate Chained(p: seq<Vertex>) {
    forall i :: 0 < i < |p| ==> Linked(p[i - 1], p[i])
  }

  /** No vertex (by identifier) occurs twice. */
  ghost predicate DistinctIds(p: seq<Vertex>) {
    forall i, j :: 0 <= i < j < |p| ==> p[i].id != p[j].id
  }

  /** Every vertex is one of the snapshot `m`, with the label `m` gives it. */
  ghost predicate Within(m: map<Id, Label>, p: seq<Vertex>) {
    forall i :: 0 <= i < |p| ==> p[i].id in m && m[p[i].id] == p[i].name
  }

  /** A simple chain path of the snapshot `m`. */
  ghost predicate IsChainPath(m: map<Id, Label>, p: seq<Vertex>) {
    Chained(p) && DistinctIds(p) && Within(m, p)
  }

  /**
   * The same notion on identifiers alone: a chain of identifiers of `m`, none
   * twice, each label linking to the next.
   */
  ghost predicate IdChain(m: map<Id, Label>, q: seq<Id>) {
    (forall i :: 0 <= i < |q| ==> q[i] in m) &&
    (forall i, j :: 0 <= i < j < |q| ==> q[i] != q[j]) &&
    (forall i :: 0 < i < |q| ==> LastChar(m[q[i - 1]]) == FirstChar(m[q[i]]))
  }

  /** No chain of `m` that can follow a vertex labelled `from` is longer than `n`. */
  ghost predicate Bounded(m: map<Id, Label>, from: Label, n: int) {
    forall q: seq<Id> :: IdChain(m, q) && |q| > 0 && LastChar(from) == FirstChar(m[q[0]]) ==> |q| <= n
  }

  /** The identifiers along a path, in order. */
  ghost function IdsAlong(p: seq<Vertex>): (q: seq<Id>)
    ensures |q| == |p| && forall i :: 0 <= i < |p| ==> q[i] == p[i].id
  {
    seq(|p|, i requires 0 <= i < |p| => p[i].id)
  }

  /** The vertices of snapshot `g` that a chain of identifiers of `m` names. */
  ghost function PathAlong(g: Graph, m: map<Id, Label>, q: seq<Id>): (p: seq<Vertex>)
    requires forall i :: 0 <= i < |q| ==> q[i] in m
    ensures |p| == |q| && forall i :: 0 <= i < |q| ==> p[i].id == q[i] && p[i].name == m[q[i]]
  {
    seq(|q|, i requires 0 <= i < |q| => Vertex(g, m[q[i]], q[i]))
  }

  /** A path gives a chain of identifiers of the same length. */
  lemma ChainOfPath(m: map<Id, Label>, p: seq<Vertex>)
    requires IsChainPath(m, p)
    ensures IdChain(m, IdsAlong(p))
  {
    var q := IdsAlong(p);
    forall i | 0 < i < |q| ensures LastChar(m[q[i - 1]]) == FirstChar(m[q[i]]) {
      assert Linked(p[i - 1], p[i]);
    }
  }

  /** A chain of identifiers gives a path of the same length. */
  lemma PathOfChain(g: Graph, m: map<Id, Label>, q: seq<Id>)
    requires IdChain(m, q)
    ensures IsChainPath(m, PathAlong(g, m, q))
  {
  }

  /** The identifiers a path visits. */
  ghost function PathIds(p: seq<Vertex>): set<Id> {
    set i | 0 <= i < |p| :: p[i].id
  }

  lemma {:induction false} PathIdsCard(p: seq<Vertex>)
    requires DistinctIds(p)
    ensures |PathIds(p)| == |p|
  {
    if p != [] {
      var q := p[..|p| - 1];
      var x := p[|p| - 1].id;
      assert DistinctIds(q) by {
        forall i, j | 0 <= i < j < |q| ensures q[i].id != q[j].id {
          assert q[i] == p[i] && q[j] == p[j];
        }
      }
      PathIdsCard(q);
      forall y | y in PathIds(p) ensures y in PathIds(q) + {x} {
        var i :| 0 <= i < |p| && p[i].id == y;
        if i < |q| {
          assert q[i] == p[i];
        }
      }
      forall y | y in PathIds(q) ensures y in PathIds(p) && y != x {
        var i :| 0 <= i < |q| && q[i].id == y;
        assert q[i] == p[i];
      }
      assert PathIds(p) == PathIds(q) + {x};
    }
  }

  lemma {:induction false} SubsetCard(a: set<Id>, b: set<Id>)
    requires a <= b
    ensures |a| <= |b|
  {
    if a != {} {
      var x :| x in a;
      SubsetCard(a - {x}, b - {x});
    }
  }

  /** A simple path visits each vertex at most once, so it is no longer than the snapshot. */
  lemma PathLength(m: map<Id, Label>, p: seq<Vertex>)
    requires IsChainPath(m, p)
    ensures |p| <= |m|
  {
    PathIdsCard(p);
    SubsetCard(PathIds(p), m.Keys);
  }

  /** Dropping the first vertex of a path leaves a path of the snapshot without that vertex. */
  lemma PathTail(m: map<Id, Label>, p: seq<Vertex>)
    requires IsChainPath(m, p) && |p| > 0
    ensures IsChainPath(m - {p[0].id}, p[1..])
  {
    var t := p[1..];
    forall i | 0 <= i < |t| ensures t[i].id in m - {p[0].id} {
      assert t[i] == p[i + 1];
    }
  }

  /** A vertex of `m` in front of a path of `m` without it, linked to the path's start, is a path of `m`. */
  lemma PathCons(m: map<Id, Label>, v: Vertex, q: seq<Vertex>)
    requires v.id in m && m[v.id] == v.name
    requires IsChainPath(m - {v.id}, q)
    requires |q| > 0 ==> Linked(v, q[0])
    ensures IsChainPath(m, [v] + q)
  {
    var p := [v] + q;
    forall i | 0 < i < |p| ensures Linked(p[i - 1], p[i]) {
      if i > 1 {
        assert p[i - 1] == q[i - 2] && p[i] == q[i - 1];
      }
    }
    forall i, j | 0 <= i < j < |p| ensures p[i].id != p[j].id {
      if i > 0 {
        assert p[i] == q[i - 1] && p[j] == q[j - 1];
      } else {
        assert p[j] == q[j - 1];
      }
    }
  }
}
