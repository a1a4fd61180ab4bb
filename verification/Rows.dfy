/** The rows of the graph tables, and the fact set one file contributes. */
module Rows {

  datatype Target = Resolved(id: string) | Unresolved(name: string)

  datatype Resolution = ExactStatic | InferredStatic | Annotated | Missing

  /** The document stored beside a node's columns. */
  datatype NodeBody = NodeBody(
    name: string, qualifiedName: string, language: string, file: string, startLine: int, endLine: int,
    attributes: map<string, string>)

  datatype NodeRow = NodeRow(kind: string, qualifiedName: string, body: NodeBody)

  datatype Evidence = Evidence(file: string, startLine: nat, endLine: nat, rule: string)

  datatype EdgeRow = EdgeRow(
    source: string, target: Target, targetProject: string, kind: string, resolution: Resolution,
    evidence: seq<Evidence>, analyzer: string)

  /** What one file owns in the graph tables, by primary key. */
  datatype Facts = Facts(nodes: map<string, NodeRow>, edges: map<string, EdgeRow>)

  const NO_FACTS := Facts(map[], map[])

  const MAX_NODES_PER_FILE := 20000
  const MAX_EDGES_PER_FILE := 100000

  /** The checks a fact set passes before it is stored.  Repeated keys, which the
      checks refuse too, cannot be written down as a map. */
  predicate Accepted(f: Facts) {
    && |f.nodes| <= MAX_NODES_PER_FILE && |f.edges| <= MAX_EDGES_PER_FILE
    && (forall n <- f.nodes :: n != "" && f.nodes[n].kind != "" && f.nodes[n].qualifiedName != "")
    && forall e <- f.edges ::
         && e != "" && f.edges[e].kind != ""
         && f.edges[e].source in f.nodes
         && (f.edges[e].target.Unresolved? <==> f.edges[e].resolution.Missing?)
  }

  /** Both endpoints of every edge are the file's own nodes. */
  predicate SelfContained(f: Facts) {
    forall e <- f.edges ::
      f.edges[e].source in f.nodes && (f.edges[e].target.Resolved? ==> f.edges[e].target.id in f.nodes)
  }

  predicate Disjoint(f: Facts, g: Facts) {
    f.nodes.Keys !! g.nodes.Keys && f.edges.Keys !! g.edges.Keys
  }

  ghost predicate Linked(edges: map<string, EdgeRow>, a: string, b: string) {
    exists e <- edges :: edges[e].source == a && edges[e].target == Resolved(b)
  }

  ghost predicate IsWalk(edges: map<string, EdgeRow>, walk: seq<string>) {
    forall i :: 0 <= i < |walk| - 1 ==> Linked(edges, walk[i], walk[i + 1])
  }

  ghost predicate Acyclic(edges: map<string, EdgeRow>) {
    forall walk :: |walk| > 1 && IsWalk(edges, walk) ==> walk[0] != walk[|walk| - 1]
  }

  /** All edges into one node start at one node. */
  ghost predicate OneParent(edges: map<string, EdgeRow>) {
    forall d <- edges, e <- edges :: edges[d].target.Resolved? && edges[d].target == edges[e].target ==>
      edges[d].source == edges[e].source
  }

  lemma {:induction false} WalksClimb(edges: map<string, EdgeRow>, rank: string -> nat, walk: seq<string>)
    requires forall a, b :: Linked(edges, a, b) ==> rank(a) < rank(b)
    requires |walk| > 1 && IsWalk(edges, walk)
    ensures rank(walk[0]) < rank(walk[|walk| - 1])
  {
    var n := |walk| - 1;
    assert Linked(edges, walk[n - 1], walk[n]);
    if n > 1 {
      forall i | 0 <= i < n - 1
        ensures Linked(edges, walk[..n][i], walk[..n][i + 1])
      {
        assert Linked(edges, walk[i], walk[i + 1]);
      }
      WalksClimb(edges, rank, walk[..n]);
    }
  }

  lemma RankedIsAcyclic(edges: map<string, EdgeRow>, rank: string -> nat)
    requires forall a, b :: Linked(edges, a, b) ==> rank(a) < rank(b)
    ensures Acyclic(edges)
  {
    forall walk | |walk| > 1 && IsWalk(edges, walk)
      ensures walk[0] != walk[|walk| - 1]
    {
      WalksClimb(edges, rank, walk);
    }
  }
}
