/**
 * `nodeMatchesSearch` of src/main.js: a node matches a query when the
 * lower-cased query occurs in the lower-cased name, id, description (when
 * there is one) or cluster name (when the node's group has a cluster).
 */
module Search {
  import opened Text
  import Graph

  /** `haystack.toLowerCase().includes(q)` for an already lower-cased `q`. */
  function Contains(haystack: string, q: string): bool {
    Includes(ToLower(haystack), q)
  }

  /** The search predicate as the source evaluates it, field by field. */
  function NodeMatchesSearch(node: Graph.Node, clusters: map<string, Graph.Cluster>, query: string): bool {
    var q := ToLower(query);
    || Contains(node.name, q)
    || Contains(node.id, q)
    || (node.description != "" && Contains(node.description, q))
    || (node.group in clusters && Contains(clusters[node.group].name, q))
  }

  /**
   * `q` occurs in `s` when letter case is ignored: some window of `s`
   * agrees with `q` character by character after lower-casing both.
   */
  ghost predicate OccursIgnoringCase(q: string, s: string) {
    exists k: nat :: k + |q| <= |s| && SameIgnoringCase(q, s, k)
  }

  predicate SameIgnoringCase(q: string, s: string, k: nat)
    requires k + |q| <= |s|
  {
    forall j :: 0 <= j < |q| ==> LowerChar(s[k + j]) == LowerChar(q[j])
  }

  /** Searching the lower-cased text for the lower-cased query is case-insensitive occurrence. */
  lemma ContainsIgnoringCase(s: string, query: string)
    ensures Contains(s, ToLower(query)) <==> OccursIgnoringCase(query, s)
  {
    var ls, lq := ToLower(s), ToLower(query);
    if Contains(s, lq) {
      var k: nat :| OccursAt(lq, ls, k);
      forall j | 0 <= j < |query|
        ensures LowerChar(s[k + j]) == LowerChar(query[j])
      {
        assert ls[k..k + |lq|][j] == ls[k + j];
      }
      assert SameIgnoringCase(query, s, k);
    }
    if OccursIgnoringCase(query, s) {
      var k: nat :| k + |query| <= |s| && SameIgnoringCase(query, s, k);
      assert ls[k..k + |lq|] == lq;
      assert OccursAt(lq, ls, k);
    }
  }

  /**
   * A node matches exactly when the query occurs, ignoring case, in its
   * name, its id, its non-empty description, or the name of its cluster.
   */
  lemma MatchesIff(node: Graph.Node, clusters: map<string, Graph.Cluster>, query: string)
    ensures NodeMatchesSearch(node, clusters, query) <==>
      || OccursIgnoringCase(query, node.name)
      || OccursIgnoringCase(query, node.id)
      || (node.description != "" && OccursIgnoringCase(query, node.description))
      || (node.group in clusters && OccursIgnoringCase(query, clusters[node.group].name))
  {
    ContainsIgnoringCase(node.name, query);
    ContainsIgnoringCase(node.id, query);
    ContainsIgnoringCase(node.description, query);
    if node.group in clusters {
      ContainsIgnoringCase(clusters[node.group].name, query);
    }
  }

  /** The empty query (a cleared search box) matches every node. */
  lemma EmptyQueryMatches(node: Graph.Node, clusters: map<string, Graph.Cluster>)
    ensures NodeMatchesSearch(node, clusters, "")
  {
    assert OccursAt("", ToLower(node.name), 0);
  }

  /** The query's letter case makes no difference. */
  lemma QueryCaseIrrelevant(node: Graph.Node, clusters: map<string, Graph.Cluster>, query: string)
    ensures NodeMatchesSearch(node, clusters, ToLower(query)) == NodeMatchesSearch(node, clusters, query)
  {
    ToLowerFixesLower(query);
  }

  /** A cluster's name makes its whole group match, even when no field of the node does. */
  lemma ClusterNameMatches(node: Graph.Node, clusters: map<string, Graph.Cluster>, query: string)
    requires node.group in clusters && OccursIgnoringCase(query, clusters[node.group].name)
    ensures NodeMatchesSearch(node, clusters, query)
  {
    ContainsIgnoringCase(clusters[node.group].name, query);
  }
}
