/**
 * The graph builder of api/notion.js: every database page becomes a node,
 * the first page of each group defines that group's cluster, and the
 * `[[label]]` markers in a page's blocks become links to other pages.
 *
 * The handler's two kinds of fetch are inputs here: `pages` is the list the
 * database query returned, and `fetched[i]` holds the blocks of page `i`, or
 * `None` when that request failed or its response was not OK. The
 * per-page callbacks run concurrently under `Promise.all`, but each one
 * updates `links` and `linkSet` without interruption after its last
 * `await`, so the only freedom is the order in which pages finish: the
 * model takes that order as the input `order`.
 */
module Graph {
  import opened Text
  import opened NotionBlocks
  import WikiLinks

  /**
   * The properties of one database page. A string is `""` where the
   * property, or the first run of its rich text, is missing; `weight` is the
   * `number` of the `Weight` property.
   */
  datatype Page = Page(
    id: string,
    slug: string,
    name: string,
    group: string,
    weight: Option<int>,
    description: string,
    color: string,
    bgLight: string,
    bgDark: string)

  datatype Node = Node(id: string, pageId: string, name: string, group: string, weight: int, description: string)

  datatype Cluster = Cluster(name: string, color: string, bgLight: string, bgDark: string)

  datatype Link = Link(source: string, target: string)

  /** JavaScript's `s || fallback` on a string property. */
  function OrElse(s: string, fallback: string): string {
    if s != "" then s else fallback
  }

  /**
   * The node of a page: its slug, or the page id when the slug is empty,
   * and defaults for the missing properties. The group is always lower-case
   * and the weight is never zero.
   */
  function NodeOf(p: Page): (n: Node)
    ensures p.slug != "" ==> n.id == p.slug
    ensures p.slug == "" ==> n.id == p.id
    ensures n.pageId == p.id && n.description == p.description
    ensures n.name != "" && (p.name != "" ==> n.name == p.name)
    ensures p.name == "" ==> n.name == "Untitled"
    ensures n.group != "" && HasNoUpper(n.group)
    ensures p.group != "" ==> n.group == ToLower(p.group)
    ensures p.group == "" ==> n.group == "meta"
    ensures n.weight != 0
    ensures p.weight.Some? && p.weight.value != 0 ==> n.weight == p.weight.value
    ensures p.weight.None? || p.weight.value == 0 ==> n.weight == 3
  {
    assert ToLower("meta") == "meta";
    var weight := if p.weight.Some? && p.weight.value != 0 then p.weight.value else 3;
    Node(OrElse(p.slug, p.id), p.id, OrElse(p.name, "Untitled"), ToLower(OrElse(p.group, "meta")), weight, p.description)
  }

  /**
   * The cluster a page creates for its (lower-cased) group: the group with
   * its first letter upper-cased as the name, and default colours.
   */
  function ClusterOf(group: string, p: Page): Cluster {
    Cluster(Capitalize(group), OrElse(p.color, "#6366f1"), OrElse(p.bgLight, "#e0e7ff"), OrElse(p.bgDark, "#1e1b4b"))
  }

  /**
   * The name is the group with its first letter upper-cased; each colour is
   * the page's own when set and the default otherwise.
   */
  lemma ClusterOfFields(group: string, p: Page)
    ensures var c := ClusterOf(group, p);
      && c.name == Capitalize(group)
      && |c.name| == |group|
      && (group != "" ==> c.name[0] == UpperChar(group[0]) && c.name[1..] == group[1..])
      && c.color != "" && (p.color != "" ==> c.color == p.color) && (p.color == "" ==> c.color == "#6366f1")
      && c.bgLight != "" && (p.bgLight != "" ==> c.bgLight == p.bgLight) && (p.bgLight == "" ==> c.bgLight == "#e0e7ff")
      && c.bgDark != "" && (p.bgDark != "" ==> c.bgDark == p.bgDark) && (p.bgDark == "" ==> c.bgDark == "#1e1b4b")
  {
    CapitalizeFirst(group);
  }

  /** The cluster the handler adds when no page belongs to the group `core`. */
  const CoreCluster := Cluster("Core", "#f59e0b", "#fef3c7", "#1c1917")

  /** Node `i` is the first of its group. */
  predicate FirstOfGroup(nodes: seq<Node>, i: nat)
    requires i < |nodes|
  {
    forall j :: 0 <= j < i ==> nodes[j].group != nodes[i].group
  }

  /** The ids of the nodes: the set of valid link targets. */
  function SlugSet(nodes: seq<Node>): set<string> {
    set i | 0 <= i < |nodes| :: nodes[i].id
  }

  /** The `clusters` object after the first `n` pages: a group's entry is written only when missing. */
  function ClustersUpTo(nodes: seq<Node>, pages: seq<Page>, n: nat): map<string, Cluster>
    requires n <= |nodes| && n <= |pages|
  {
    if n == 0 then map[]
    else
      var m := ClustersUpTo(nodes, pages, n - 1);
      var g := nodes[n - 1].group;
      if g in m then m else m[g := ClusterOf(g, pages[n - 1])]
  }

  /** The clusters hold exactly one entry per group of the first `n` nodes. */
  lemma {:induction false} ClustersKeys(nodes: seq<Node>, pages: seq<Page>, n: nat)
    requires n <= |nodes| && n <= |pages|
    ensures forall g :: g in ClustersUpTo(nodes, pages, n) <==> exists i :: 0 <= i < n && nodes[i].group == g
  {
    if n > 0 {
      ClustersKeys(nodes, pages, n - 1);
      forall g | g in ClustersUpTo(nodes, pages, n)
        ensures exists i :: 0 <= i < n && nodes[i].group == g
      {
        if g == nodes[n - 1].group {
          assert nodes[n - 1].group == g;
        } else {
          assert g in ClustersUpTo(nodes, pages, n - 1);
          var i :| 0 <= i < n - 1 && nodes[i].group == g;
          assert nodes[i].group == g;
        }
      }
    }
  }

  /**
   * The entry of each group is the one its first page wrote: later pages of
   * the group never overwrite it.
   */
  lemma ClustersFirstWriter(nodes: seq<Node>, pages: seq<Page>, n: nat)
    requires n <= |nodes| && n <= |pages|
    ensures forall i :: 0 <= i < n && FirstOfGroup(nodes, i) ==>
      nodes[i].group in ClustersUpTo(nodes, pages, n) &&
      ClustersUpTo(nodes, pages, n)[nodes[i].group] == ClusterOf(nodes[i].group, pages[i])
  {
    forall i | 0 <= i < n && FirstOfGroup(nodes, i)
      ensures nodes[i].group in ClustersUpTo(nodes, pages, n)
      ensures ClustersUpTo(nodes, pages, n)[nodes[i].group] == ClusterOf(nodes[i].group, pages[i])
    {
      FirstWriterAt(nodes, pages, n, i);
    }
  }

  /** One first node of a group: its entry survives every later page. */
  lemma {:induction false} FirstWriterAt(nodes: seq<Node>, pages: seq<Page>, n: nat, i: nat)
    requires i < n <= |nodes| && n <= |pages| && FirstOfGroup(nodes, i)
    ensures nodes[i].group in ClustersUpTo(nodes, pages, n)
    ensures ClustersUpTo(nodes, pages, n)[nodes[i].group] == ClusterOf(nodes[i].group, pages[i])
  {
    if i == n - 1 {
      GroupNotYetSeen(nodes, pages, i);
      ClustersWrite(nodes, pages, i);
    } else {
      FirstWriterAt(nodes, pages, n - 1, i);
      ClustersKeep(nodes, pages, n - 1, nodes[i].group);
    }
  }

  /** A page whose group has no entry yet writes its own cluster. */
  lemma ClustersWrite(nodes: seq<Node>, pages: seq<Page>, k: nat)
    requires k < |nodes| && k < |pages| && nodes[k].group !in ClustersUpTo(nodes, pages, k)
    ensures nodes[k].group in ClustersUpTo(nodes, pages, k + 1)
    ensures ClustersUpTo(nodes, pages, k + 1)[nodes[k].group] == ClusterOf(nodes[k].group, pages[k])
  {
  }

  /** An entry, once written, is left as it is by the next page. */
  lemma ClustersKeep(nodes: seq<Node>, pages: seq<Page>, k: nat, g: string)
    requires k < |nodes| && k < |pages| && g in ClustersUpTo(nodes, pages, k)
    ensures g in ClustersUpTo(nodes, pages, k + 1)
    ensures ClustersUpTo(nodes, pages, k + 1)[g] == ClustersUpTo(nodes, pages, k)[g]
  {
  }

  /** The first node of a group finds no entry for it. */
  lemma GroupNotYetSeen(nodes: seq<Node>, pages: seq<Page>, i: nat)
    requires i < |nodes| && i < |pages| && FirstOfGroup(nodes, i)
    ensures nodes[i].group !in ClustersUpTo(nodes, pages, i)
  {
    ClustersKeys(nodes, pages, i);
  }

  /** The clusters after `n` pages depend on the first `n` nodes only. */
  lemma {:induction false} ClustersAgree(a: seq<Node>, b: seq<Node>, pages: seq<Page>, n: nat)
    requires n <= |a| && n <= |b| && n <= |pages|
    requires forall i :: 0 <= i < n ==> a[i] == b[i]
    ensures ClustersUpTo(a, pages, n) == ClustersUpTo(b, pages, n)
  {
    if n > 0 {
      ClustersAgree(a, b, pages, n - 1);
    }
  }

  /** One more page: its group's entry is added when missing. */
  lemma ClustersStep(before: seq<Node>, after: seq<Node>, pages: seq<Page>, k: nat)
    requires k < |after| && k <= |before| && k < |pages|
    requires forall i :: 0 <= i < k ==> before[i] == after[i]
    ensures var m := ClustersUpTo(before, pages, k);
      ClustersUpTo(after, pages, k + 1) ==
        if after[k].group in m then m else m[after[k].group := ClusterOf(after[k].group, pages[k])]
  {
    ClustersAgree(before, after, pages, k);
  }

  /**
   * The first loop of the handler: one node per page, in page order (ids
   * are not deduplicated), the set of valid slugs, and the clusters.
   */
  method CollectPages(pages: seq<Page>) returns (nodes: seq<Node>, clusters: map<string, Cluster>, validSlugs: set<string>)
    ensures |nodes| == |pages|
    ensures forall i :: 0 <= i < |pages| ==> nodes[i] == NodeOf(pages[i])
    ensures validSlugs == SlugSet(nodes)
    ensures clusters == ClustersUpTo(nodes, pages, |pages|)
  {
    nodes, clusters, validSlugs := [], map[], {};
    for k := 0 to |pages|
      invariant |nodes| == k
      invariant forall i :: 0 <= i < k ==> nodes[i] == NodeOf(pages[i])
      invariant validSlugs == SlugSet(nodes)
      invariant clusters == ClustersUpTo(nodes, pages, k)
    {
      nodes, clusters, validSlugs := AddPage(pages, k, nodes, clusters, validSlugs);
    }
  }

  /**
   * The body of the first loop for page `k`: push its node, add its slug,
   * and create its group's cluster unless the group already has one.
   */
  method AddPage(pages: seq<Page>, k: nat, nodes: seq<Node>, clusters: map<string, Cluster>, validSlugs: set<string>)
    returns (nodes': seq<Node>, clusters': map<string, Cluster>, validSlugs': set<string>)
    requires k < |pages| && |nodes| == k
    requires forall i :: 0 <= i < k ==> nodes[i] == NodeOf(pages[i])
    requires validSlugs == SlugSet(nodes)
    requires clusters == ClustersUpTo(nodes, pages, k)
    ensures |nodes'| == k + 1
    ensures forall i :: 0 <= i <= k ==> nodes'[i] == NodeOf(pages[i])
    ensures validSlugs' == SlugSet(nodes')
    ensures clusters' == ClustersUpTo(nodes', pages, k + 1)
  {
    var node := NodeOf(pages[k]);
    nodes' := nodes + [node];
    SlugSetSnoc(nodes, node);
    validSlugs' := validSlugs + {node.id};
    ClustersStep(nodes, nodes', pages, k);
    clusters' := clusters;
    if node.group !in clusters' {
      clusters' := clusters'[node.group := ClusterOf(node.group, pages[k])];
    }
  }

  /** Pushing a node keeps the earlier ones and adds its id to the valid targets. */
  lemma SlugSetSnoc(nodes: seq<Node>, node: Node)
    ensures forall i :: 0 <= i < |nodes| ==> (nodes + [node])[i] == nodes[i]
    ensures SlugSet(nodes + [node]) == SlugSet(nodes) + {node.id}
  {
    assert (nodes + [node])[|nodes|] == node;
  }

  // Wiki-link extraction.

  /** A label as the extractor keeps it: trimmed and without upper-case letters. */
  predicate Normalized(l: string) {
    IsTrimmed(l) && HasNoUpper(l)
  }

  /** `f` applied to each label, in order. */
  function MapLabels(ls: seq<string>, f: string -> string): (r: seq<string>)
    ensures |r| == |ls|
    ensures forall i :: 0 <= i < |ls| ==> r[i] == f(ls[i])
  {
    if ls == [] then [] else [f(ls[0])] + MapLabels(ls[1..], f)
  }

  /** The normalised labels of the `[[label]]` matches in one text, in match order. */
  function TextLabels(text: string): seq<string> {
    MapLabels(WikiLinks.Labels(WikiLinks.Tokenize(text)), Normalize)
  }

  function RunsLabels(runs: seq<RichText>): seq<string> {
    if runs == [] then [] else TextLabels(runs[0].plainText) + RunsLabels(runs[1..])
  }

  /** The labels of a block: those of its `rich_text`, then those of its `caption`. */
  function BlockLabels(b: Block): seq<string> {
    RunsLabels(RichTextOf(b)) + RunsLabels(CaptionOf(b))
  }

  function BlocksLabels(bs: seq<Block>): seq<string> {
    if bs == [] then [] else BlockLabels(bs[0]) + BlocksLabels(bs[1..])
  }

  /** Every label found in a text is trimmed and lower-case. */
  lemma TextLabelsNormalized(text: string)
    ensures forall x :: x in TextLabels(text) ==> Normalized(x)
  {
    var ls := WikiLinks.Labels(WikiLinks.Tokenize(text));
    var r := TextLabels(text);
    forall i | 0 <= i < |r| ensures Normalized(r[i]) {
      assert r[i] == Normalize(ls[i]);
    }
  }

  lemma {:induction false} RunsLabelsNormalized(runs: seq<RichText>)
    ensures forall x :: x in RunsLabels(runs) ==> Normalized(x)
    decreases |runs|
  {
    if runs != [] {
      TextLabelsNormalized(runs[0].plainText);
      RunsLabelsNormalized(runs[1..]);
    }
  }

  /** Every label found in a page's blocks is trimmed and lower-case. */
  lemma {:induction false} BlocksLabelsNormalized(bs: seq<Block>)
    ensures forall x :: x in BlocksLabels(bs) ==> Normalized(x)
    decreases |bs|
  {
    if bs != [] {
      RunsLabelsNormalized(RichTextOf(bs[0]));
      RunsLabelsNormalized(CaptionOf(bs[0]));
      BlocksLabelsNormalized(bs[1..]);
    }
  }

  predicate NoDuplicates(s: seq<string>) {
    forall i, j :: 0 <= i < j < |s| ==> s[i] != s[j]
  }

  /**
   * Adding `xs` one by one to a `Set`, listed in insertion order as
   * `Array.from` does.
   */
  function InsertAll(acc: seq<string>, xs: seq<string>): seq<string>
    decreases |xs|
  {
    if xs == [] then acc else InsertAll(AddLabel(acc, xs[0]), xs[1..])
  }

  /** `Set.prototype.add`: `x` goes at the end unless it is already there. */
  function AddLabel(acc: seq<string>, x: string): seq<string> {
    if x in acc then acc else acc + [x]
  }

  /**
   * The result holds each element of `acc` and `xs` once, keeps `acc` in
   * front, and adds nothing else.
   */
  lemma {:induction false} InsertAllSet(acc: seq<string>, xs: seq<string>)
    ensures forall x :: x in InsertAll(acc, xs) <==> x in acc || x in xs
    ensures NoDuplicates(acc) ==> NoDuplicates(InsertAll(acc, xs))
    ensures acc <= InsertAll(acc, xs)
    decreases |xs|
  {
    if xs != [] {
      var next := if xs[0] in acc then acc else acc + [xs[0]];
      InsertAllSet(next, xs[1..]);
      assert xs == [xs[0]] + xs[1..];
      if NoDuplicates(acc) && xs[0] !in acc {
        assert NoDuplicates(next);
      }
    }
  }

  /** Adding one element and then the rest is adding them all. */
  lemma InsertAllCons(acc: seq<string>, x: string, xs: seq<string>)
    ensures InsertAll(acc, [x] + xs) == InsertAll(AddLabel(acc, x), xs)
  {
    assert ([x] + xs)[1..] == xs;
  }

  lemma {:induction false} InsertAllAppend(acc: seq<string>, a: seq<string>, b: seq<string>)
    ensures InsertAll(acc, a + b) == InsertAll(InsertAll(acc, a), b)
    decreases |a|
  {
    if a == [] {
      assert a + b == b;
    } else {
      assert (a + b)[0] == a[0] && (a + b)[1..] == a[1..] + b;
      var next := if a[0] in acc then acc else acc + [a[0]];
      InsertAllAppend(next, a[1..], b);
    }
  }

  /** A match at the start of `s` contributes its normalised label, and the scan resumes after `]]`. */
  lemma TextLabelsLink(s: string, e: nat)
    requires WikiLinks.MatchAtStart(s) == Some(e)
    ensures e + 2 <= |s|
    ensures TextLabels(s) == [Normalize(s[2..e])] + TextLabels(s[e + 2..])
  {
    assert WikiLinks.MatchEndsAt(s, e);
    var ts := WikiLinks.Tokenize(s);
    assert ts == [WikiLinks.Link(s[2..e])] + WikiLinks.Tokenize(s[e + 2..]);
    assert ts[1..] == WikiLinks.Tokenize(s[e + 2..]);
    var ls := WikiLinks.Labels(ts);
    assert ls == [s[2..e]] + WikiLinks.Labels(WikiLinks.Tokenize(s[e + 2..]));
    assert ls[1..] == WikiLinks.Labels(WikiLinks.Tokenize(s[e + 2..]));
  }

  /** Without a match at the start of `s`, the scan moves one character on. */
  lemma TextLabelsChar(s: string)
    requires s != [] && WikiLinks.MatchAtStart(s).None?
    ensures TextLabels(s) == TextLabels(s[1..])
  {
    var ts := WikiLinks.Tokenize(s);
    assert ts == [WikiLinks.Char(s[0])] + WikiLinks.Tokenize(s[1..]);
    assert ts[1..] == WikiLinks.Tokenize(s[1..]);
  }

  /**
   * `extractFromRichText`'s inner loop over one text: the global regular
   * expression's `exec` resumes where the last match ended, and each
   * captured label is trimmed, lower-cased and added to the set.
   */
  method ScanText(text: string, found: seq<string>) returns (found': seq<string>)
    ensures found' == InsertAll(found, TextLabels(text))
  {
    found' := found;
    var pos := 0;
    assert text[pos..] == text;
    while pos < |text|
      invariant 0 <= pos <= |text|
      invariant InsertAll(found', TextLabels(text[pos..])) == InsertAll(found, TextLabels(text))
      decreases |text| - pos
    {
      pos, found' := ScanStep(text, pos, found');
    }
  }

  /** One `exec` of the expression: a match at `pos`, or a move to the next character. */
  method ScanStep(text: string, pos: nat, found: seq<string>) returns (pos': nat, found': seq<string>)
    requires pos < |text|
    ensures pos < pos' <= |text|
    ensures InsertAll(found', TextLabels(text[pos'..])) == InsertAll(found, TextLabels(text[pos..]))
  {
    match WikiLinks.MatchAtStart(text[pos..])
    case Some(e) =>
      var slug := Normalize(text[pos + 2..pos + e]);
      pos' := pos + e + 2;
      ScanLinkStep(text, pos, e, pos', slug, found);
      found' := found;
      if slug !in found' {
        found' := found' + [slug];
      }
    case None =>
      ScanCharStep(text, pos, found);
      found' := found;
      pos' := pos + 1;
  }

  /** A match at `pos` adds its normalised label and resumes after `]]`. */
  lemma ScanLinkStep(text: string, pos: nat, e: nat, next: nat, slug: string, found: seq<string>)
    requires pos < |text| && WikiLinks.MatchAtStart(text[pos..]) == Some(e)
    requires next == pos + e + 2 && pos + e <= |text| && slug == Normalize(text[pos + 2..pos + e])
    ensures next <= |text|
    ensures InsertAll(found, TextLabels(text[pos..])) == InsertAll(AddLabel(found, slug), TextLabels(text[next..]))
  {
    var rest := text[pos..];
    TextLabelsLink(rest, e);
    SliceOfSuffix(text, pos, e + 2);
    SliceOfSlice(text, pos, 2, e);
    var inner, tail := rest[2..e], rest[e + 2..];
    assert TextLabels(rest) == [Normalize(inner)] + TextLabels(tail);
    assert inner == text[pos + 2..pos + e];
    assert tail == text[next..];
    assert Normalize(inner) == slug;
    assert TextLabels(tail) == TextLabels(text[next..]);
    LabelsCons(TextLabels(rest), slug, TextLabels(text[next..]), found);
  }

  /** A label list that starts with `slug` inserts `slug` first. */
  lemma LabelsCons(labels: seq<string>, slug: string, tail: seq<string>, found: seq<string>)
    requires labels == [slug] + tail
    ensures InsertAll(found, labels) == InsertAll(AddLabel(found, slug), tail)
  {
    InsertAllCons(found, slug, tail);
  }

  lemma SliceOfSlice(s: string, i: nat, j: nat, k: nat)
    requires j <= k && i + k <= |s|
    ensures s[i..][j..k] == s[i + j..i + k]
  {
  }

  /** Without a match at `pos`, the scan moves one character on. */
  lemma ScanCharStep(text: string, pos: nat, found: seq<string>)
    requires pos < |text| && WikiLinks.MatchAtStart(text[pos..]).None?
    ensures InsertAll(found, TextLabels(text[pos..])) == InsertAll(found, TextLabels(text[pos + 1..]))
  {
    TextLabelsChar(text[pos..]);
    assert text[pos..][1..] == text[pos + 1..];
  }

  /** `extractFromRichText`: the labels of each run's `plain_text`, run by run. */
  method ScanRuns(runs: seq<RichText>, found: seq<string>) returns (found': seq<string>)
    ensures found' == InsertAll(found, RunsLabels(runs))
  {
    found' := found;
    assert runs[0..] == runs;
    for k := 0 to |runs|
      invariant InsertAll(found', RunsLabels(runs[k..])) == InsertAll(found, RunsLabels(runs))
    {
      assert runs[k..][1..] == runs[k + 1..];
      InsertAllAppend(found', TextLabels(runs[k].plainText), RunsLabels(runs[k + 1..]));
      found' := ScanText(runs[k].plainText, found');
    }
  }

  /**
   * `extractWikiLinks`: the distinct normalised labels of all top-level
   * blocks' `rich_text` and `caption` runs, in order of first appearance.
   */
  method ExtractWikiLinks(blocks: seq<Block>) returns (labels: seq<string>)
    ensures labels == InsertAll([], BlocksLabels(blocks))
    ensures NoDuplicates(labels)
    ensures forall l :: l in labels <==> l in BlocksLabels(blocks)
    ensures forall l :: l in labels ==> Normalized(l)
  {
    labels := [];
    assert blocks[0..] == blocks;
    for k := 0 to |blocks|
      invariant InsertAll(labels, BlocksLabels(blocks[k..])) == InsertAll([], BlocksLabels(blocks))
    {
      BlocksLabelsAt(blocks, k);
      InsertAllAppend(labels, BlockLabels(blocks[k]), BlocksLabels(blocks[k + 1..]));
      labels := ScanBlock(blocks[k], labels);
    }
    assert blocks[|blocks|..] == [];
    InsertAllSet([], BlocksLabels(blocks));
    BlocksLabelsNormalized(blocks);
  }

  lemma BlocksLabelsAt(bs: seq<Block>, k: nat)
    requires k < |bs|
    ensures BlocksLabels(bs[k..]) == BlockLabels(bs[k]) + BlocksLabels(bs[k + 1..])
  {
    assert bs[k..][1..] == bs[k + 1..];
  }

  /** One block of `extractWikiLinks`: its `rich_text` runs, then its `caption` runs. */
  method ScanBlock(block: Block, labels: seq<string>) returns (labels': seq<string>)
    ensures labels' == InsertAll(labels, BlockLabels(block))
  {
    var runs := RichTextOf(block);
    var captions := CaptionOf(block);
    InsertAllAppend(labels, RunsLabels(runs), RunsLabels(captions));
    labels' := ScanRuns(runs, labels);
    labels' := ScanRuns(captions, labels');
  }

  // Links.

  /** `[a, b].sort().join('::')`: the two ids in code-unit order, joined by `::`. */
  function LinkKey(a: string, b: string): string {
    if LexLess(b, a) then b + "::" + a else a + "::" + b
  }

  /** The key does not depend on the direction of the link. */
  lemma LinkKeySymmetric(a: string, b: string)
    ensures LinkKey(a, b) == LinkKey(b, a)
  {
    LexLessTotal(a, b);
  }

  /** Two different pairs of ids can share a key when an id contains `::`. */
  lemma LinkKeyCollision()
    ensures LinkKey("a::b", "c") == LinkKey("a", "b::c") == "a::b::c"
  {
  }

  function KeyOf(l: Link): string {
    LinkKey(l.source, l.target)
  }

  /** The contents of `linkSet`: the keys of the links pushed so far. */
  function Keys(links: seq<Link>): set<string> {
    set l | l in links :: KeyOf(l)
  }

  predicate KeysDistinct(links: seq<Link>) {
    forall i, j :: 0 <= i < j < |links| ==> KeyOf(links[i]) != KeyOf(links[j])
  }

  /** The check-then-push for one target: a valid slug other than the page's own whose key is new becomes a link. */
  function AddLink(links: seq<Link>, source: string, target: string, valid: set<string>): seq<Link> {
    if target in valid && target != source && LinkKey(source, target) !in Keys(links) then
      links + [Link(source, target)]
    else
      links
  }

  /** The `wikiLinks.forEach` of one page, target by target. */
  function AddLinks(links: seq<Link>, source: string, targets: seq<string>, valid: set<string>): seq<Link>
    decreases |targets|
  {
    if targets == [] then links else AddLinks(AddLink(links, source, targets[0], valid), source, targets[1..], valid)
  }

  lemma KeysAppend(links: seq<Link>, l: Link)
    ensures Keys(links + [l]) == Keys(links) + {KeyOf(l)}
  {
    assert forall x :: x in links + [l] <==> x in links || x == l;
  }

  /**
   * `wikiLinks.forEach` of one page: each valid target other than the page
   * itself is pushed as a link unless its key is already in `linkSet`.
   */
  method AddPageLinks(source: string, targets: seq<string>, validSlugs: set<string>, links: seq<Link>, linkSet: set<string>)
    returns (links': seq<Link>, linkSet': set<string>)
    requires linkSet == Keys(links)
    ensures links' == AddLinks(links, source, targets, validSlugs)
    ensures linkSet' == Keys(links')
  {
    links', linkSet' := links, linkSet;
    assert targets[0..] == targets;
    for k := 0 to |targets|
      invariant linkSet' == Keys(links')
      invariant AddLinks(links', source, targets[k..], validSlugs) == AddLinks(links, source, targets, validSlugs)
    {
      var target := targets[k];
      assert targets[k..][0] == target && targets[k..][1..] == targets[k + 1..];
      if target in validSlugs && target != source {
        var key := LinkKey(source, target);
        if key !in linkSet' {
          KeysAppend(links', Link(source, target));
          linkSet' := linkSet' + {key};
          links' := links' + [Link(source, target)];
        }
      }
    }
  }

  /** Links are only ever appended. */
  lemma {:induction false} AddLinksGrow(links: seq<Link>, source: string, targets: seq<string>, valid: set<string>)
    ensures links <= AddLinks(links, source, targets, valid)
    decreases |targets|
  {
    if targets != [] {
      var next := AddLink(links, source, targets[0], valid);
      AddLinksGrow(next, source, targets[1..], valid);
      assert links <= next;
    }
  }

  /** The keys of a prefix are keys of the whole. */
  lemma KeysPrefix(a: seq<Link>, b: seq<Link>)
    requires a <= b
    ensures Keys(a) <= Keys(b)
  {
    forall l | l in a ensures l in b {
      var i :| 0 <= i < |a| && a[i] == l;
      assert b[i] == l;
    }
  }

  /** The `linkSet` check keeps the keys of one page's links pairwise different. */
  lemma {:induction false} AddLinksDistinct(links: seq<Link>, source: string, targets: seq<string>, valid: set<string>)
    requires KeysDistinct(links)
    ensures KeysDistinct(AddLinks(links, source, targets, valid))
    decreases |targets|
  {
    if targets != [] {
      var t := targets[0];
      var next := AddLink(links, source, t, valid);
      if next != links {
        KeysAppend(links, Link(source, t));
        forall i | 0 <= i < |links|
          ensures KeyOf(next[i]) != LinkKey(source, t)
        {
          assert next[i] in links;
        }
      }
      AddLinksDistinct(next, source, targets[1..], valid);
    }
  }

  /** Each new link goes from `source` to a valid target among `targets` other than `source`. */
  lemma {:induction false} AddLinksSound(links: seq<Link>, source: string, targets: seq<string>, valid: set<string>)
    ensures forall l :: l in AddLinks(links, source, targets, valid) ==>
      l in links || (l.source == source && l.target in targets && l.target in valid && l.target != source)
    decreases |targets|
  {
    if targets != [] {
      var t := targets[0];
      var next := AddLink(links, source, t, valid);
      AddLinksSound(next, source, targets[1..], valid);
      assert forall x :: x in targets[1..] ==> x in targets;
      assert forall l :: l in next ==> l in links || l == Link(source, t);
    }
  }

  /** Every valid target other than `source` has its key in `linkSet` afterwards. */
  lemma {:induction false} AddLinksComplete(links: seq<Link>, source: string, targets: seq<string>, valid: set<string>)
    ensures forall t :: t in targets && t in valid && t != source ==> LinkKey(source, t) in Keys(AddLinks(links, source, targets, valid))
    decreases |targets|
  {
    if targets != [] {
      var t := targets[0];
      var next := AddLink(links, source, t, valid);
      var r := AddLinks(links, source, targets, valid);
      AddLinksComplete(next, source, targets[1..], valid);
      AddLinksGrow(next, source, targets[1..], valid);
      KeysPrefix(next, r);
      if t in valid && t != source && next != links {
        KeysAppend(links, Link(source, t));
      }
      assert forall x :: x in targets ==> x == t || x in targets[1..] by {
        assert targets == [t] + targets[1..];
      }
    }
  }

  /** The targets a page's fetch yields: its extracted labels, or none when the fetch failed. */
  function Targets(f: Option<seq<Block>>): seq<string> {
    match f
    case None => []
    case Some(bs) => InsertAll([], BlocksLabels(bs))
  }

  /** A fetched page's targets are its distinct normalised labels. */
  lemma TargetsLabels(f: Option<seq<Block>>)
    requires f.Some?
    ensures forall t :: t in Targets(f) <==> t in BlocksLabels(f.value)
    ensures forall t :: t in Targets(f) ==> Normalized(t)
  {
    InsertAllSet([], BlocksLabels(f.value));
    BlocksLabelsNormalized(f.value);
  }

  /** The targets of every page, by page index. */
  function AllTargets(fetched: seq<Option<seq<Block>>>): (r: seq<seq<string>>)
    ensures |r| == |fetched|
  {
    seq(|fetched|, i requires 0 <= i < |fetched| => Targets(fetched[i]))
  }

  /** The page indices in every order `Promise.all` can finish them: each index once. */
  predicate IsOrder(order: seq<nat>, n: nat) {
    && |order| == n
    && (forall k :: 0 <= k < |order| ==> order[k] < n)
    && (forall i :: 0 <= i < n ==> i in order)
  }

  /** The page callbacks, one after another in the order the pages finish. */
  function FoldLinks(links: seq<Link>, nodes: seq<Node>, targets: seq<seq<string>>, valid: set<string>, order: seq<nat>): seq<Link>
    requires |targets| == |nodes|
    requires forall k :: 0 <= k < |order| ==> order[k] < |nodes|
    decreases |order|
  {
    if order == [] then links
    else
      var i := order[0];
      FoldLinks(AddLinks(links, nodes[i].id, targets[i], valid), nodes, targets, valid, order[1..])
  }

  lemma {:induction false} FoldLinksGrow(links: seq<Link>, nodes: seq<Node>, targets: seq<seq<string>>, valid: set<string>, order: seq<nat>)
    requires |targets| == |nodes|
    requires forall k :: 0 <= k < |order| ==> order[k] < |nodes|
    ensures links <= FoldLinks(links, nodes, targets, valid, order)
    decreases |order|
  {
    if order != [] {
      var i := order[0];
      var next := AddLinks(links, nodes[i].id, targets[i], valid);
      AddLinksGrow(links, nodes[i].id, targets[i], valid);
      FoldLinksGrow(next, nodes, targets, valid, order[1..]);
    }
  }

  /** Across all pages, no two links share a key. */
  lemma {:induction false} FoldLinksDistinct(links: seq<Link>, nodes: seq<Node>, targets: seq<seq<string>>, valid: set<string>, order: seq<nat>)
    requires |targets| == |nodes|
    requires forall k :: 0 <= k < |order| ==> order[k] < |nodes|
    requires KeysDistinct(links)
    ensures KeysDistinct(FoldLinks(links, nodes, targets, valid, order))
    decreases |order|
  {
    if order != [] {
      var i := order[0];
      var next := AddLinks(links, nodes[i].id, targets[i], valid);
      AddLinksDistinct(links, nodes[i].id, targets[i], valid);
      FoldLinksDistinct(next, nodes, targets, valid, order[1..]);
    }
  }

  /** Every new link comes from a page in the order and one of its valid targets. */
  lemma {:induction false} FoldLinksSound(links: seq<Link>, nodes: seq<Node>, targets: seq<seq<string>>, valid: set<string>, order: seq<nat>)
    requires |targets| == |nodes|
    requires forall k :: 0 <= k < |order| ==> order[k] < |nodes|
    ensures forall l :: l in FoldLinks(links, nodes, targets, valid, order) ==>
      l in links || (l.target in valid && l.target != l.source &&
        exists k :: 0 <= k < |order| && l.source == nodes[order[k]].id && l.target in targets[order[k]])
    decreases |order|
  {
    if order != [] {
      var i := order[0];
      var next := AddLinks(links, nodes[i].id, targets[i], valid);
      AddLinksSound(links, nodes[i].id, targets[i], valid);
      FoldLinksSound(next, nodes, targets, valid, order[1..]);
      var r := FoldLinks(links, nodes, targets, valid, order);
      assert r == FoldLinks(next, nodes, targets, valid, order[1..]);
      forall l | l in r && l !in links
        ensures l.target in valid && l.target != l.source
        ensures exists k :: 0 <= k < |order| && l.source == nodes[order[k]].id && l.target in targets[order[k]]
      {
        if l in next {
          assert order[0] == i;
        } else {
          var k :| 0 <= k < |order[1..]| && l.source == nodes[order[1..][k]].id && l.target in targets[order[1..][k]];
          assert order[1..][k] == order[k + 1];
        }
      }
    }
  }

  /** Every valid target of every page in the order has its key among the links' keys. */
  lemma {:induction false} FoldLinksComplete(links: seq<Link>, nodes: seq<Node>, targets: seq<seq<string>>, valid: set<string>, order: seq<nat>)
    requires |targets| == |nodes|
    requires forall k :: 0 <= k < |order| ==> order[k] < |nodes|
    ensures forall k, t :: 0 <= k < |order| && t in targets[order[k]] && t in valid && t != nodes[order[k]].id ==>
      LinkKey(nodes[order[k]].id, t) in Keys(FoldLinks(links, nodes, targets, valid, order))
    decreases |order|
  {
    if order != [] {
      var i := order[0];
      var next := AddLinks(links, nodes[i].id, targets[i], valid);
      var r := FoldLinks(links, nodes, targets, valid, order);
      assert r == FoldLinks(next, nodes, targets, valid, order[1..]);
      AddLinksComplete(links, nodes[i].id, targets[i], valid);
      FoldLinksComplete(next, nodes, targets, valid, order[1..]);
      FoldLinksGrow(next, nodes, targets, valid, order[1..]);
      KeysPrefix(next, r);
      forall k, t | 0 <= k < |order| && t in targets[order[k]] && t in valid && t != nodes[order[k]].id
        ensures LinkKey(nodes[order[k]].id, t) in Keys(r)
      {
        if k > 0 {
          assert order[1..][k - 1] == order[k];
        }
      }
    }
  }

  /** One more page of the order: its callback runs on the links so far. */
  lemma FoldStep(links: seq<Link>, nodes: seq<Node>, targets: seq<seq<string>>, valid: set<string>, order: seq<nat>, k: nat)
    requires |targets| == |nodes| && k < |order|
    requires forall j :: 0 <= j < |order| ==> order[j] < |nodes|
    ensures FoldLinks(links, nodes, targets, valid, order[k..])
      == FoldLinks(AddLinks(links, nodes[order[k]].id, targets[order[k]], valid), nodes, targets, valid, order[k + 1..])
  {
    assert order[k..][0] == order[k] && order[k..][1..] == order[k + 1..];
  }

  /**
   * The callback of page `i`: when its blocks were fetched, the links for
   * its extracted labels; when the fetch failed, nothing.
   */
  method PageCallback(nodes: seq<Node>, fetched: seq<Option<seq<Block>>>, i: nat, validSlugs: set<string>, links: seq<Link>, linkSet: set<string>)
    returns (links': seq<Link>, linkSet': set<string>)
    requires i < |nodes| == |fetched|
    requires linkSet == Keys(links)
    ensures links' == AddLinks(links, nodes[i].id, AllTargets(fetched)[i], validSlugs)
    ensures linkSet' == Keys(links')
  {
    assert AllTargets(fetched)[i] == Targets(fetched[i]);
    match fetched[i]
    case None =>
      links', linkSet' := links, linkSet;
    case Some(blocks) =>
      var wikiLinks := ExtractWikiLinks(blocks);
      links', linkSet' := AddPageLinks(nodes[i].id, wikiLinks, validSlugs, links, linkSet);
  }

  /**
   * The second phase of the handler: the page callbacks, run in the order
   * their fetches complete, sharing one link list and one key set.
   */
  method CollectLinks(nodes: seq<Node>, fetched: seq<Option<seq<Block>>>, validSlugs: set<string>, order: seq<nat>)
    returns (links: seq<Link>)
    requires |fetched| == |nodes|
    requires forall j :: 0 <= j < |order| ==> order[j] < |nodes|
    ensures links == FoldLinks([], nodes, AllTargets(fetched), validSlugs, order)
  {
    links := [];
    var linkSet: set<string> := {};
    var targets := AllTargets(fetched);
    assert order[0..] == order;
    for k := 0 to |order|
      invariant linkSet == Keys(links)
      invariant FoldLinks(links, nodes, targets, validSlugs, order[k..]) == FoldLinks([], nodes, targets, validSlugs, order)
    {
      FoldStep(links, nodes, targets, validSlugs, order, k);
      links, linkSet := PageCallback(nodes, fetched, order[k], validSlugs, links, linkSet);
    }
  }

  /**
   * The handler's graph: nodes and clusters from the first loop, the links
   * of every page callback in the order the pages finish, then a `core`
   * cluster when no page created one.
   */
  method BuildGraph(pages: seq<Page>, fetched: seq<Option<seq<Block>>>, order: seq<nat>)
    returns (nodes: seq<Node>, links: seq<Link>, clusters: map<string, Cluster>)
    requires |fetched| == |pages|
    requires IsOrder(order, |pages|)
    ensures |nodes| == |pages|
    ensures forall i :: 0 <= i < |pages| ==> nodes[i] == NodeOf(pages[i])
    ensures links == FoldLinks([], nodes, AllTargets(fetched), SlugSet(nodes), order)
    ensures "core" in clusters
    ensures forall g :: g != "core" ==> (g in clusters <==> g in ClustersUpTo(nodes, pages, |pages|))
    ensures forall g :: g in ClustersUpTo(nodes, pages, |pages|) ==> clusters[g] == ClustersUpTo(nodes, pages, |pages|)[g]
    ensures "core" !in ClustersUpTo(nodes, pages, |pages|) ==> clusters["core"] == CoreCluster
  {
    var validSlugs;
    nodes, clusters, validSlugs := CollectPages(pages);
    links := CollectLinks(nodes, fetched, validSlugs, order);
    if "core" !in clusters {
      clusters := clusters["core" := CoreCluster];
    }
  }

  /** No two links of the graph share a key. */
  lemma GraphKeysDistinct(nodes: seq<Node>, fetched: seq<Option<seq<Block>>>, order: seq<nat>)
    requires |fetched| == |nodes|
    requires IsOrder(order, |nodes|)
    ensures KeysDistinct(FoldLinks([], nodes, AllTargets(fetched), SlugSet(nodes), order))
  {
    FoldLinksDistinct([], nodes, AllTargets(fetched), SlugSet(nodes), order);
  }

  /**
   * Every link of the graph points from a page whose blocks were fetched
   * and mention the target to a different, valid, normalised slug.
   */
  lemma GraphLinksSound(nodes: seq<Node>, fetched: seq<Option<seq<Block>>>, order: seq<nat>)
    requires |fetched| == |nodes|
    requires IsOrder(order, |nodes|)
    ensures forall l :: l in FoldLinks([], nodes, AllTargets(fetched), SlugSet(nodes), order) ==>
      && l.target in SlugSet(nodes) && l.target != l.source && Normalized(l.target)
      && exists i :: 0 <= i < |nodes| && fetched[i].Some? && l.source == nodes[i].id && l.target in BlocksLabels(fetched[i].value)
  {
    var valid := SlugSet(nodes);
    var r := FoldLinks([], nodes, AllTargets(fetched), valid, order);
    FoldLinksSound([], nodes, AllTargets(fetched), valid, order);
    forall l | l in r
      ensures Normalized(l.target)
      ensures exists i :: 0 <= i < |nodes| && fetched[i].Some? && l.source == nodes[i].id && l.target in BlocksLabels(fetched[i].value)
    {
      var k :| 0 <= k < |order| && l.source == nodes[order[k]].id && l.target in AllTargets(fetched)[order[k]];
      var i := order[k];
      assert l.target in Targets(fetched[i]);
      assert fetched[i].Some?;
      TargetsLabels(fetched[i]);
    }
  }

  /** Every valid mention of another page is covered by a link with its key. */
  lemma GraphLinksComplete(nodes: seq<Node>, fetched: seq<Option<seq<Block>>>, order: seq<nat>)
    requires |fetched| == |nodes|
    requires IsOrder(order, |nodes|)
    ensures forall i, t :: 0 <= i < |nodes| && fetched[i].Some? && t in BlocksLabels(fetched[i].value) && t in SlugSet(nodes) && t != nodes[i].id ==>
      LinkKey(nodes[i].id, t) in Keys(FoldLinks([], nodes, AllTargets(fetched), SlugSet(nodes), order))
  {
    var valid := SlugSet(nodes);
    var r := FoldLinks([], nodes, AllTargets(fetched), valid, order);
    FoldLinksComplete([], nodes, AllTargets(fetched), valid, order);
    forall i, t | 0 <= i < |nodes| && fetched[i].Some? && t in BlocksLabels(fetched[i].value) && t in valid && t != nodes[i].id
      ensures LinkKey(nodes[i].id, t) in Keys(r)
    {
      assert i in order;
      var k :| 0 <= k < |order| && order[k] == i;
      TargetsLabels(fetched[i]);
      assert t in AllTargets(fetched)[order[k]];
    }
  }

  /**
   * A slug with an upper-case letter is never a link target: the extracted
   * labels are lower-cased while the valid slugs are kept as written.
   */
  lemma UpperCaseSlugNeverTarget(nodes: seq<Node>, fetched: seq<Option<seq<Block>>>, order: seq<nat>, slug: string)
    requires |fetched| == |nodes|
    requires IsOrder(order, |nodes|)
    requires !HasNoUpper(slug)
    ensures forall l :: l in FoldLinks([], nodes, AllTargets(fetched), SlugSet(nodes), order) ==> l.target != slug
  {
    GraphLinksSound(nodes, fetched, order);
  }

  /** A page whose block fetch failed contributes no targets, though its node stays in the graph. */
  lemma FailedFetchNoTargets(links: seq<Link>, source: string, valid: set<string>)
    ensures AddLinks(links, source, Targets(None), valid) == links
  {
  }
}
