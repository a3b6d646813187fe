/** The derived views of a Category or Place tree node (TreeNodeMixin).
    The tree library supplies a node's ancestors, root first; here they are
    a given sequence. Each node is seen through its name (its str()), its
    slug and the number of jobs that reference it directly. */
module TreeNodes {
  import opened Text

  datatype TreeKind = CategoryTree | PlaceTree

  /** TreeNodeMixin.name_separator; Place overrides it. */
  const DefaultNameSeparator: string := " > "
  const PlaceNameSeparator: string := ", "
  /** TreeNodeMixin.path_separator */
  const PathSeparator: string := "/"

  function NameSeparator(kind: TreeKind): string {
    match kind
    case CategoryTree => DefaultNameSeparator
    case PlaceTree => PlaceNameSeparator
  }

  datatype Node = Node(name: string, slug: string, jobCount: nat)

  /** get_ancestors_and_self: the ancestors root first, then the node. */
  function AncestorsAndSelf(ancestors: seq<Node>, node: Node): (r: seq<Node>)
    ensures |r| == |ancestors| + 1
    ensures r[..|ancestors|] == ancestors && r[|ancestors|] == node
  {
    ancestors + [node]
  }

  /** get_self_and_ancestors: the node, then its ancestors nearest first. */
  function SelfAndAncestors(ancestors: seq<Node>, node: Node): (r: seq<Node>)
    ensures |r| == |ancestors| + 1 && r[0] == node
    ensures forall i :: 1 <= i < |r| ==> r[i] == ancestors[|ancestors| - i]
  {
    [node] + Reverse(ancestors)
  }

  /** get_self_and_descendants: despite its name it walks the ancestors,
      exactly as get_self_and_ancestors does. */
  function SelfAndDescendants(ancestors: seq<Node>, node: Node): (r: seq<Node>)
    ensures |r| == |ancestors| + 1 && r[0] == node
    ensures forall i :: 1 <= i < |r| ==> r[i] == ancestors[|ancestors| - i]
  {
    [node] + Reverse(ancestors)
  }

  /** get_descendants_and_self: the descendants in the library's order, then the node. */
  function DescendantsAndSelf(descendants: seq<Node>, node: Node): (r: seq<Node>)
    ensures |r| == |descendants| + 1
    ensures r[..|descendants|] == descendants && r[|descendants|] == node
  {
    descendants + [node]
  }

  function Names(nodes: seq<Node>): (r: seq<string>)
    ensures |r| == |nodes|
    ensures forall i :: 0 <= i < |nodes| ==> r[i] == nodes[i].name
  {
    seq(|nodes|, i requires 0 <= i < |nodes| => nodes[i].name)
  }

  function Slugs(nodes: seq<Node>): (r: seq<string>)
    ensures |r| == |nodes|
    ensures forall i :: 0 <= i < |nodes| ==> r[i] == nodes[i].slug
  {
    seq(|nodes|, i requires 0 <= i < |nodes| => nodes[i].slug)
  }

  function SumJobs(nodes: seq<Node>): nat {
    if nodes == [] then 0 else nodes[0].jobCount + SumJobs(nodes[1..])
  }

  /** full_name: the ancestors' names root first, then the node's own name,
      one separator between each two. */
  function FullName(kind: TreeKind, ancestors: seq<Node>, node: Node): (r: string)
    ensures r ==
      if ancestors == [] then node.name
      else Join(NameSeparator(kind), Names(ancestors)) + NameSeparator(kind) + node.name
  {
    NamesAppend(ancestors, [node]);
    if ancestors == [] then Join(NameSeparator(kind), Names(AncestorsAndSelf(ancestors, node)))
    else
      JoinSnoc(NameSeparator(kind), Names(ancestors), node.name);
      Join(NameSeparator(kind), Names(AncestorsAndSelf(ancestors, node)))
  }

  /** reversed_full_name: the node's own name first, then the ancestors nearest first. */
  function ReversedFullName(kind: TreeKind, ancestors: seq<Node>, node: Node): (r: string)
    ensures r ==
      if ancestors == [] then node.name
      else node.name + NameSeparator(kind) + Join(NameSeparator(kind), Reverse(Names(ancestors)))
  {
    NamesAppend([node], Reverse(ancestors));
    NamesReverse(ancestors);
    assert Names(SelfAndAncestors(ancestors, node)) == [node.name] + Reverse(Names(ancestors));
    if ancestors == [] then Join(NameSeparator(kind), Names(SelfAndAncestors(ancestors, node)))
    else
      JoinCons(NameSeparator(kind), node.name, Reverse(Names(ancestors)));
      Join(NameSeparator(kind), Names(SelfAndAncestors(ancestors, node)))
  }

  /** full_path: the slugs from the root down to the node, joined with '/'. */
  function FullPath(ancestors: seq<Node>, node: Node): (r: string)
    ensures r ==
      if ancestors == [] then node.slug
      else Join(PathSeparator, Slugs(ancestors)) + PathSeparator + node.slug
  {
    SlugsAppend(ancestors, [node]);
    if ancestors == [] then Join(PathSeparator, Slugs(AncestorsAndSelf(ancestors, node)))
    else
      JoinSnoc(PathSeparator, Slugs(ancestors), node.slug);
      Join(PathSeparator, Slugs(AncestorsAndSelf(ancestors, node)))
  }

  /** total_job_count: the node's own count plus every ancestor's own count;
      nothing below the node takes part. */
  function TotalJobCount(ancestors: seq<Node>, node: Node): (r: nat)
    ensures r == node.jobCount + SumJobs(ancestors)
  {
    SumJobsAppend(ancestors, [node]);
    assert [node][1..] == [];
    SumJobs(AncestorsAndSelf(ancestors, node))
  }

  lemma NamesAppend(a: seq<Node>, b: seq<Node>)
    ensures Names(a + b) == Names(a) + Names(b)
  {
  }

  lemma SlugsAppend(a: seq<Node>, b: seq<Node>)
    ensures Slugs(a + b) == Slugs(a) + Slugs(b)
  {
  }

  lemma NamesReverse(nodes: seq<Node>)
    ensures Names(Reverse(nodes)) == Reverse(Names(nodes))
  {
    var l := Names(Reverse(nodes));
    var r := Reverse(Names(nodes));
    forall k | 0 <= k < |nodes| ensures l[k] == r[k] {
    }
  }

  lemma {:induction false} SumJobsAppend(a: seq<Node>, b: seq<Node>)
    ensures SumJobs(a + b) == SumJobs(a) + SumJobs(b)
  {
    if a == [] {
      assert a + b == b;
    } else {
      assert (a + b)[1..] == a[1..] + b;
      SumJobsAppend(a[1..], b);
    }
  }

  lemma {:induction false} SumJobsReverse(nodes: seq<Node>)
    ensures SumJobs(Reverse(nodes)) == SumJobs(nodes)
  {
    if nodes != [] {
      SumJobsReverse(nodes[1..]);
      SumJobsAppend(Reverse(nodes[1..]), [nodes[0]]);
      assert [nodes[0]][1..] == [];
    }
  }

  /** get_self_and_ancestors yields exactly the reverse of get_ancestors_and_self. */
  lemma SelfAndAncestorsReversesChain(ancestors: seq<Node>, node: Node)
    ensures SelfAndAncestors(ancestors, node) == Reverse(AncestorsAndSelf(ancestors, node))
  {
    ReverseSnoc(ancestors, node);
  }

  /** get_self_and_descendants yields the same nodes as get_self_and_ancestors. */
  lemma SelfAndDescendantsYieldsAncestors(ancestors: seq<Node>, node: Node)
    ensures SelfAndDescendants(ancestors, node) == SelfAndAncestors(ancestors, node)
    ensures SelfAndDescendants(ancestors, node) == Reverse(AncestorsAndSelf(ancestors, node))
  {
    SelfAndAncestorsReversesChain(ancestors, node);
  }

  /** reversed_full_name joins exactly the reverse of full_name's list of names. */
  lemma ReversedFullNameReversesParts(kind: TreeKind, ancestors: seq<Node>, node: Node)
    ensures ReversedFullName(kind, ancestors, node) ==
      Join(NameSeparator(kind), Reverse(Names(AncestorsAndSelf(ancestors, node))))
  {
    SelfAndAncestorsReversesChain(ancestors, node);
    NamesReverse(AncestorsAndSelf(ancestors, node));
  }

  /** A child's full_name is its parent's full_name, the separator, and its own name. */
  lemma FullNameOfChild(kind: TreeKind, ancestors: seq<Node>, parent: Node, child: Node)
    ensures FullName(kind, ancestors + [parent], child) ==
      FullName(kind, ancestors, parent) + NameSeparator(kind) + child.name
  {
    var chain := AncestorsAndSelf(ancestors, parent);
    assert AncestorsAndSelf(ancestors + [parent], child) == chain + [child];
    NamesAppend(chain, [child]);
    JoinSnoc(NameSeparator(kind), Names(chain), child.name);
  }

  /** A child's full_path extends its parent's by one segment. */
  lemma FullPathOfChild(ancestors: seq<Node>, parent: Node, child: Node)
    ensures FullPath(ancestors + [parent], child) ==
      FullPath(ancestors, parent) + PathSeparator + child.slug
  {
    var chain := AncestorsAndSelf(ancestors, parent);
    assert AncestorsAndSelf(ancestors + [parent], child) == chain + [child];
    SlugsAppend(chain, [child]);
    JoinSnoc(PathSeparator, Slugs(chain), child.slug);
  }

  /** Summing over get_self_and_ancestors instead gives the same total. */
  lemma TotalJobCountOverSelfAndAncestors(ancestors: seq<Node>, node: Node)
    ensures SumJobs(SelfAndAncestors(ancestors, node)) == TotalJobCount(ancestors, node)
  {
    SelfAndAncestorsReversesChain(ancestors, node);
    SumJobsReverse(AncestorsAndSelf(ancestors, node));
  }

  /** A child's total is its parent's total plus the child's own count. */
  lemma TotalJobCountOfChild(ancestors: seq<Node>, parent: Node, child: Node)
    ensures TotalJobCount(ancestors + [parent], child) ==
      TotalJobCount(ancestors, parent) + child.jobCount
  {
    SumJobsAppend(ancestors, [parent]);
    assert [parent][1..] == [];
  }

  /** A root "Technology" with a child "Software": the child's category name. */
  lemma TechnologySoftwareFullName(technology: Node, software: Node)
    requires technology.name == "Technology" && software.name == "Software"
    ensures FullName(CategoryTree, [technology], software) == "Technology > Software"
  {
    assert Join(" > ", Names([technology])) == "Technology";
  }

  /** A leaf with 3 direct jobs under a root with 5 direct jobs: total 8,
      whatever lies below the leaf. */
  lemma LeafTotalJobCount(root: Node, leaf: Node)
    requires root.jobCount == 5 && leaf.jobCount == 3
    ensures TotalJobCount([root], leaf) == 8
  {
    assert SumJobs([root]) == 5;
  }

  /** Place overrides the separator: Regensburg under Bavaria is "Bavaria, Regensburg". */
  lemma PlaceFullNameUsesComma(bavaria: Node, regensburg: Node)
    requires bavaria.name == "Bavaria" && regensburg.name == "Regensburg"
    ensures FullName(PlaceTree, [bavaria], regensburg) == "Bavaria, Regensburg"
  {
    assert Join(", ", Names([bavaria])) == "Bavaria";
  }
}
