/** Renaming and then diffing gives back the intent: one rename, with everything below carried silently. */
module RenameRoundTrip {
  import opened Prelude
  import opened CatalogTypes
  import opened CatalogNormalize
  import V = CatalogValidate
  import opened CatalogMutate
  import opened RenameIsomorphism
  import opened CatalogMatch
  import opened CatalogCarry
  import opened DependencyOrder
  import opened SchemaDiff
  import opened DiffOrder
  import opened DiffChanges
  import opened DiffPatch
  import opened DiffInvariance
  import opened DiffOutcome

  /** The digests of the new ids do not hit ids that are already in use. */
  ghost predicate FreshIds(h: Digest, g: Graph, x: Renaming) {
    forall id :: id in x.subtree ==> Image(h, g, x, id) !in NodeMap(g.nodes)
  }

  /** No renamed path is the old path of another node of the subtree. */
  ghost predicate NoClash(g: Graph, x: Renaming) {
    forall d, e :: d in g.nodes && e in g.nodes && d.id in x.subtree && e.id in x.subtree && d.kind == e.kind ==>
      NewPath(x, e) != Some(d.qualifiedName)
  }

  /** A rename whose correspondence the diff can recover. */
  ghost predicate Traceable(h: Digest, g: Graph, x: Renaming, to: Graph) {
    RenamedTo(h, g, x, to) && FreshIds(h, g, x) && NoClash(g, x)
  }

  ghost function Announced(h: Digest, g: Graph, x: Renaming): seq<RenameMapping> {
    [RenameMapping(x.root.id, Image(h, g, x, x.root.id))]
  }

  ghost function RootPair(h: Digest, g: Graph, x: Renaming): Pair {
    Pair(x.root, ImageNode(h, g, x, x.root), true)
  }

  /** A node of the renamed graph is an untouched node or the image of a member of the subtree. */
  lemma {:induction false} Source(h: Digest, g: Graph, x: Renaming, to: Graph, a: Node) returns (n: Node)
    requires Traceable(h, g, x, to) && a in to.nodes
    ensures n in g.nodes && a == ImageNode(h, g, x, n) && a.id == Image(h, g, x, n.id)
    ensures n.id !in x.subtree ==> a == n
    ensures n.id in x.subtree ==> a.id !in NodeMap(g.nodes)
  {
    hide RenamedTo, ImageNode, Image, NodeMap, NoClash, NewPath;
    ToNodes(h, g, x, to);
    n :| n in g.nodes && a == ImageNode(h, g, x, n);
    RenameIsIsomorphism(h, g, x, to, n);
  }

  lemma {:induction false} SameIdsAre(h: Digest, g: Graph, x: Renaming, to: Graph)
    requires Traceable(h, g, x, to)
    ensures SameIds(g.nodes, to.nodes) == NodeMap(g.nodes).Keys - x.subtree
  {
    hide ImageNode, Image, NodeMap, NoClash, NewPath, Traceable, UniqueIds, V.ParentsClosed, V.AllRooted, RenamedTo, FreshIds, IsSubtree;
    assert RenamedTo(h, g, x, to) by { TraceableFacts(h, g, x, to); }
    RenamedToFacts(h, g, x, to);
    NodeMapOf(g.nodes);
    forall id ensures id in SameIds(g.nodes, to.nodes) <==> id in NodeMap(g.nodes) && id !in x.subtree {
      if id in SameIds(g.nodes, to.nodes) {
        var b, a :| b in g.nodes && a in to.nodes && b.id == a.id && b.kind == a.kind && b.id == id;
        var n := Source(h, g, x, to, a);
      }
      if id in NodeMap(g.nodes) && id !in x.subtree {
        var n := NodeMap(g.nodes)[id];
        RenameIsIsomorphism(h, g, x, to, n);
        assert n in to.nodes;
      }
    }
  }

  lemma {:induction false} TraceableFacts(h: Digest, g: Graph, x: Renaming, to: Graph)
    requires Traceable(h, g, x, to)
    ensures RenamedTo(h, g, x, to) && FreshIds(h, g, x) && NoClash(g, x)
  {
  }

  lemma {:induction false} NothingTaken(h: Digest, g: Graph, x: Renaming, to: Graph, b: Node)
    requires Traceable(h, g, x, to)
    ensures !TakenByPath(g.nodes, to.nodes, b)
  {
    hide ImageNode, Image, NodeMap, Traceable, UniqueIds, NewPath, RenamedTo, SameIds;
    SameIdsAre(h, g, x, to);
    ToPathsOf(to.nodes, SameIds(g.nodes, to.nodes));
    if TakenByPath(g.nodes, to.nodes, b) {
      NodeMapOf(g.nodes);
      var a := ToPaths(to.nodes, SameIds(g.nodes, to.nodes))[Key(b)];
      var n := Source(h, g, x, to, a);
      NodeMapHas(g.nodes, n);
      NodeMapHas(g.nodes, b);
      TraceableFacts(h, g, x, to);
      RenameIsIsomorphism(h, g, x, to, n);
      RemapIsSubtree(h, g, x, to);
    }
  }

  lemma {:induction false} NodeMapHas(nodes: seq<Node>, n: Node)
    requires n in nodes
    ensures n.id in NodeMap(nodes)
  {
    NodeMapOf(nodes);
  }

  /** Before the renames, only the untouched nodes are matched. */
  lemma {:induction false} MatchedBeforeRenames(h: Digest, g: Graph, x: Renaming, to: Graph, s: Match)
    requires Traceable(h, g, x, to) && IsStaged(g.nodes, to.nodes, g.nodes, [], s)
    ensures s.matchedFrom == NodeMap(g.nodes).Keys - x.subtree
    ensures s.matchedTo <= NodeMap(g.nodes).Keys - x.subtree
  {
    hide NodeMap, Traceable, SameIds, TakenByPath, OneToOne, StagePair, BeforeIds;
    SameIdsAre(h, g, x, to);
    forall b ensures !TakenByPath(g.nodes, to.nodes, b) { NothingTaken(h, g, x, to, b); }
    forall id | id in s.matchedTo ensures id in SameIds(g.nodes, to.nodes) {
      var p :| p in s.pairs && p.after.id == id;
      OnlyIdPairs(g.nodes, to.nodes, p);
    }
  }

  /** The diff accepts the correspondence the mutation announces. */
  lemma {:induction false} AnnouncementAccepted(h: Digest, g: Graph, x: Renaming, to: Graph, s: Match)
    requires Traceable(h, g, x, to) && IsStaged(g.nodes, to.nodes, g.nodes, [], s)
    ensures RenamesAccepted(NodeMap(g.nodes), NodeMap(to.nodes), s, Announced(h, g, x))
  {
    hide IsStaged, ImageNode, Image, NodeMap, Traceable, UniqueIds, NewPath, RenamedTo, RenameCompatible, IsSubtree,
      V.ParentsClosed, V.AllRooted, AllStrip, NoClash;
    MatchedBeforeRenames(h, g, x, to, s);
    TraceableFacts(h, g, x, to);
    RenamedToFacts(h, g, x, to);
    RootInSubtree(g.nodes, x);
    RenameIsIsomorphism(h, g, x, to, x.root);
    NodeMapOf(g.nodes);
    NodeMapOf(to.nodes);
    assert RenameAllowed(NodeMap(g.nodes), NodeMap(to.nodes), s, Announced(h, g, x)[0]);
  }

  lemma {:induction false} RootInSubtree(nodes: seq<Node>, x: Renaming)
    requires IsSubtree(nodes, x.root.id, x.subtree)
    ensures x.root.id in x.subtree
  {
  }

  lemma {:induction false} OnlyIdPairs(F: seq<Node>, T: seq<Node>, p: Pair)
    requires StagePair(F, T, [], p) && !TakenByPath(F, T, p.before)
    ensures p.after.id in SameIds(F, T)
  {
  }

  /** The stages pair the untouched nodes with themselves and the root with its image. */
  lemma {:induction false} StagedPairs(h: Digest, g: Graph, x: Renaming, to: Graph, p: Pair)
    requires Traceable(h, g, x, to) && StagePair(g.nodes, to.nodes, Announced(h, g, x), p)
    ensures p == RootPair(h, g, x) || (p.before == p.after && !p.renamed && p.before.id in NodeMap(g.nodes) && p.before.id !in x.subtree)
  {
    hide NodeMap, Traceable, UniqueIds, NewPath, RenamedTo, SameIds, TakenByPath, RenameCompatible, IsSubtree,
      V.ParentsClosed, V.AllRooted, AllStrip, Image, ImageNode;
    TraceableFacts(h, g, x, to);
    RenamedToFacts(h, g, x, to);
    NothingTaken(h, g, x, to, p.before);
    SameIdsAre(h, g, x, to);
    RenameIsIsomorphism(h, g, x, to, x.root);
    if IdPair(g.nodes, to.nodes, p) {
      assert p.before.id in SameIds(g.nodes, to.nodes) by { IdPairSame(g.nodes, to.nodes, p); }
      var n := Source(h, g, x, to, p.after);
      NodeMapHas(g.nodes, p.before);
      SameNode(g.nodes, n, p.before) by { assert n.id == p.before.id; }
    } else {
      assert RenameMapping(p.before.id, p.after.id) == Announced(h, g, x)[0];
      SameNode(g.nodes, p.before, x.root);
      SameNode(to.nodes, p.after, ImageNode(h, g, x, x.root));
    }
  }

  lemma {:induction false} IdPairSame(F: seq<Node>, T: seq<Node>, p: Pair)
    requires IdPair(F, T, p)
    ensures p.before.id in SameIds(F, T)
  {
  }

  // ----- The carried descendants -----

  /** Below the renamed root no two siblings share kind and name. */
  ghost predicate UniqueBelow(g: Graph, x: Renaming) {
    forall id :: id in x.subtree && id != x.root.id && id in NodeMap(g.nodes) ==> OnlyChild(NodeMap(g.nodes), id)
  }

  /** What the stages say about the pairs, without the sets they are collected into. */
  lemma {:induction false} StagedFacts(F: seq<Node>, T: seq<Node>, renames: seq<RenameMapping>, s: Match)
    requires IsStaged(F, T, F, renames, s)
    ensures forall p :: p in s.pairs ==> StagePair(F, T, renames, p)
    ensures forall r :: r in renames ==> Renamed(s.pairs, r)
    ensures SameIds(F, T) <= BeforeIds(s.pairs)
    ensures s.matchedFrom == SameIds(F, T) + TakenIds(F, T, F) + RenamedFrom(renames) && s.matchedTo == AfterIds(s.pairs)
  {
  }

  lemma {:induction false} StagedSources(h: Digest, g: Graph, x: Renaming, to: Graph, s: Match)
    requires Traceable(h, g, x, to) && IsStaged(g.nodes, to.nodes, g.nodes, Announced(h, g, x), s)
    ensures s.matchedFrom == (NodeMap(g.nodes).Keys - x.subtree) + {x.root.id}
  {
    hide IsStaged, NodeMap, Traceable, SameIds, TakenByPath, BeforeIds, AfterIds, StagePair, Renamed, Image;
    StagedFacts(g.nodes, to.nodes, Announced(h, g, x), s);
    SameIdsAre(h, g, x, to);
    forall b ensures !TakenByPath(g.nodes, to.nodes, b) { NothingTaken(h, g, x, to, b); }
    assert TakenIds(g.nodes, to.nodes, g.nodes) == {};
    assert RenamedFrom(Announced(h, g, x)) == {x.root.id} by { assert Announced(h, g, x)[0] in Announced(h, g, x); }
  }

  lemma {:induction false} RootPairIn(h: Digest, g: Graph, x: Renaming, to: Graph, s: Match)
    requires Traceable(h, g, x, to) && IsStaged(g.nodes, to.nodes, g.nodes, Announced(h, g, x), s)
    ensures RootPair(h, g, x) in s.pairs
    ensures RootPair(h, g, x).after.id == Image(h, g, x, x.root.id) && x.root.id in x.subtree
  {
    hide IsStaged, NodeMap, Traceable, SameIds, TakenIds, BeforeIds, AfterIds, StagePair, Image, ImageNode, RenamedTo, UniqueIds, NewPath;
    var renames := Announced(h, g, x);
    StagedFacts(g.nodes, to.nodes, renames, s);
    TraceableFacts(h, g, x, to);
    RenamedToFacts(h, g, x, to);
    RenameIsIsomorphism(h, g, x, to, x.root);
    RootInSubtree(g.nodes, x);
    assert renames[0] in renames;
    var r :| r in s.pairs && r.renamed && r.before.id == renames[0].from && r.after.id == renames[0].to;
    StagedPairs(h, g, x, to, r);
  }

  lemma {:induction false} StagedTargets(h: Digest, g: Graph, x: Renaming, to: Graph, s: Match)
    requires Traceable(h, g, x, to) && IsStaged(g.nodes, to.nodes, g.nodes, Announced(h, g, x), s)
    ensures s.matchedTo == (NodeMap(g.nodes).Keys - x.subtree) + {Image(h, g, x, x.root.id)}
  {
    hide IsStaged, NodeMap, Traceable, SameIds, TakenIds, StagePair, Image, RootPair, Renamed;
    StagedFacts(g.nodes, to.nodes, Announced(h, g, x), s);
    SameIdsAre(h, g, x, to);
    RootPairIn(h, g, x, to, s);
    assert RootPair(h, g, x).after.id in AfterIds(s.pairs);
    forall id | id in s.matchedTo ensures id in (NodeMap(g.nodes).Keys - x.subtree) + {Image(h, g, x, x.root.id)} {
      var p :| p in s.pairs && p.after.id == id;
      StagedPairs(h, g, x, to, p);
    }
    forall id | id in NodeMap(g.nodes).Keys - x.subtree ensures id in s.matchedTo {
      assert id in BeforeIds(s.pairs);
      var p :| p in s.pairs && p.before.id == id;
      StagedPairs(h, g, x, to, p);
      RootIsRoot(h, g, x);
    }
  }

  lemma {:induction false} RootIsRoot(h: Digest, g: Graph, x: Renaming)
    ensures RootPair(h, g, x).before == x.root
  {
  }

  lemma {:induction false} StagedSets(h: Digest, g: Graph, x: Renaming, to: Graph, s: Match)
    requires Traceable(h, g, x, to) && IsStaged(g.nodes, to.nodes, g.nodes, Announced(h, g, x), s)
    ensures s.matchedFrom == (NodeMap(g.nodes).Keys - x.subtree) + {x.root.id}
    ensures s.matchedTo == (NodeMap(g.nodes).Keys - x.subtree) + {Image(h, g, x, x.root.id)}
    ensures RootPair(h, g, x) in s.pairs
  {
    StagedSources(h, g, x, to, s);
    StagedTargets(h, g, x, to, s);
    RootPairIn(h, g, x, to, s);
  }

  /** Images of siblings without namesakes have no namesakes. */
  lemma {:induction false} ImageOnlyChild(h: Digest, g: Graph, x: Renaming, to: Graph, n: Node)
    requires Traceable(h, g, x, to) && n in g.nodes && n.id in x.subtree && n.id != x.root.id
    requires n.id in NodeMap(g.nodes) && OnlyChild(NodeMap(g.nodes), n.id)
    ensures var y := Image(h, g, x, n.id); y in NodeMap(to.nodes) && NodeMap(to.nodes)[y] == ImageNode(h, g, x, n) && OnlyChild(NodeMap(to.nodes), y)
  {
    hide NodeMap, Traceable, UniqueIds, Image, ImageNode, NewPath, RenameCompatible, RenamedTo, IsSubtree, V.AllRooted, V.ParentsClosed, AllStrip, NoClash, FreshIds;
    TraceableFacts(h, g, x, to);
    RenamedToFacts(h, g, x, to);
    NodeMapOf(to.nodes);
    RenameIsIsomorphism(h, g, x, to, n);
    var a := ImageNode(h, g, x, n);
    var t := NodeMap(to.nodes);
    forall z | z in t && t[z].parentId == a.parentId && LocalName(t[z]) == LocalName(a) ensures z == a.id {
      var k := Source(h, g, x, to, t[z]);
      RenameIsIsomorphism(h, g, x, to, k);
      SameParentBack(h, g, x, to, n, k);
      SameChild(g.nodes, n, k);
    }
  }

  lemma {:induction false} SameChild(nodes: seq<Node>, n: Node, k: Node)
    requires UniqueIds(nodes) && n in nodes && k in nodes && n.id in NodeMap(nodes) && OnlyChild(NodeMap(nodes), n.id)
    requires k.parentId == n.parentId && LocalName(k) == LocalName(n)
    ensures k == n
  {
    hide NodeMap, UniqueIds;
    NodeMapOf(nodes);
    SameNode(nodes, k, n) by { assert NodeMap(nodes)[k.id] == k && NodeMap(nodes)[n.id] == n; }
  }

  /** A node whose image sits beside the image of a subtree member sat beside that member. */
  lemma {:induction false} SameParentBack(h: Digest, g: Graph, x: Renaming, to: Graph, n: Node, k: Node)
    requires Traceable(h, g, x, to) && n in g.nodes && k in g.nodes && n.id in x.subtree && n.id != x.root.id
    requires ImageNode(h, g, x, k).parentId == ImageNode(h, g, x, n).parentId
    ensures k.parentId == n.parentId && k.id in x.subtree && k.id != x.root.id
  {
    hide NodeMap, Traceable, UniqueIds, Image, ImageNode, NewPath, RenameCompatible, RenamedTo, V.AllRooted, AllStrip, NoClash;
    TraceableFacts(h, g, x, to);
    RenamedToFacts(h, g, x, to);
    NodeMapOf(g.nodes);
    RenameIsIsomorphism(h, g, x, to, n);
    RenameIsIsomorphism(h, g, x, to, k);
    SubtreeInside(g.nodes, x.root, x.subtree);
    RootParentOutside(g.nodes, x.root, x.subtree);
    assert n.parentId.Some? && n.parentId.value in x.subtree && k.parentId.Some? && k.parentId.value in NodeMap(g.nodes);
    var p, q := NodeMap(g.nodes)[n.parentId.value], NodeMap(g.nodes)[k.parentId.value];
    ImageInjective(h, g, x, to, p, q);
    assert k.id in x.subtree by { SubtreeClosed(g.nodes, x, k); }
  }

  lemma {:induction false} SubtreeClosed(nodes: seq<Node>, x: Renaming, k: Node)
    requires IsSubtree(nodes, x.root.id, x.subtree) && k in nodes && k.parentId.Some? && k.parentId.value in x.subtree
    ensures k.id in x.subtree
  {
  }

  /** Every descendant of the root is carried to its image. */
  lemma {:induction false} DescendantCarried(h: Digest, g: Graph, x: Renaming, to: Graph, s: Match, carried: map<Id, Id>, id: Id)
    requires Traceable(h, g, x, to) && UniqueBelow(g, x)
    requires IsStaged(g.nodes, to.nodes, g.nodes, Announced(h, g, x), s)
    requires IsCarried(NodeMap(g.nodes), NodeMap(to.nodes), Announced(h, g, x), s, carried)
    requires id in x.subtree && id != x.root.id && id in NodeMap(g.nodes)
    ensures id in carried && carried[id] == Image(h, g, x, id)
    decreases V.Depth(NodeMap(g.nodes), id)
  {
    hide NodeMap, Traceable, UniqueIds, Image, ImageNode, NewPath, RenameCompatible, RenamedTo, IsSubtree, V.AllRooted, AllStrip, NoClash,
      IsStaged, IsCarried, V.Depth, OnlyChild, V.Rooted;
    var f, t, renames := NodeMap(g.nodes), NodeMap(to.nodes), Announced(h, g, x);
    TraceableFacts(h, g, x, to);
    RenamedToFacts(h, g, x, to);
    NodeMapOf(g.nodes);
    NodeMapOf(to.nodes);
    StagedSets(h, g, x, to, s);
    StagedStart(g.nodes, to.nodes, renames, s);
    SubtreeInside(g.nodes, x.root, x.subtree);
    var n := f[id];
    var p := n.parentId.value;
    var y := Image(h, g, x, id);
    ImageOnlyChild(h, g, x, to, n);
    RenameIsIsomorphism(h, g, x, to, n);
    assert Container(renames, carried, p, Image(h, g, x, p)) by {
      if p == x.root.id {
        assert renames[0] in renames;
      } else {
        RootedNode(g.nodes, n);
        V.DepthOfParent(f, id);
        DescendantCarried(h, g, x, to, s, carried, p);
      }
    }
    ImageNotMatched(h, g, x, to, n);
    CarriedWouldSettle(f, t, renames, s, carried, id, y);
    SameTwin(f, t, renames, s, carried, id, y) by { CarriedSound(f, t, renames, s, carried); }
  }

  lemma {:induction false} RootedNode(nodes: seq<Node>, n: Node)
    requires V.AllRooted(nodes) && n in nodes
    ensures V.Rooted(NodeMap(nodes), n)
  {
  }

  lemma {:induction false} CarriedSound(f: Nodes, t: Nodes, renames: seq<RenameMapping>, s: Match, carried: map<Id, Id>)
    requires IsCarried(f, t, renames, s, carried)
    ensures SoundCarry(f, t, renames, s, carried)
  {
  }

  lemma {:induction false} ImageNotMatched(h: Digest, g: Graph, x: Renaming, to: Graph, n: Node)
    requires Traceable(h, g, x, to) && n in g.nodes && n.id in x.subtree && n.id != x.root.id
    ensures Image(h, g, x, n.id) !in NodeMap(g.nodes) && Image(h, g, x, n.id) != Image(h, g, x, x.root.id)
  {
    hide NodeMap, Image, RenamedTo, NoClash, IsSubtree, UniqueIds, V.AllRooted, V.ParentsClosed, AllStrip;
    RenamedToFacts(h, g, x, to);
    ImageInjective(h, g, x, to, n, x.root);
  }

  // ----- The diff -----

  /** With every descendant carried, both graphs are matched completely. */
  lemma {:induction false} EverythingMatched(h: Digest, g: Graph, x: Renaming, to: Graph, m: Match)
    requires Traceable(h, g, x, to) && UniqueBelow(g, x) && IsMatching(g.nodes, to.nodes, Announced(h, g, x), m)
    ensures forall n :: n in g.nodes ==> n.id in m.matchedFrom
    ensures forall a :: a in to.nodes ==> a.id in m.matchedTo
  {
    hide NodeMap, Traceable, UniqueIds, Image, ImageNode, NewPath, RenamedTo, IsStaged, IsCarried, UniqueBelow, IsMatching;
    var s := StagesOf(g.nodes, to.nodes, Announced(h, g, x), m);
    StagedSets(h, g, x, to, s);
    forall n | n in g.nodes ensures n.id in m.matchedFrom {
      NodeMapHas(g.nodes, n);
      if n.id in x.subtree && n.id != x.root.id {
        DescendantCarried(h, g, x, to, s, m.carried, n.id);
      }
    }
    forall a | a in to.nodes ensures a.id in m.matchedTo {
      var n := Source(h, g, x, to, a);
      NodeMapHas(g.nodes, n);
      if n.id in x.subtree && n.id != x.root.id {
        DescendantCarried(h, g, x, to, s, m.carried, n.id);
        assert m.carried[n.id] in m.carried.Values;
      }
    }
  }

  /** The root pair is a rename, not a move: its parent is where it was. */
  lemma {:induction false} RootPairIsRename(h: Digest, g: Graph, x: Renaming, to: Graph)
    requires Traceable(h, g, x, to)
    ensures PairKind(NodeMap(g.nodes), NodeMap(to.nodes), RootPair(h, g, x)) == Rename
  {
    hide NodeMap, Traceable, UniqueIds, Image, NewPath, RenameCompatible, RenamedTo, V.AllRooted, AllStrip, NoClash, ImageNode, V.ParentsClosed;
    TraceableFacts(h, g, x, to);
    RenamedToFacts(h, g, x, to);
    RenameIsIsomorphism(h, g, x, to, x.root);
    RootParentOutside(g.nodes, x.root, x.subtree);
    NodeMapOf(g.nodes);
    NodeMapOf(to.nodes);
    var p := NodeMap(g.nodes)[x.root.parentId.value];
    RenameIsIsomorphism(h, g, x, to, p);
    assert ImageNode(h, g, x, p) == p && p in to.nodes;
    assert Image(h, g, x, p.id) == p.id;
  }

  /** A diff whose only entry is the rename of the root. */
  ghost predicate OnlyRename(h: Digest, g: Graph, x: Renaming, diff: SchemaDiff) {
    && |diff.changes| == 1
    && diff.changes[0].kind == Rename && diff.changes[0].group == None
    && diff.changes[0].before == Some(x.root) && diff.changes[0].after == Some(ImageNode(h, g, x, x.root))
  }

  lemma {:induction false} OnlyRootReported(h: Digest, g: Graph, x: Renaming, to: Graph, m: Match, y: Context, c: Change)
    requires Traceable(h, g, x, to) && UniqueBelow(g, x) && IsMatching(g.nodes, to.nodes, Announced(h, g, x), m)
    requires y.f == NodeMap(g.nodes) && y.t == NodeMap(to.nodes)
    ensures c in RawChanges(h, y, g.nodes, to.nodes, m) <==> c == PairChange(h, y, RootPair(h, g, x))
  {
    hide NodeMap, Traceable, UniqueIds, Image, ImageNode, NewPath, RenamedTo, IsStaged, IsCarried, UniqueBelow, IsMatching, RawChanges,
      PairChange, RootPair, StagePair, Announced;
    RawChangesOf(h, y, g.nodes, to.nodes, m, c);
    EverythingMatched(h, g, x, to, m);
    var s := StagesOf(g.nodes, to.nodes, Announced(h, g, x), m);
    StagedSets(h, g, x, to, s);
    StagedFacts(g.nodes, to.nodes, Announced(h, g, x), s);
    if IsPairChange(h, y, m.pairs, c) {
      var p :| p in m.pairs && Reported(p, y.indexNodesComplete) && c == PairChange(h, y, p);
      StagedPairs(h, g, x, to, p);
      if p != RootPair(h, g, x) {
        NoFieldChanges(p.before, p.after, y.indexNodesComplete);
      }
    }
    RootIsRenamed(h, g, x);
    assert IsPairChange(h, y, m.pairs, PairChange(h, y, RootPair(h, g, x))) by {
      assert RootPair(h, g, x) in m.pairs && Reported(RootPair(h, g, x), y.indexNodesComplete);
    }
  }

  lemma {:induction false} RootIsRenamed(h: Digest, g: Graph, x: Renaming)
    ensures RootPair(h, g, x).renamed
  {
  }

  /** Two siblings below the root with one kind and name. */
  lemma {:induction false} NamesakesBelow(h: Digest, g: Graph, x: Renaming, to: Graph) returns (a: Id, b: Id)
    requires Traceable(h, g, x, to) && !UniqueBelow(g, x)
    ensures a != b && a in x.subtree && b in x.subtree && a != x.root.id && b != x.root.id && a in NodeMap(g.nodes) && b in NodeMap(g.nodes)
    ensures NodeMap(g.nodes)[a].parentId == NodeMap(g.nodes)[b].parentId && LocalName(NodeMap(g.nodes)[a]) == LocalName(NodeMap(g.nodes)[b])
  {
    hide NodeMap, Traceable, UniqueIds, Image, ImageNode, NewPath, RenamedTo, IsSubtree, V.AllRooted, V.ParentsClosed, AllStrip, LocalName;
    TraceableFacts(h, g, x, to);
    RenamedToFacts(h, g, x, to);
    NodeMapOf(g.nodes);
    SubtreeInside(g.nodes, x.root, x.subtree);
    RootParentOutside(g.nodes, x.root, x.subtree);
    var f := NodeMap(g.nodes);
    a :| a in x.subtree && a != x.root.id && a in f && !OnlyChild(f, a);
    b :| b in f && f[b].parentId == f[a].parentId && LocalName(f[b]) == LocalName(f[a]) && a != b;
    SubtreeClosed(g.nodes, x, f[b]);
  }

  lemma {:induction false} OneOfTwoCarried(f: Nodes, t: Nodes, renames: seq<RenameMapping>, s: Match, carried: map<Id, Id>, a: Id, b: Id)
    requires IsCarried(f, t, renames, s, carried) && a != b && a in f && b in f
    requires f[a].parentId == f[b].parentId && LocalName(f[a]) == LocalName(f[b])
    ensures a !in carried || b !in carried
  {
    hide MayCarry, Settled;
  }

  /** Two descendants that share parent, kind and name cannot both be carried. */
  lemma {:induction false} NamesakeLeftOver(h: Digest, g: Graph, x: Renaming, to: Graph, m: Match) returns (n: Node)
    requires Traceable(h, g, x, to) && !UniqueBelow(g, x) && IsMatching(g.nodes, to.nodes, Announced(h, g, x), m)
    ensures n in g.nodes && n.id !in m.matchedFrom
  {
    hide NodeMap, Traceable, UniqueIds, Image, IsStaged, IsMatching, IsCarried, LocalName, Announced, UniqueBelow;
    NodeMapOf(g.nodes);
    var s := StagesOf(g.nodes, to.nodes, Announced(h, g, x), m);
    StagedSources(h, g, x, to, s);
    var a, b := NamesakesBelow(h, g, x, to);
    OneOfTwoCarried(NodeMap(g.nodes), NodeMap(to.nodes), Announced(h, g, x), s, m.carried, a, b);
    n := NodeMap(g.nodes)[if a in m.carried then b else a];
  }

  /**
   * The round trip of a rename: the diff of a graph with its renamed copy, under the announced
   * correspondence, is the one rename if and only if no two siblings below the root share kind and name.
   */
  lemma {:induction false} RenameThenDiff(h: Digest, g: Graph, x: Renaming, to: Graph, m: Match, diff: SchemaDiff)
    requires Injective(h) && Traceable(h, g, x, to)
    requires IsMatching(g.nodes, to.nodes, Announced(h, g, x), m) && IsDiff(h, g, to, m, diff)
    ensures OnlyRename(h, g, x, diff) <==> UniqueBelow(g, x)
  {
    hide NodeMap, Traceable, UniqueIds, Image, ImageNode, NewPath, RenamedTo, IsStaged, IsMatching, RawChanges, UniqueBelow, IsDiff, Injective,
      FieldChanges, ParentPath, FullyCovered, Waits;
    TraceableFacts(h, g, x, to);
    RenamedToFacts(h, g, x, to);
    MatchingOneToOne(g.nodes, to.nodes, Announced(h, g, x), m);
    var y := ContextOf(g, to);
    if UniqueBelow(g, x) {
      var c := PairChange(h, y, RootPair(h, g, x));
      forall d ensures d in RawChanges(h, y, g.nodes, to.nodes, m) <==> d == c {
        OnlyRootReported(h, g, x, to, m, y, d);
      }
      OneChange(h, g, to, m, diff, c);
      RootPairIsRename(h, g, x, to);
      KeptWaitsForNothing(g, to, c);
    } else {
      var n := NamesakeLeftOver(h, g, x, to, m);
      DropReported(h, y, g.nodes, to.nodes, m, n);
      ReportsRaw(h, g, to, m, diff, Some(n), None);
    }
  }
}
