/** Deletion as a sequence of page reads and writes. */
module DeletePages {
  import opened Bytes
  import opened Options
  import opened Entries
  import opened NodePage
  import opened Pager
  import opened Tree
  import opened TreePut
  import opened TreeDelete
  import opened Room
  import opened TreeIO

  /** Routing decides whether the key is there at all. */
  lemma DescendDelete(t: Tree, s: Store, key: Bytes, i: nat)
    requires t.Branch? && Held(t, s) && Sorted(Flat(t)) && Routed(Seps(t.kids), key, i)
    ensures Held(t.kids[i], s) && Sorted(Flat(t.kids[i])) && Ids(t.kids[i]) <= Ids(t)
    ensures HasKey(Flat(t), key) <==> HasKey(Flat(t.kids[i]), key)
  {
    Lookup(t, s, key, i);
    AsMapKeys(Flat(t), key);
    AsMapKeys(Flat(t.kids[i]), key);
    HeldParts(t.kids, s, i);
  }

  /** Delete the key from a leaf, writing the leaf back unless it ran empty. */
  method DeleteFromLeaf(pager: Pager, leaf: Node, key: Bytes, ghost c: Tree)
    returns (r: Option<Node>, ghost news: seq<Tree>)
    requires pager.Valid() && c.Leaf? && Held(c, pager.nodes) && Sorted(Flat(c)) && leaf == NodeOf(c)
    modifies pager
    ensures pager.Valid() && pager.meta == old(pager.meta) && pager.freeSet == old(pager.freeSet)
    ensures r.None? ==> !HasKey(Flat(c), key) && unchanged(pager)
    ensures r.Some? ==> ChildDone(c, news, key, old(pager.nodes), pager.nodes, r.value)
  {
    var entries, found := DeleteEntry(leaf.entries, key);
    if !found {
      return None, [];
    }
    var node := leaf.(entries := entries);
    if |entries| == 0 {
      LeafGone(c, key, pager.nodes);
      return Some(node), [];
    }
    LeafKept(c, key, pager.nodes);
    var ok := pager.StoreNode(node);
    return Some(node), [c.(entries := entries)];
  }

  /** The child c held the key and has become news; its page holds node, or is to be unlinked. */
  ghost predicate ChildDone(c: Tree, news: seq<Tree>, key: Bytes, s: Store, s': Store, node: Node) {
    && HasKey(Flat(c), key) && ChildShrunk(c, news, key, s, s')
    && c.id in s'
    && (if news == [] then node.entries == [] else node == NodeOf(news[0]))
  }

  lemma BranchDone(c: Tree, kids: seq<Tree>, key: Bytes, s: Store, s': Store)
    requires c.Branch? && BranchShrunk(c, kids, key, s, s') && HasKey(Flat(c), key) && Sorted(Flat(c)) && Paged(s')
    ensures Storable(s'[c.id])
    ensures ChildDone(c, if kids == [] then [] else [Branch(c.id, kids)], key, s, s', s'[c.id])
    ensures Fits(s'[c.id].entries) && s'[c.id].id == c.id && (s'[c.id].entries == [] <==> kids == [])
  {
    BranchAsChild(c, kids, key, s, s');
    RemoveSorted(Flat(c), key, -1.0);
    BranchStorable(c.id, kids, s');
  }

  /** Delete the key below a child of a branch, writing the child back unless it ran empty. */
  method DeleteFromChild(pager: Pager, child: Node, key: Bytes, ghost c: Tree)
    returns (r: Result<Option<Node>>, ghost news: seq<Tree>)
    requires pager.Valid() && Held(c, pager.nodes) && Sorted(Flat(c)) && child == NodeOf(c)
    modifies pager
    ensures pager.Valid() && pager.meta.rootPage == old(pager.meta.rootPage)
    ensures r.Ok? ==> old(pager.freeSet) <= pager.freeSet <= old(pager.freeSet) + Ids(c)
    ensures r == Ok(None) ==> !HasKey(Flat(c), key) && unchanged(pager)
    ensures r.Ok? && r.value.Some? ==> ChildDone(c, news, key, old(pager.nodes), pager.nodes, r.value.value)
    ensures r.Err? ==> r.error == DoesNotFit
    ensures r.Err? <==> HasKey(Flat(c), key) && Swells(c, key)
    decreases c, 2
  {
    if child.leaf {
      var leaf;
      leaf, news := DeleteFromLeaf(pager, child, key, c);
      return Ok(leaf), news;
    }
    var deleted, kids := DeleteFromBranch(pager, child, key, false, c);
    if deleted.Err? {
      return Err(deleted.error), [];
    }
    if !deleted.value {
      return Ok(None), [];
    }
    PagerPaged(pager);
    BranchDone(c, kids, key, old(pager.nodes), pager.nodes);
    var node := pager.ReadNode(child.id);
    if |node.value.entries| != 0 {
      pager.Rewrite(node.value);
    }
    return Ok(Some(node.value)), if kids == [] then [] else [Branch(c.id, kids)];
  }

  /** The entries of a branch once child i has the given node; an empty child is unlinked, and freed below non-roots. */
  method Unlink(pager: Pager, es: seq<Entry>, i: nat, child: Node, isRoot: bool) returns (entries: seq<Entry>)
    requires pager.Valid() && i < |es| && es[i].child in pager.nodes
    modifies pager
    ensures pager.Valid() && pager.meta.rootPage == old(pager.meta.rootPage)
    ensures entries == if child.entries == [] then es[..i] + es[i + 1..] else es[i := es[i].(key := child.entries[0].key)]
    ensures pager.nodes == if child.entries == [] && !isRoot then old(pager.nodes) - {es[i].child} else old(pager.nodes)
    ensures pager.freeSet == if child.entries == [] && !isRoot then old(pager.freeSet) + {es[i].child} else old(pager.freeSet)
  {
    if |child.entries| == 0 {
      if !isRoot {
        var freed := pager.FreePage(es[i].child);
      }
      return es[..i] + es[i + 1..];
    }
    var k := FirstKeyOf(child);
    return es[i := es[i].(key := k)];
  }

  /** The separators of the branch once child i has become news. */
  method Relink(pager: Pager, es: seq<Entry>, i: nat, child: Node, isRoot: bool, ghost kids: seq<Tree>, ghost news: seq<Tree>) returns (entries: seq<Entry>)
    requires pager.Valid() && i < |kids| && es == Seps(kids) && kids[i].id in pager.nodes
    requires |news| <= 1 && HeldAll(news, pager.nodes) && (news != [] ==> news[0].id == kids[i].id)
    requires if news == [] then child.entries == [] else child == NodeOf(news[0])
    modifies pager
    ensures pager.Valid() && pager.meta.rootPage == old(pager.meta.rootPage)
    ensures entries == Seps(Replace(kids, i, news))
    ensures pager.nodes == old(pager.nodes) || (news == [] && pager.nodes == old(pager.nodes) - {kids[i].id})
    ensures old(pager.freeSet) <= pager.freeSet <= old(pager.freeSet) + {kids[i].id}
  {
    RewriteSeps(kids, i, news, child, pager.nodes);
    entries := Unlink(pager, es, i, child, isRoot);
  }

  lemma UnlinkSeps(kids: seq<Tree>, i: nat, news: seq<Tree>, node: Node)
    requires i < |kids| && |news| <= 1 && (news != [] ==> news[0].id == kids[i].id && NodeOf(news[0]).entries != [])
    requires if news == [] then node.entries == [] else node == NodeOf(news[0])
    ensures var es := Seps(kids);
      Seps(Replace(kids, i, news)) == if node.entries == [] then es[..i] + es[i + 1..] else es[i := es[i].(key := node.entries[0].key)]
  {
    ShrunkSeps(kids, i, news);
  }

  /** Delete the key below a branch, unlinking a child that ran empty, and rewrite the branch. */
  method DeleteFromBranch(pager: Pager, node: Node, key: Bytes, isRoot: bool, ghost t: Tree)
    returns (r: Result<bool>, ghost kids: seq<Tree>)
    requires pager.Valid() && t.Branch? && Held(t, pager.nodes) && Sorted(Flat(t)) && node == NodeOf(t)
    modifies pager
    ensures pager.Valid() && pager.meta.rootPage == old(pager.meta.rootPage)
    ensures r.Ok? ==> old(pager.freeSet) <= pager.freeSet <= old(pager.freeSet) + Ids(t)
    ensures r == Ok(false) ==> !HasKey(Flat(t), key) && unchanged(pager)
    ensures r == Ok(true) ==> HasKey(Flat(t), key) && BranchShrunk(t, kids, key, old(pager.nodes), pager.nodes)
    ensures r.Err? ==> r.error == DoesNotFit
    ensures r.Err? <==> HasKey(Flat(t), key) && Swells(t, key)
    decreases t, 1
  {
    PagerPaged(pager);
    BranchStorable(t.id, t.kids, pager.nodes);
    var i: nat := ChildIndexFor(node.entries, key);
    RouteIs(Seps(t.kids), key, i);
    var shrunk, news := DeleteAt(pager, node, key, i, t);
    if shrunk.Err? {
      return Err(shrunk.error), [];
    }
    if shrunk.value.None? {
      return Ok(false), [];
    }
    r := RewriteBranch(pager, node, key, isRoot, i, shrunk.value.value, t, news, old(pager.nodes));
    return r, Replace(t.kids, i, news);
  }

  /** Delete the key below child i. */
  method DeleteAt(pager: Pager, node: Node, key: Bytes, i: nat, ghost t: Tree)
    returns (r: Result<Option<Node>>, ghost news: seq<Tree>)
    requires pager.Valid() && t.Branch? && Held(t, pager.nodes) && Sorted(Flat(t)) && node == NodeOf(t) && Routed(node.entries, key, i)
    modifies pager
    ensures pager.Valid() && pager.meta.rootPage == old(pager.meta.rootPage)
    ensures r.Ok? ==> old(pager.freeSet) <= pager.freeSet <= old(pager.freeSet) + Ids(t)
    ensures r == Ok(None) ==> !HasKey(Flat(t), key) && unchanged(pager)
    ensures r.Ok? && r.value.Some? ==> HasKey(Flat(t), key) && ChildDone(t.kids[i], news, key, old(pager.nodes), pager.nodes, r.value.value)
    ensures r.Err? ==> r.error == DoesNotFit
    ensures r.Err? <==> HasKey(Flat(t), key) && Swells(t.kids[i], key)
    decreases t, 0
  {
    DescendDelete(t, pager.nodes, key, i);
    var child := pager.ReadNode(node.entries[i].child);
    r, news := DeleteFromChild(pager, child.value, key, t.kids[i]);
  }

  method RewriteBranch(pager: Pager, node: Node, key: Bytes, isRoot: bool, i: nat, child: Node, ghost t: Tree, ghost news: seq<Tree>, ghost s: Store)
    returns (r: Result<bool>)
    requires pager.Valid() && t.Branch? && Held(t, s) && Sorted(Flat(t)) && node == NodeOf(t) && Routed(node.entries, key, i) && Sorted(node.entries)
    requires ChildDone(t.kids[i], news, key, s, pager.nodes, child)
    modifies pager
    ensures pager.Valid() && pager.meta.rootPage == old(pager.meta.rootPage)
    ensures r.Ok? ==> old(pager.freeSet) <= pager.freeSet <= old(pager.freeSet) + Ids(t)
    ensures r.Ok? ==> r.value && BranchShrunk(t, Replace(t.kids, i, news), key, s, pager.nodes)
    ensures r.Err? ==> r.error == DoesNotFit
    ensures r.Err? <==> !Fits(Rest(t, key))
  {
    ghost var s1 := pager.nodes;
    var entries := Relink(pager, node.entries, i, child, isRoot, t.kids, news);
    PagerPaged(pager);
    RewritePlan(t, i, news, key, s, s1, pager.nodes);
    var ok := pager.StoreNode(node.(entries := entries));
    if !ok {
      return Err(DoesNotFit);
    }
    return Ok(true);
  }

  lemma RewriteSeps(kids: seq<Tree>, i: nat, news: seq<Tree>, child: Node, s1: Store)
    requires i < |kids| && |news| <= 1 && HeldAll(news, s1) && (news != [] ==> news[0].id == kids[i].id)
    requires if news == [] then child.entries == [] else child == NodeOf(news[0])
    ensures var es := Seps(kids);
      Seps(Replace(kids, i, news)) == if child.entries == [] then es[..i] + es[i + 1..] else es[i := es[i].(key := child.entries[0].key)]
    ensures news == [] <==> child.entries == []
  {
    NewsTop(news, s1);
    UnlinkSeps(kids, i, news, child);
  }

  lemma RewritePlan(t: Tree, i: nat, news: seq<Tree>, key: Bytes, s: Store, s1: Store, s2: Store)
    requires t.Branch? && Held(t, s) && Sorted(Flat(t)) && Sorted(Seps(t.kids)) && Routed(Seps(t.kids), key, i) && Paged(s2)
    requires ChildShrunk(t.kids[i], news, key, s, s1)
    requires s2 == s1 || (news == [] && s2 == s1 - {t.kids[i].id})
    ensures t.id in s2 && t.kids[i].id in Ids(t) && (Fits(Seps(Replace(t.kids, i, news))) <==> Fits(Rest(t, key)))
    ensures Storable(Node(t.id, false, 0, Seps(Replace(t.kids, i, news))))
    ensures Fits(Seps(Replace(t.kids, i, news))) ==>
      BranchShrunk(t, Replace(t.kids, i, news), key, s, s2[t.id := Node(t.id, false, 0, Seps(Replace(t.kids, i, news)))])
  {
    var n := Node(t.id, false, 0, Seps(Replace(t.kids, i, news)));
    RestFits(t, key, i, news, s1);
    StillThere(t, i, s, s1, s2);
    ShrunkStorable(t, i, news, key, s, s1, s2);
    if Fits(n.entries) {
      ShrunkBranch(t, i, news, key, s, s1, s2, s2[t.id := n]);
    }
  }

  lemma NewsTop(news: seq<Tree>, s: Store)
    requires HeldAll(news, s)
    ensures news != [] ==> NodeOf(news[0]).entries != []
  {
  }

  /** The page of the branch itself is not touched by work on its child. */
  lemma StillThere(t: Tree, i: nat, s: Store, s1: Store, s2: Store)
    requires t.Branch? && Held(t, s) && i < |t.kids| && Confined(s, s1, Ids(t.kids[i]))
    requires s2 == s1 || s2 == s1 - {t.kids[i].id}
    ensures t.id in s2 && t.kids[i].id in Ids(t)
  {
    HeldParts(t.kids, s, i);
    assert t.kids[i].id in Ids(t.kids[i]);
  }

  /**
   * Delete the key from the tree rooted at a page.  A root branch left with one child takes
   * over that child's node; a root branch left without children is written as it is.
   */
  method DeleteRoot(pager: Pager, root: nat, key: Bytes, ghost t: Tree) returns (r: Result<()>, ghost t': Tree)
    requires pager.Valid() && t.id == root && RootHeld(t, pager.nodes) && Sorted(Flat(t))
    modifies pager
    ensures pager.Valid() && pager.meta.rootPage == old(pager.meta.rootPage)
    ensures r.Ok? ==> old(pager.freeSet) <= pager.freeSet <= old(pager.freeSet) + Ids(t)
    ensures r.Ok? && (t.Leaf? || |Flat(t)| >= 2 || !HasKey(Flat(t), key)) ==> RootShrunk(t, t', key, pager.nodes)
    ensures r.Ok? && !(t.Leaf? || |Flat(t)| >= 2 || !HasKey(Flat(t), key)) ==> Childless(root, pager.nodes)
    ensures r.Err? ==> r.error == DoesNotFit
    ensures r.Err? <==> HasKey(Flat(t), key) && Swells(t, key)
    ensures !HasKey(Flat(t), key) ==> unchanged(pager)
  {
    var node := pager.ReadNode(root);
    if node.value.leaf {
      var entries, found := DeleteEntry(node.value.entries, key);
      if !found {
        RootUnchanged(t, key, pager.nodes);
        return Ok(()), t;
      }
      RootLeafShrunk(t, key, pager.nodes);
      var ok := pager.StoreNode(node.value.(entries := entries));
      return Ok(()), t.(entries := entries);
    }
    var deleted, kids := DeleteFromBranch(pager, node.value, key, true, t);
    if deleted.Err? {
      return Err(deleted.error), t;
    }
    if !deleted.value {
      RootUnchanged(t, key, pager.nodes);
      return Ok(()), t;
    }
    t' := Collapse(pager, root, key, t, kids, old(pager.nodes));
    return Ok(()), t';
  }

  /** After the root branch has been rewritten for kids: pull up an only child. */
  method Collapse(pager: Pager, root: nat, key: Bytes, ghost t: Tree, ghost kids: seq<Tree>, ghost s: Store) returns (ghost t': Tree)
    requires pager.Valid() && t.id == root && t.Branch? && Held(t, s) && Sorted(Flat(t)) && Paged(s) && HasKey(Flat(t), key)
    requires BranchShrunk(t, kids, key, s, pager.nodes)
    modifies pager
    ensures pager.Valid() && pager.meta.rootPage == old(pager.meta.rootPage) && pager.freeSet == old(pager.freeSet)
    ensures |Flat(t)| >= 2 ==> RootShrunk(t, t', key, pager.nodes)
    ensures |Flat(t)| < 2 ==> Childless(root, pager.nodes)
  {
    PagerPaged(pager);
    EmptyOnlyIfGone(kids, pager.nodes);
    RemoveEmpties(Flat(t), key);
    BranchDone(t, kids, key, s, pager.nodes);
    t' := Branch(root, kids);
    var node := pager.ReadNode(root);
    if |node.value.entries| == 1 {
      OnlyChild(t, kids, key, s, pager.nodes);
      var only := pager.ReadNode(node.value.entries[0].child);
      var ok := pager.StoreNode(only.value.(id := root));
      t' := Rerooted(kids[0], root);
      return;
    }
    if kids != [] {
      RootKept(t, kids, key, s, pager.nodes);
    }
    pager.Rewrite(node.value);
  }

  lemma OnlyChild(t: Tree, kids: seq<Tree>, key: Bytes, s: Store, s': Store)
    requires t.Branch? && Held(t, s) && Sorted(Flat(t)) && Paged(s) && Paged(s') && BranchShrunk(t, kids, key, s, s') && |kids| == 1
    ensures Held(kids[0], s') && Fits(NodeOf(kids[0]).entries) && Storable(NodeOf(kids[0]))
    ensures RootShrunk(t, Rerooted(kids[0], t.id), key, s'[t.id := NodeOf(kids[0]).(id := t.id)])
  {
    var u := kids[0];
    assert kids == [u];
    RootCollapsed(t, u, key, s, s');
    RemoveSorted(Flat(t), key, -1.0);
    FlatOne(u);
    assert Flat(u) == Remove(Flat(t), key);
    LooseStorable(u, s');
  }
}
