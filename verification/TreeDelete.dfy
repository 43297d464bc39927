/** What deleting one key does to a tree, step by step up the path from the leaf. */
module TreeDelete {
  import opened Seqs
  import opened Bytes
  import opened Entries
  import opened NodePage
  import opened Tree
  import opened TreePut

  /** The leaves from left to right. */
  ghost function Leaves(t: Tree): seq<Tree>
    decreases t, 1
  {
    match t
    case Leaf(_, _, _) => [t]
    case Branch(_, kids) => LeavesAll(kids)
  }

  ghost function LeavesAll(ts: seq<Tree>): seq<Tree>
    decreases ts, 0
  {
    if ts == [] then [] else Leaves(ts[0]) + LeavesAll(ts[1..])
  }

  lemma {:induction false} LeavesJoin(a: seq<Tree>, b: seq<Tree>)
    ensures LeavesAll(a + b) == LeavesAll(a) + LeavesAll(b)
  {
    if a == [] {
      assert a + b == b;
    } else {
      assert (a + b)[1..] == a[1..] + b;
      LeavesJoin(a[1..], b);
    }
  }

  /** The only entry of leaf p is for key. */
  ghost predicate Sole(ls: seq<Tree>, p: nat, key: Bytes) {
    p < |ls| && ls[p].Leaf? && |ls[p].entries| == 1 && ls[p].entries[0].key == key
  }

  /** ls' is ls with the key removed from leaf p, or without leaf p if that empties it. */
  ghost predicate LeafShrunk(ls: seq<Tree>, ls': seq<Tree>, key: Bytes, p: nat) {
    && p < |ls| && ls[p].Leaf? && HasKey(ls[p].entries, key)
    && ls' == (if Remove(ls[p].entries, key) == [] then ls[..p] + ls[p + 1..]
               else ls[p := ls[p].(entries := Remove(ls[p].entries, key))])
  }

  ghost predicate LeavesShrunk(ls: seq<Tree>, ls': seq<Tree>, key: Bytes) {
    exists p: nat :: LeafShrunk(ls, ls', key, p)
  }

  lemma LeavesShrunkWithin(a: seq<Tree>, ls: seq<Tree>, ls': seq<Tree>, b: seq<Tree>, key: Bytes)
    requires LeavesShrunk(ls, ls', key)
    ensures LeavesShrunk(a + ls + b, a + ls' + b, key)
  {
    var p: nat :| LeafShrunk(ls, ls', key, p);
    MiddleUpdate(a, ls, b, p, ls[p].(entries := Remove(ls[p].entries, key)));
    MiddleRemove(a, ls, b, p);
    assert LeafShrunk(a + ls + b, a + ls' + b, key, |a| + p);
  }

  // ---- one child ----

  /** Nothing outside own changed and no page appeared. */
  ghost predicate Confined(s: Store, s': Store, own: set<nat>) {
    && s'.Keys <= s.Keys
    && forall x | x in s && x !in own :: x in s' && s'[x] == s[x]
  }

  /** The child c has become the trees news: none when it ran empty, else one on the same page. */
  ghost predicate ChildShrunk(c: Tree, news: seq<Tree>, key: Bytes, s: Store, s': Store) {
    && |news| <= 1 && (news != [] ==> news[0].id == c.id)
    && HeldAll(news, s')
    && FlatAll(news) == Remove(Flat(c), key)
    && IdsAll(news) <= Ids(c) && Confined(s, s', Ids(c))
    && LeavesShrunk(Leaves(c), LeavesAll(news), key)
    && SameHeight(c, news)
  }

  lemma LeafKept(c: Tree, key: Bytes, s: Store)
    requires c.Leaf? && Held(c, s) && Sorted(c.entries) && HasKey(c.entries, key) && Remove(c.entries, key) != []
    ensures var u := c.(entries := Remove(c.entries, key));
      Storable(NodeOf(u)) && Fits(u.entries) && ChildShrunk(c, [u], key, s, s[c.id := NodeOf(u)])
  {
    var u := c.(entries := Remove(c.entries, key));
    LeafRoom(c, key, s);
    assert [u][1..] == [];
    assert LeafShrunk(Leaves(c), LeavesAll([u]), key, 0);
  }

  lemma LeafRoom(c: Tree, key: Bytes, s: Store)
    requires c.Leaf? && Held(c, s) && Sorted(c.entries)
    ensures var u := c.(entries := Remove(c.entries, key));
      Storable(NodeOf(u)) && Fits(u.entries) && Pairs(u.entries)
  {
    RemoveSorted(c.entries, key, -1.0);
    RemovePairs(c.entries, key);
    FitsWeight(c.entries);
    FitsWeight(Remove(c.entries, key));
  }

  lemma {:induction false} RemovePairs(es: seq<Entry>, key: Bytes)
    requires Pairs(es)
    ensures Pairs(Remove(es, key)) && Weight(Remove(es, key)) <= Weight(es)
  {
    if es != [] {
      RemovePairs(es[1..], key);
    }
  }

  lemma LeafGone(c: Tree, key: Bytes, s: Store)
    requires c.Leaf? && Held(c, s) && HasKey(c.entries, key) && Remove(c.entries, key) == []
    ensures ChildShrunk(c, [], key, s, s)
  {
    assert LeafShrunk(Leaves(c), [], key, 0);
  }

  /** A branch t after its entries have been rewritten for the children kids. */
  ghost predicate BranchShrunk(t: Tree, kids: seq<Tree>, key: Bytes, s: Store, s': Store) {
    && t.id in s' && s'[t.id] == Node(t.id, false, 0, Seps(kids)) && Fits(Seps(kids))
    && HeldAll(kids, s') && t.id !in IdsAll(kids)
    && FlatAll(kids) == Remove(Flat(t), key)
    && IdsAll(kids) <= Ids(t) && Confined(s, s', Ids(t))
    && LeavesShrunk(Leaves(t), LeavesAll(kids), key)
    && (forall h: nat, k | HeightIs(t, h) && k in kids :: h > 0 && HeightIs(k, h - 1))
  }

  /** A shrunk branch is a shrunk child of its parent. */
  lemma BranchAsChild(c: Tree, kids: seq<Tree>, key: Bytes, s: Store, s': Store)
    requires c.Branch? && BranchShrunk(c, kids, key, s, s')
    ensures ChildShrunk(c, if kids == [] then [] else [Branch(c.id, kids)], key, s, s')
  {
    var news := if kids == [] then [] else [Branch(c.id, kids)];
    if kids != [] {
      var u := news[0];
      assert news[1..] == [];
      FlatOne(u);
      assert LeavesAll(news) == Leaves(u);
    }
  }

  /** The entries of a branch after its child i has shrunk to news. */
  lemma ShrunkSeps(kids: seq<Tree>, i: nat, news: seq<Tree>)
    requires i < |kids| && |news| <= 1
    ensures Seps(Replace(kids, i, news)) ==
      if news == [] then Seps(kids)[..i] + Seps(kids)[i + 1..] else Seps(kids)[i := Sep(news[0])]
  {
  }

  lemma ShrunkFlat(kids: seq<Tree>, i: nat, news: seq<Tree>, key: Bytes, s: Store)
    requires HeldAll(kids, s) && Sorted(FlatAll(kids)) && Routed(Seps(kids), key, i)
    requires FlatAll(news) == Remove(Flat(kids[i]), key)
    ensures FlatAll(Replace(kids, i, news)) == Remove(FlatAll(kids), key)
  {
    RouteSplits(kids, s, key, i);
    var a, b := FlatAll(kids[..i]), FlatAll(kids[i + 1..]);
    calc {
      FlatAll(Replace(kids, i, news));
    == { ReplaceFlat(kids, i, news); }
      a + Remove(Flat(kids[i]), key) + b;
    == { RemoveWithin(a, Flat(kids[i]), b, key); }
      Remove(a + Flat(kids[i]) + b, key);
    == { FlatSplit(kids, i); }
      Remove(FlatAll(kids), key);
    }
  }

  lemma ShrunkLeaves(kids: seq<Tree>, i: nat, news: seq<Tree>, key: Bytes)
    requires i < |kids| && LeavesShrunk(Leaves(kids[i]), LeavesAll(news), key)
    ensures LeavesShrunk(LeavesAll(kids), LeavesAll(Replace(kids, i, news)), key)
  {
    var a, b := LeavesAll(kids[..i]), LeavesAll(kids[i + 1..]);
    assert LeavesAll(kids) == a + Leaves(kids[i]) + b by {
      LeavesReplace(kids, i, [kids[i]]);
      LeavesOne(kids[i]);
      ReplaceSame(kids, i);
    }
    LeavesReplace(kids, i, news);
    LeavesShrunkWithin(a, Leaves(kids[i]), LeavesAll(news), b, key);
  }

  lemma LeavesOne(t: Tree)
    ensures LeavesAll([t]) == Leaves(t)
  {
    assert [t][1..] == [];
  }

  lemma LeavesReplace(kids: seq<Tree>, i: nat, news: seq<Tree>)
    requires i < |kids|
    ensures LeavesAll(Replace(kids, i, news)) == LeavesAll(kids[..i]) + LeavesAll(news) + LeavesAll(kids[i + 1..])
  {
    LeavesJoin(kids[..i], news);
    LeavesJoin(kids[..i] + news, kids[i + 1..]);
  }

  /** Rewriting a branch after its child i has shrunk. */
  lemma ShrunkBranch(t: Tree, i: nat, news: seq<Tree>, key: Bytes, s: Store, s1: Store, s2: Store, s3: Store)
    requires t.Branch? && Held(t, s) && Sorted(Flat(t)) && Routed(Seps(t.kids), key, i)
    requires ChildShrunk(t.kids[i], news, key, s, s1)
    requires s2 == s1 || (news == [] && s2 == s1 - {t.kids[i].id})
    requires s3 == s2[t.id := Node(t.id, false, 0, Seps(Replace(t.kids, i, news)))] && Fits(Seps(Replace(t.kids, i, news)))
    ensures BranchShrunk(t, Replace(t.kids, i, news), key, s, s3)
  {
    ShrunkFlat(t.kids, i, news, key, s);
    ShrunkLeaves(t.kids, i, news, key);
    ShrunkHeight(t, i, news);
    ShrunkHeld(t, i, news, s, s1, s2, s3);
  }

  lemma ShrunkStorable(t: Tree, i: nat, news: seq<Tree>, key: Bytes, s: Store, s1: Store, s2: Store)
    requires t.Branch? && Held(t, s) && Sorted(Flat(t)) && Routed(Seps(t.kids), key, i) && Paged(s2)
    requires ChildShrunk(t.kids[i], news, key, s, s1)
    requires s2 == s1 || (news == [] && s2 == s1 - {t.kids[i].id})
    ensures Storable(Node(t.id, false, 0, Seps(Replace(t.kids, i, news))))
  {
    ShrunkFlat(t.kids, i, news, key, s);
    RemoveSorted(Flat(t), key, -1.0);
    HeldParts(t.kids, s, i);
    assert t.kids[i].id in Ids(t.kids[i]);
    HeldReplace(t.kids, i, news, s, s2);
    BranchStorable(t.id, Replace(t.kids, i, news), s2);
  }

  lemma ShrunkHeight(t: Tree, i: nat, news: seq<Tree>)
    requires t.Branch? && i < |t.kids| && SameHeight(t.kids[i], news)
    ensures forall h: nat, k | HeightIs(t, h) && k in Replace(t.kids, i, news) :: h > 0 && HeightIs(k, h - 1)
  {
    assert t.kids[i] in t.kids;
    assert forall k | k in Replace(t.kids, i, news) :: k in t.kids || k in news;
  }

  lemma ShrunkHeld(t: Tree, i: nat, news: seq<Tree>, s: Store, s1: Store, s2: Store, s3: Store)
    requires t.Branch? && Held(t, s) && i < |t.kids|
    requires HeldAll(news, s1) && IdsAll(news) <= Ids(t.kids[i]) && Confined(s, s1, Ids(t.kids[i]))
    requires s2 == s1 || (news == [] && s2 == s1 - {t.kids[i].id})
    requires t.id in s3 && s3 == s2[t.id := s3[t.id]]
    ensures HeldAll(Replace(t.kids, i, news), s3) && t.id !in IdsAll(Replace(t.kids, i, news))
    ensures IdsAll(Replace(t.kids, i, news)) <= Ids(t) && Confined(s, s3, Ids(t))
  {
    HeldParts(t.kids, s, i);
    ReplaceFlat(t.kids, i, news);
    assert t.kids[i].id in Ids(t.kids[i]);
    HeldReplace(t.kids, i, news, s, s2);
    IdsAllHeld(Replace(t.kids, i, news), s2);
    HeldAllFrame(Replace(t.kids, i, news), s2, s3);
    IdsHeld(t, s);
  }

  // ---- the leaf chain ----

  ghost predicate AreLeaves(ls: seq<Tree>) {
    forall i | 0 <= i < |ls| :: ls[i].Leaf?
  }

  ghost function LinksOf(ls: seq<Tree>): (l: seq<(nat, nat)>)
    requires AreLeaves(ls)
    ensures |l| == |ls| && forall i | 0 <= i < |ls| :: l[i] == (ls[i].id, ls[i].next)
  {
    seq(|ls|, i requires 0 <= i < |ls| => (ls[i].id, ls[i].next))
  }

  ghost function FlatLeaves(ls: seq<Tree>): seq<Entry>
    requires AreLeaves(ls)
  {
    if ls == [] then [] else ls[0].entries + FlatLeaves(ls[1..])
  }

  lemma {:induction false} FlatLeavesJoin(a: seq<Tree>, b: seq<Tree>)
    requires AreLeaves(a) && AreLeaves(b)
    ensures FlatLeaves(a + b) == FlatLeaves(a) + FlatLeaves(b)
  {
    if a == [] {
      assert a + b == b;
    } else {
      assert (a + b)[1..] == a[1..] + b;
      FlatLeavesJoin(a[1..], b);
    }
  }

  /** The leaves carry all the entries and all the links of the tree. */
  lemma {:induction false} LeavesCover(t: Tree)
    ensures AreLeaves(Leaves(t))
    ensures Flat(t) == FlatLeaves(Leaves(t)) && Links(t) == LinksOf(Leaves(t))
    decreases t, 1
  {
    if t.Leaf? {
      assert [t][1..] == [];
    } else {
      LeavesCoverAll(t.kids);
    }
  }

  lemma {:induction false} LeavesCoverAll(ts: seq<Tree>)
    ensures AreLeaves(LeavesAll(ts))
    ensures FlatAll(ts) == FlatLeaves(LeavesAll(ts)) && LinksAll(ts) == LinksOf(LeavesAll(ts))
    decreases ts, 0
  {
    if ts != [] {
      LeavesCover(ts[0]);
      LeavesCoverAll(ts[1..]);
      FlatLeavesJoin(Leaves(ts[0]), LeavesAll(ts[1..]));
    }
  }

  ghost predicate DistinctIn(ls: seq<Tree>, ids: set<nat>) {
    && (forall i | 0 <= i < |ls| :: ls[i].id in ids)
    && (forall i, j | 0 <= i < j < |ls| :: ls[i].id != ls[j].id)
  }

  lemma {:induction false} LeavesDistinct(t: Tree, s: Store)
    requires Held(t, s)
    ensures DistinctIn(Leaves(t), Ids(t))
    decreases t, 1
  {
    if t.Branch? {
      LeavesDistinctAll(t.kids, s);
    }
  }

  lemma {:induction false} LeavesDistinctAll(ts: seq<Tree>, s: Store)
    requires HeldAll(ts, s)
    ensures DistinctIn(LeavesAll(ts), IdsAll(ts))
    decreases ts, 0
  {
    if ts != [] {
      LeavesDistinct(ts[0], s);
      LeavesDistinctAll(ts[1..], s);
    }
  }

  lemma {:induction false} KeyInLeaves(ls: seq<Tree>, q: nat, key: Bytes)
    requires AreLeaves(ls) && q < |ls| && HasKey(ls[q].entries, key)
    ensures HasKey(FlatLeaves(ls), key)
  {
    if q == 0 {
      var i :| 0 <= i < |ls[0].entries| && ls[0].entries[i].key == key;
      assert FlatLeaves(ls)[i].key == key;
    } else {
      KeyInLeaves(ls[1..], q - 1, key);
      var i :| 0 <= i < |FlatLeaves(ls[1..])| && FlatLeaves(ls[1..])[i].key == key;
      assert FlatLeaves(ls)[|ls[0].entries| + i].key == key;
    }
  }

  /** A key of a sorted leaf sequence is in one leaf only. */
  lemma {:induction false} OneLeaf(ls: seq<Tree>, p: nat, q: nat, key: Bytes)
    requires AreLeaves(ls) && Sorted(FlatLeaves(ls)) && p < q < |ls|
    ensures !(HasKey(ls[p].entries, key) && HasKey(ls[q].entries, key))
  {
    var f, b := ls[0].entries, FlatLeaves(ls[1..]);
    assert f + b == [] + f + b;
    SortedParts([], f, b);
    if p > 0 {
      OneLeaf(ls[1..], p - 1, q - 1, key);
    } else if HasKey(ls[q].entries, key) {
      KeyInLeaves(ls[1..], q - 1, key);
      DisjointParts(f, b, key);
    }
  }

  lemma DisjointParts(f: seq<Entry>, b: seq<Entry>, key: Bytes)
    requires Sorted(f + b) && HasKey(b, key)
    ensures !HasKey(f, key)
  {
    var j :| 0 <= j < |b| && b[j].key == key;
    assert (f + b)[|f| + j] == b[j];
    assert forall i | 0 <= i < |f| :: f[i] == (f + b)[i];
  }

  /** Some leaf other than the first holds nothing but key. */
  ghost predicate EmptiesInnerLeaf(ls: seq<Tree>, key: Bytes) {
    exists p: nat :: p > 0 && Sole(ls, p, key)
  }

  lemma {:induction false} RemoveEmpties(es: seq<Entry>, key: Bytes)
    requires HasKey(es, key)
    ensures Remove(es, key) == [] <==> |es| == 1
  {
    if es[0].key == key {
      assert |es[1..]| == |es| - 1;
    }
  }

  /** After a deletion the chain is still in order unless a leaf other than the first was emptied. */
  lemma ChainAfterDelete(ls: seq<Tree>, ls': seq<Tree>, key: Bytes, ids: set<nat>)
    requires AreLeaves(ls) && AreLeaves(ls') && Sorted(FlatLeaves(ls)) && DistinctIn(ls, ids) && 0 !in ids
    requires Chained(LinksOf(ls), 0) && LeavesShrunk(ls, ls', key)
    ensures Chained(LinksOf(ls'), 0) <==> !EmptiesInnerLeaf(ls, key)
  {
    var p: nat :| LeafShrunk(ls, ls', key, p);
    RemoveEmpties(ls[p].entries, key);
    if |ls[p].entries| == 1 {
      ChainAfterLast(ls, ls', key, ids, p);
    } else {
      SoleUnique(ls, p, key);
      LinksKept(ls, ls', p);
    }
  }

  /** The deletion empties leaf p. */
  lemma ChainAfterLast(ls: seq<Tree>, ls': seq<Tree>, key: Bytes, ids: set<nat>, p: nat)
    requires AreLeaves(ls) && AreLeaves(ls') && Sorted(FlatLeaves(ls)) && DistinctIn(ls, ids) && 0 !in ids
    requires Chained(LinksOf(ls), 0) && LeafShrunk(ls, ls', key, p) && |ls[p].entries| == 1
    ensures Chained(LinksOf(ls'), 0) <==> !EmptiesInnerLeaf(ls, key)
  {
    RemoveEmpties(ls[p].entries, key);
    SoleUnique(ls, p, key);
    assert Sole(ls, p, key);
    ChainWithout(LinksOf(ls), p);
    LinksWithout(ls, ls', p);
  }

  lemma SoleUnique(ls: seq<Tree>, p: nat, key: Bytes)
    requires AreLeaves(ls) && Sorted(FlatLeaves(ls)) && p < |ls| && HasKey(ls[p].entries, key)
    ensures forall q: nat | Sole(ls, q, key) :: q == p
  {
    forall q: nat | Sole(ls, q, key)
      ensures q == p
    {
      assert HasKey(ls[q].entries, key);
      if q < p {
        OneLeaf(ls, q, p, key);
      } else if p < q {
        OneLeaf(ls, p, q, key);
      }
    }
  }

  lemma LinksWithout(ls: seq<Tree>, ls': seq<Tree>, p: nat)
    requires AreLeaves(ls) && AreLeaves(ls') && p < |ls| && ls' == ls[..p] + ls[p + 1..]
    ensures LinksOf(ls') == LinksOf(ls)[..p] + LinksOf(ls)[p + 1..]
  {
  }

  lemma LinksKept(ls: seq<Tree>, ls': seq<Tree>, p: nat)
    requires AreLeaves(ls) && AreLeaves(ls') && p < |ls| && |ls'| == |ls|
    requires ls' == ls[p := ls'[p]] && ls'[p].id == ls[p].id && ls'[p].next == ls[p].next
    ensures LinksOf(ls') == LinksOf(ls)
  {
  }

  lemma ChainWithout(l: seq<(nat, nat)>, p: nat)
    requires p < |l| && Chained(l, 0)
    requires forall i, j | 0 <= i < j < |l| :: l[i].0 != l[j].0
    requires forall i | 0 <= i < |l| :: l[i].0 != 0
    ensures Chained(l[..p] + l[p + 1..], 0) <==> p == 0
  {
    var l' := l[..p] + l[p + 1..];
    if p > 0 {
      assert l'[p - 1] == l[p - 1] && l[p - 1].1 == l[p].0;
      assert p < |l'| ==> l'[p] == l[p + 1];
    }
  }

  // ---- the root ----

  /** The tree u moved to another page. */
  ghost function Rerooted(u: Tree, id: nat): Tree {
    match u
    case Leaf(_, next, entries) => Leaf(id, next, entries)
    case Branch(_, kids) => Branch(id, kids)
  }

  /** The whole tree t has become t' with the key gone. */
  ghost predicate RootShrunk(t: Tree, t': Tree, key: Bytes, s': Store) {
    && t'.id == t.id && RootHeld(t', s')
    && Flat(t') == Remove(Flat(t), key)
    && (Chained(Links(t), 0) ==> (Chained(Links(t'), 0) <==> !EmptiesInnerLeaf(Leaves(t), key)))
    && (forall h: nat | HeightIs(t, h) :: HeightIs(t', h) || (h > 0 && HeightIs(t', h - 1)))
  }

  lemma NotThere(t: Tree, key: Bytes)
    requires !HasKey(Flat(t), key)
    ensures Remove(Flat(t), key) == Flat(t) && !EmptiesInnerLeaf(Leaves(t), key)
  {
    RemoveMissing(Flat(t), key);
    LeavesCover(t);
    forall p: nat | Sole(Leaves(t), p, key)
      ensures false
    {
      assert HasKey(Leaves(t)[p].entries, key);
      KeyInLeaves(Leaves(t), p, key);
    }
  }

  lemma RootUnchanged(t: Tree, key: Bytes, s: Store)
    requires RootHeld(t, s) && !HasKey(Flat(t), key)
    ensures RootShrunk(t, t, key, s)
  {
    NotThere(t, key);
  }

  lemma RootLeafShrunk(t: Tree, key: Bytes, s: Store)
    requires t.Leaf? && RootHeld(t, s) && Sorted(t.entries)
    ensures var u := t.(entries := Remove(t.entries, key));
      Storable(NodeOf(u)) && Fits(u.entries) && RootShrunk(t, u, key, s[t.id := NodeOf(u)])
  {
    var u := t.(entries := Remove(t.entries, key));
    RemoveSorted(t.entries, key, -1.0);
    RemovePairs(t.entries, key);
    FitsWeight(t.entries);
    FitsWeight(u.entries);
  }

  /** The chain criterion for a root branch whose children have become kids. */
  lemma RootChain(t: Tree, kids: seq<Tree>, key: Bytes, s: Store)
    requires Held(t, s) && Sorted(Flat(t)) && LeavesShrunk(Leaves(t), LeavesAll(kids), key) && Paged(s)
    ensures Chained(Links(t), 0) ==> (Chained(LinksAll(kids), 0) <==> !EmptiesInnerLeaf(Leaves(t), key))
  {
    if Chained(Links(t), 0) {
      LeavesCover(t);
      LeavesCoverAll(kids);
      LeavesDistinct(t, s);
      IdsHeld(t, s);
      ChainAfterDelete(Leaves(t), LeavesAll(kids), key, Ids(t));
    }
  }

  lemma RootKept(t: Tree, kids: seq<Tree>, key: Bytes, s: Store, s': Store)
    requires t.Branch? && Held(t, s) && Sorted(Flat(t)) && Paged(s) && BranchShrunk(t, kids, key, s, s') && kids != []
    ensures RootShrunk(t, Branch(t.id, kids), key, s')
  {
    RootChain(t, kids, key, s);
  }

  /** Copying the only child into the root page does not change the map. */
  lemma RootCollapsed(t: Tree, u: Tree, key: Bytes, s: Store, s': Store)
    requires t.Branch? && Held(t, s) && Sorted(Flat(t)) && Paged(s) && BranchShrunk(t, [u], key, s, s')
    ensures RootShrunk(t, Rerooted(u, t.id), key, s'[t.id := NodeOf(u).(id := t.id)])
  {
    var t' := Rerooted(u, t.id);
    RootChain(t, [u], key, s);
    FlatOne(u);
    assert Held(u, s') && u in [u];
    assert NodeOf(t') == NodeOf(u).(id := t.id);
    LooseHeld(t', s', s'[t.id := NodeOf(t')]);
    RerootedChain(u, t.id);
  }

  lemma RerootedChain(u: Tree, id: nat)
    ensures Chained(Links(Rerooted(u, id)), 0) <==> Chained(Links(u), 0)
    ensures Flat(Rerooted(u, id)) == Flat(u)
    ensures forall h: nat :: HeightIs(Rerooted(u, id), h) <==> HeightIs(u, h)
  {
  }

  lemma EmptyOnlyIfGone(kids: seq<Tree>, s: Store)
    requires HeldAll(kids, s)
    ensures FlatAll(kids) == [] <==> kids == []
  {
    if kids != [] {
      FlatFirst(kids[0], s);
    }
  }

  /** The page holds a branch without entries. */
  ghost predicate Childless(id: nat, s: Store) {
    id in s && s[id] == Node(id, false, 0, [])
  }

  /** A childless root page is the root of no tree. */
  lemma NoTree(id: nat, s: Store)
    requires Childless(id, s)
    ensures forall t: Tree | t.id == id :: !RootHeld(t, s)
  {
    forall t: Tree | t.id == id
      ensures !RootHeld(t, s)
    {
      assert t.Branch? && NodeOf(t) == s[id] ==> |Seps(t.kids)| == 0;
    }
  }
}
