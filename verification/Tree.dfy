/**
 * The shape of a B+Tree: which nodes a tree consists of, what page holds each of them,
 * and the sorted list of entries the tree stands for.
 */
module Tree {
  import opened Bytes
  import opened Entries
  import opened NodePage
  import opened Seqs

  /** A tree as a value; every node carries the id of the page that holds it. */
  datatype Tree =
    | Leaf(id: nat, next: nat, entries: seq<Entry>)
    | Branch(id: nat, kids: seq<Tree>)

  type Store = map<nat, Node>

  /** The entries of the tree from left to right. */
  ghost function Flat(t: Tree): seq<Entry>
    decreases t, 1
  {
    match t
    case Leaf(_, _, entries) => entries
    case Branch(_, kids) => FlatAll(kids)
  }

  ghost function FlatAll(ts: seq<Tree>): seq<Entry>
    decreases ts, 0
  {
    if ts == [] then [] else Flat(ts[0]) + FlatAll(ts[1..])
  }

  /** The pages of the tree. */
  ghost function Ids(t: Tree): set<nat>
    decreases t, 1
  {
    match t
    case Leaf(id, _, _) => {id}
    case Branch(id, kids) => {id} + IdsAll(kids)
  }

  ghost function IdsAll(ts: seq<Tree>): set<nat>
    decreases ts, 0
  {
    if ts == [] then {} else Ids(ts[0]) + IdsAll(ts[1..])
  }

  /** The page links of the leaves from left to right: own id and next id. */
  ghost function Links(t: Tree): seq<(nat, nat)>
    decreases t, 1
  {
    match t
    case Leaf(id, next, _) => [(id, next)]
    case Branch(_, kids) => LinksAll(kids)
  }

  ghost function LinksAll(ts: seq<Tree>): seq<(nat, nat)>
    decreases ts, 0
  {
    if ts == [] then [] else Links(ts[0]) + LinksAll(ts[1..])
  }

  /** Every leaf is h levels below the root of t. */
  ghost predicate HeightIs(t: Tree, h: nat) {
    match t
    case Leaf(_, _, _) => h == 0
    case Branch(_, kids) => h > 0 && forall k | k in kids :: HeightIs(k, h - 1)
  }

  /** The key a parent keeps for t: the first key of its leftmost leaf. */
  ghost function FirstKey(t: Tree): Bytes {
    match t
    case Leaf(_, _, entries) => if entries == [] then [] else entries[0].key
    case Branch(_, kids) => if kids == [] then [] else FirstKey(kids[0])
  }

  ghost function Sep(t: Tree): Entry {
    Entry(FirstKey(t), [], t.id)
  }

  /** The entries of a branch with the given children. */
  ghost function Seps(ts: seq<Tree>): (es: seq<Entry>)
    ensures |es| == |ts|
    ensures forall i | 0 <= i < |ts| :: es[i] == Sep(ts[i])
  {
    seq(|ts|, i requires 0 <= i < |ts| => Sep(ts[i]))
  }

  ghost function NodeOf(t: Tree): Node {
    match t
    case Leaf(id, next, entries) => Node(id, true, next, entries)
    case Branch(id, kids) => Node(id, false, 0, Seps(kids))
  }

  ghost predicate Pairs(es: seq<Entry>) {
    forall i | 0 <= i < |es| :: |es[i].key| > 0 && es[i].child == 0
  }

  /** No node of the tree is empty. */
  ghost predicate Top(t: Tree) {
    match t
    case Leaf(_, next, entries) => entries != [] && Pairs(entries) && next < U64_LIMIT
    case Branch(_, kids) => kids != []
  }

  /**
   * The store holds the tree: each page of t holds the node of t with that id, separators
   * are the first keys of their subtrees, nodes fit their pages, and no page is used twice.
   */
  ghost predicate Held(t: Tree, s: Store)
    decreases t, 1
  {
    && Top(t) && Fits(NodeOf(t).entries)
    && t.id in s && s[t.id] == NodeOf(t)
    && (t.Branch? ==> HeldAll(t.kids, s) && t.id !in IdsAll(t.kids))
  }

  ghost predicate HeldAll(ts: seq<Tree>, s: Store)
    decreases ts, 0
  {
    ts != [] ==> Held(ts[0], s) && Ids(ts[0]) !! IdsAll(ts[1..]) && HeldAll(ts[1..], s)
  }

  // ---- concatenation ----

  lemma {:induction false} FlatJoin(a: seq<Tree>, b: seq<Tree>)
    ensures FlatAll(a + b) == FlatAll(a) + FlatAll(b)
  {
    if a == [] {
      assert a + b == b;
    } else {
      assert (a + b)[1..] == a[1..] + b;
      FlatJoin(a[1..], b);
    }
  }

  lemma {:induction false} IdsJoin(a: seq<Tree>, b: seq<Tree>)
    ensures IdsAll(a + b) == IdsAll(a) + IdsAll(b)
  {
    if a == [] {
      assert a + b == b;
    } else {
      assert (a + b)[1..] == a[1..] + b;
      IdsJoin(a[1..], b);
    }
  }

  lemma {:induction false} LinksJoin(a: seq<Tree>, b: seq<Tree>)
    ensures LinksAll(a + b) == LinksAll(a) + LinksAll(b)
  {
    if a == [] {
      assert a + b == b;
    } else {
      assert (a + b)[1..] == a[1..] + b;
      LinksJoin(a[1..], b);
    }
  }

  lemma {:induction false} HeldJoin(a: seq<Tree>, b: seq<Tree>, s: Store)
    ensures HeldAll(a + b, s) <==> HeldAll(a, s) && HeldAll(b, s) && IdsAll(a) !! IdsAll(b)
  {
    if a == [] {
      assert a + b == b;
    } else {
      assert (a + b)[1..] == a[1..] + b;
      HeldJoin(a[1..], b, s);
      IdsJoin(a[1..], b);
    }
  }

  /** A held tree depends only on its own pages. */
  lemma {:induction false} HeldFrame(t: Tree, s: Store, s': Store)
    requires Held(t, s)
    requires forall x | x in Ids(t) :: x in s && x in s' && s'[x] == s[x]
    ensures Held(t, s')
    decreases t, 1
  {
    assert t.id in Ids(t);
    if t.Branch? {
      HeldAllFrame(t.kids, s, s');
    }
  }

  lemma {:induction false} HeldAllFrame(ts: seq<Tree>, s: Store, s': Store)
    requires HeldAll(ts, s)
    requires forall x | x in IdsAll(ts) :: x in s && x in s' && s'[x] == s[x]
    ensures HeldAll(ts, s')
    decreases ts, 0
  {
    if ts != [] {
      HeldFrame(ts[0], s, s');
      HeldAllFrame(ts[1..], s, s');
    }
  }

  lemma {:induction false} IdsHeld(t: Tree, s: Store)
    requires Held(t, s)
    ensures Ids(t) <= s.Keys
    decreases t, 1
  {
    if t.Branch? {
      IdsAllHeld(t.kids, s);
    }
  }

  lemma {:induction false} IdsAllHeld(ts: seq<Tree>, s: Store)
    requires HeldAll(ts, s)
    ensures IdsAll(ts) <= s.Keys
    decreases ts, 0
  {
    if ts != [] {
      IdsHeld(ts[0], s);
      IdsAllHeld(ts[1..], s);
    }
  }

  // ---- separators and routing ----

  lemma FlatSplit(ts: seq<Tree>, i: nat)
    requires i < |ts|
    ensures FlatAll(ts) == FlatAll(ts[..i]) + Flat(ts[i]) + FlatAll(ts[i + 1..])
  {
    FlatJoin(ts[..i], ts[i..]);
    assert ts == ts[..i] + ts[i..];
    FlatHead(ts, i);
    Assoc(FlatAll(ts[..i]), Flat(ts[i]), FlatAll(ts[i + 1..]));
  }

  lemma FlatHead(ts: seq<Tree>, i: nat)
    requires i < |ts|
    ensures FlatAll(ts[i..]) == Flat(ts[i]) + FlatAll(ts[i + 1..])
  {
    assert ts[i..][1..] == ts[i + 1..];
  }

  lemma {:induction false} HeldAt(ts: seq<Tree>, s: Store, i: nat)
    requires HeldAll(ts, s) && i < |ts|
    ensures Held(ts[i], s)
  {
    if i > 0 {
      HeldAt(ts[1..], s, i - 1);
    }
  }

  /** The first key of a held tree is the key of its first entry. */
  lemma {:induction false} FlatFirst(t: Tree, s: Store)
    requires Held(t, s)
    ensures Flat(t) != [] && Flat(t)[0].key == FirstKey(t)
  {
    if t.Branch? {
      FlatFirst(t.kids[0], s);
    }
  }

  lemma {:induction false} FlatPairs(t: Tree, s: Store)
    requires Held(t, s)
    ensures Pairs(Flat(t))
    decreases t, 1
  {
    if t.Branch? {
      FlatAllPairs(t.kids, s);
    }
  }

  lemma {:induction false} FlatAllPairs(ts: seq<Tree>, s: Store)
    requires HeldAll(ts, s)
    ensures Pairs(FlatAll(ts))
    decreases ts, 0
  {
    if ts != [] {
      FlatPairs(ts[0], s);
      FlatAllPairs(ts[1..], s);
    }
  }

  /** Separators of earlier children are smaller. */
  lemma SepBefore(ts: seq<Tree>, s: Store, i: nat, j: nat)
    requires HeldAll(ts, s) && Sorted(FlatAll(ts)) && i < j < |ts|
    ensures Rank(FirstKey(ts[i])) < Rank(FirstKey(ts[j]))
  {
    HeldAt(ts, s, i);
    HeldAt(ts, s, j);
    FlatFirst(ts[i], s);
    FlatFirst(ts[j], s);
    FlatSplit(ts, i);
    FlatSplit(ts[i + 1..], j - i - 1);
    var a, f, b := FlatAll(ts[..i]), Flat(ts[i]), FlatAll(ts[i + 1..]);
    var p := |FlatAll(ts[i + 1..][..j - i - 1])|;
    assert b[p] == Flat(ts[j])[0];
    assert FlatAll(ts)[|a|] == f[0] && FlatAll(ts)[|a| + |f| + p] == b[p];
  }

  /** The ids of a store that a pager keeps. */
  ghost predicate Paged(s: Store) {
    forall x | x in s :: 0 < x < U64_LIMIT
  }

  lemma BranchStorable(id: nat, ts: seq<Tree>, s: Store)
    requires HeldAll(ts, s) && Sorted(FlatAll(ts)) && Paged(s)
    ensures Storable(NodeOf(Branch(id, ts)))
  {
    var es := Seps(ts);
    forall i, j | 0 <= i < j < |es|
      ensures Rank(es[i].key) < Rank(es[j].key)
    {
      SepBefore(ts, s, i, j);
    }
    forall i | 0 <= i < |es|
      ensures |es[i].key| > 0 && 0 < es[i].child < U64_LIMIT
    {
      HeldAt(ts, s, i);
      FlatFirst(ts[i], s);
      FlatPairs(ts[i], s);
    }
  }

  /** i is the child whose key range the key falls into. */
  ghost predicate Routed(es: seq<Entry>, key: Bytes, i: nat) {
    && i < |es|
    && (i > 0 ==> Rank(es[i].key) <= Rank(key))
    && (i + 1 < |es| ==> Rank(key) < Rank(es[i + 1].key))
  }

  /** Entries left of the routed child are below the key, entries right of it above. */
  lemma RouteSplits(ts: seq<Tree>, s: Store, key: Bytes, i: nat)
    requires HeldAll(ts, s) && Sorted(FlatAll(ts)) && Routed(Seps(ts), key, i)
    ensures AllBelow(FlatAll(ts[..i]), key) && AllAbove(FlatAll(ts[i + 1..]), key)
    ensures Sorted(Flat(ts[i])) && Sorted(FlatAll(ts[..i])) && Sorted(FlatAll(ts[i + 1..]))
  {
    FlatSplit(ts, i);
    HeldAt(ts, s, i);
    FlatFirst(ts[i], s);
    var a, f, b := FlatAll(ts[..i]), Flat(ts[i]), FlatAll(ts[i + 1..]);
    var all := a + f + b;
    SortedParts(a, f, b);
    assert all[|a|] == f[0];
    if i + 1 < |ts| {
      HeldAt(ts, s, i + 1);
      FlatFirst(ts[i + 1], s);
      assert b == Flat(ts[i + 1]) + FlatAll(ts[i + 1..][1..]);
      assert b[0] == Flat(ts[i + 1])[0];
    }
  }

  // ---- replacing one child ----

  ghost function Replace(ts: seq<Tree>, i: nat, news: seq<Tree>): seq<Tree>
    requires i < |ts|
  {
    ts[..i] + news + ts[i + 1..]
  }

  lemma ReplaceSame(ts: seq<Tree>, i: nat)
    requires i < |ts|
    ensures Replace(ts, i, [ts[i]]) == ts
  {
  }

  lemma ReplaceFlat(ts: seq<Tree>, i: nat, news: seq<Tree>)
    requires i < |ts|
    ensures FlatAll(Replace(ts, i, news)) == FlatAll(ts[..i]) + FlatAll(news) + FlatAll(ts[i + 1..])
    ensures IdsAll(Replace(ts, i, news)) == IdsAll(ts[..i]) + IdsAll(news) + IdsAll(ts[i + 1..])
    ensures LinksAll(Replace(ts, i, news)) == LinksAll(ts[..i]) + LinksAll(news) + LinksAll(ts[i + 1..])
  {
    FlatJoin(ts[..i], news);
    FlatJoin(ts[..i] + news, ts[i + 1..]);
    IdsJoin(ts[..i], news);
    IdsJoin(ts[..i] + news, ts[i + 1..]);
    LinksJoin(ts[..i], news);
    LinksJoin(ts[..i] + news, ts[i + 1..]);
  }

  /** From s to s' only pages of own changed; the pages own' are fresh or were own. */
  ghost predicate Evolves(s: Store, s': Store, own: set<nat>, own': set<nat>) {
    && own' !! (s.Keys - own)
    && forall x | x in s && x !in own :: x in s' && s'[x] == s[x]
  }

  lemma HeldParts(ts: seq<Tree>, s: Store, i: nat)
    requires HeldAll(ts, s) && i < |ts|
    ensures HeldAll(ts[..i], s) && Held(ts[i], s) && HeldAll(ts[i + 1..], s)
    ensures IdsAll(ts[..i]) !! Ids(ts[i]) && IdsAll(ts[..i]) !! IdsAll(ts[i + 1..]) && Ids(ts[i]) !! IdsAll(ts[i + 1..])
    ensures IdsAll(ts) == IdsAll(ts[..i]) + Ids(ts[i]) + IdsAll(ts[i + 1..])
  {
    assert ts == ts[..i] + ts[i..] && ts[i..][1..] == ts[i + 1..];
    HeldJoin(ts[..i], ts[i..], s);
    IdsJoin(ts[..i], ts[i..]);
  }

  lemma HeldReplace(ts: seq<Tree>, i: nat, news: seq<Tree>, s: Store, s': Store)
    requires i < |ts| && HeldAll(ts, s) && HeldAll(news, s')
    requires Evolves(s, s', Ids(ts[i]), IdsAll(news))
    ensures HeldAll(Replace(ts, i, news), s')
  {
    HeldParts(ts, s, i);
    var a, b := ts[..i], ts[i + 1..];
    IdsAllHeld(a, s);
    IdsAllHeld(b, s);
    HeldAllFrame(a, s, s');
    HeldAllFrame(b, s, s');
    HeldJoin(a, news, s');
    IdsJoin(a, news);
    HeldJoin(a + news, b, s');
  }

  lemma SepsJoin(a: seq<Tree>, b: seq<Tree>)
    ensures Seps(a + b) == Seps(a) + Seps(b)
  {
  }

  lemma SepsThree(ts: seq<Tree>, i: nat, l: Tree, r: Tree)
    requires i < |ts|
    ensures Seps(Replace(ts, i, [l, r])) == Seps(ts[..i] + [l]) + [Sep(r)] + Seps(ts[i + 1..])
  {
    assert Replace(ts, i, [l, r]) == (ts[..i] + [l]) + ([r] + ts[i + 1..]);
  }

  lemma SepsUpdate(ts: seq<Tree>, i: nat, l: Tree)
    requires i < |ts|
    ensures Seps(ts)[i := Sep(l)] == Seps(ts[..i] + [l]) + Seps(ts[i + 1..])
  {
  }

  /** Updating the separator of child i and inserting the split-off sibling gives the new branch. */
  lemma SepsSplit(ts: seq<Tree>, i: nat, l: Tree, r: Tree)
    requires i < |ts| && Sorted(Seps(Replace(ts, i, [l, r])))
    ensures Sorted(Seps(ts)[i := Sep(l)])
    ensures Insert(Seps(ts)[i := Sep(l)], Sep(r)) == Seps(Replace(ts, i, [l, r]))
  {
    var a, b := Seps(ts[..i] + [l]), Seps(ts[i + 1..]);
    SepsThree(ts, i, l, r);
    SepsUpdate(ts, i, l);
    InsertBetween(a, b, Sep(r));
  }

  lemma SepsSame(ts: seq<Tree>, i: nat, l: Tree)
    requires i < |ts|
    ensures Seps(ts)[i := Sep(l)] == Seps(Replace(ts, i, [l]))
  {
  }
}
