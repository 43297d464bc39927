/** What inserting one pair does to a tree, step by step up the path from the leaf. */
module TreePut {
  import opened Bytes
  import opened Entries
  import opened NodePage
  import opened Tree

  // ---- leaf links ----

  /** Leaf p has been split, its right half on page r. */
  ghost function SplitLink(l: seq<(nat, nat)>, p: nat, r: nat): seq<(nat, nat)>
    requires p < |l|
  {
    l[..p] + [(l[p].0, r), (r, l[p].1)] + l[p + 1..]
  }

  ghost predicate LinksPut(l: seq<(nat, nat)>, l': seq<(nat, nat)>) {
    l' == l || exists p: nat, r: nat | p < |l| :: l' == SplitLink(l, p, r)
  }

  /** Every leaf points to the next one, the last one to `after`. */
  ghost predicate Chained(l: seq<(nat, nat)>, after: nat) {
    && (forall i, j | 0 <= i < |l| && j == i + 1 < |l| :: l[i].1 == l[j].0)
    && (l != [] ==> l[|l| - 1].1 == after)
  }

  lemma LinksPutWithin(a: seq<(nat, nat)>, l: seq<(nat, nat)>, l': seq<(nat, nat)>, b: seq<(nat, nat)>)
    requires LinksPut(l, l')
    ensures LinksPut(a + l + b, a + l' + b)
  {
    if l' != l {
      var p: nat, r: nat :| p < |l| && l' == SplitLink(l, p, r);
      assert a + l' + b == SplitLink(a + l + b, |a| + p, r);
    }
  }

  /** Splitting a leaf keeps the chain in order. */
  lemma ChainedPut(l: seq<(nat, nat)>, l': seq<(nat, nat)>, after: nat)
    requires LinksPut(l, l') && Chained(l, after)
    ensures Chained(l', after)
  {
    if l' != l {
      var p: nat, r: nat :| p < |l| && l' == SplitLink(l, p, r);
      ChainedSplit(l, p, r, after);
    }
  }

  lemma ChainedSplit(l: seq<(nat, nat)>, p: nat, r: nat, after: nat)
    requires p < |l| && Chained(l, after)
    ensures Chained(SplitLink(l, p, r), after)
  {
    var l' := SplitLink(l, p, r);
    assert forall k | 0 <= k < p :: l'[k] == l[k];
    assert l'[p] == (l[p].0, r) && l'[p + 1] == (r, l[p].1);
    assert forall k | p + 1 < k < |l'| :: l'[k] == l[k - 1];
  }

  // ---- sizes ----

  function EntrySize(e: Entry): nat {
    SLOT_SIZE + |e.key| + |e.value|
  }

  function Weight(es: seq<Entry>): nat {
    if es == [] then 0 else EntrySize(es[0]) + Weight(es[1..])
  }

  lemma {:induction false} WeightJoin(a: seq<Entry>, b: seq<Entry>)
    ensures Weight(a + b) == Weight(a) + Weight(b)
  {
    if a == [] {
      assert a + b == b;
    } else {
      assert (a + b)[1..] == a[1..] + b;
      WeightJoin(a[1..], b);
    }
  }

  lemma {:induction false} WeightHeap(es: seq<Entry>, i: nat)
    requires i <= |es|
    ensures Weight(es[..i]) == SLOT_SIZE * i + Heap(es, i)
  {
    if i > 0 {
      WeightHeap(es, i - 1);
      WeightJoin(es[..i - 1], [es[i - 1]]);
      assert es[..i] == es[..i - 1] + [es[i - 1]];
    }
  }

  lemma FitsWeight(es: seq<Entry>)
    ensures Fits(es) <==> HEADER_SIZE + Weight(es) <= PAGE_SIZE
  {
    WeightHeap(es, |es|);
    assert es[..|es|] == es;
  }

  const PAIR_LIMIT: nat := 120

  predicate Small(es: seq<Entry>) {
    forall i | 0 <= i < |es| :: |es[i].key| + |es[i].value| <= PAIR_LIMIT
  }

  lemma {:induction false} WeightBounds(es: seq<Entry>)
    requires AllKeys(es)
    ensures Weight(es) >= (SLOT_SIZE + 1) * |es|
    ensures Small(es) ==> Weight(es) <= (SLOT_SIZE + PAIR_LIMIT) * |es|
  {
    if es != [] {
      WeightBounds(es[1..]);
    }
  }

  /**
   * A node of small entries that outgrew its page by one grown separator and one new
   * entry splits by count into halves that fit.
   */
  lemma HalvesFit(es: seq<Entry>)
    requires AllKeys(es) && Small(es) && !Fits(es)
    requires HEADER_SIZE + Weight(es) <= PAGE_SIZE + 255
    ensures |es| >= 2 && Fits(es[..SplitPoint(|es|)]) && Fits(es[SplitPoint(|es|)..])
  {
    var m := SplitPoint(|es|);
    Rejoined(es, m);
    PartsFitOf(es, es[..m], es[m..]);
  }

  lemma Rejoined(es: seq<Entry>, m: nat)
    requires m <= |es|
    ensures es == es[..m] + es[m..]
  {
  }

  lemma PartsFitOf(es: seq<Entry>, a: seq<Entry>, b: seq<Entry>)
    requires es == a + b && |es| > 0 && |a| == SplitPoint(|es|) && AllKeys(es) && Small(es) && !Fits(es)
    requires HEADER_SIZE + Weight(es) <= PAGE_SIZE + 255
    ensures |es| >= 2 && Fits(a) && Fits(b)
  {
    FitsWeight(es);
    SmallParts(es, a, b);
    WeightJoin(a, b);
    PartsFit(a, b);
  }

  lemma SmallParts(es: seq<Entry>, a: seq<Entry>, b: seq<Entry>)
    requires es == a + b && AllKeys(es) && Small(es)
    ensures AllKeys(a) && Small(a) && AllKeys(b) && Small(b)
  {
    assert forall i | 0 <= i < |a| :: a[i] == es[i];
    assert forall i | 0 <= i < |b| :: b[i] == es[|a| + i];
  }

  lemma PartsFit(a: seq<Entry>, b: seq<Entry>)
    requires AllKeys(a) && Small(a) && AllKeys(b) && Small(b) && |a| + |b| > 0 && |a| == SplitPoint(|a| + |b|)
    requires PAGE_SIZE < HEADER_SIZE + Weight(a) + Weight(b) <= PAGE_SIZE + 255
    ensures |a| + |b| >= 2 && Fits(a) && Fits(b)
  {
    PartBounds(a);
    PartBounds(b);
    HalfWeights(|a| + |b|, |a|, Weight(a) + Weight(b), Weight(a), Weight(b));
  }

  /** The arithmetic of a split by count: there are at least 30 entries, so 15 on either side. */
  lemma HalfWeights(n: nat, m: nat, w: nat, a: nat, b: nat)
    requires n > 0 && m == SplitPoint(n) && w == a + b && PAGE_SIZE < HEADER_SIZE + w <= PAGE_SIZE + 255
    requires w <= (SLOT_SIZE + PAIR_LIMIT) * n && (SLOT_SIZE + 1) * m <= a && (SLOT_SIZE + 1) * (n - m) <= b
    ensures n >= 2 && HEADER_SIZE + a <= PAGE_SIZE && HEADER_SIZE + b <= PAGE_SIZE
  {
    assert n >= 30;
    assert m >= 15 && n - m >= 15;
  }

  lemma PartBounds(es: seq<Entry>)
    requires AllKeys(es) && Small(es)
    ensures (SLOT_SIZE + 1) * |es| <= Weight(es) <= (SLOT_SIZE + PAIR_LIMIT) * |es| && (Fits(es) <==> HEADER_SIZE + Weight(es) <= PAGE_SIZE)
  {
    WeightBounds(es);
    FitsWeight(es);
  }

  lemma {:induction false} WeightInsert(es: seq<Entry>, e: Entry)
    ensures Weight(Insert(es, e)) <= Weight(es) + EntrySize(e)
  {
    if es != [] {
      WeightInsert(es[1..], e);
    }
  }

  lemma {:induction false} SmallInsert(es: seq<Entry>, e: Entry)
    requires Small(es) && |e.key| + |e.value| <= PAIR_LIMIT
    ensures Small(Insert(es, e))
  {
    if es != [] {
      SmallInsert(es[1..], e);
    }
  }

  lemma {:induction false} PairsInsert(es: seq<Entry>, e: Entry)
    requires Pairs(es) && |e.key| > 0 && e.child == 0
    ensures Pairs(Insert(es, e))
  {
    if es != [] {
      PairsInsert(es[1..], e);
    }
  }

  lemma SepsSmall(ts: seq<Tree>, s: Store)
    requires HeldAll(ts, s) && Small(FlatAll(ts))
    ensures Small(Seps(ts))
  {
    forall i | 0 <= i < |ts|
      ensures |Seps(ts)[i].key| <= PAIR_LIMIT
    {
      HeldAt(ts, s, i);
      FlatFirst(ts[i], s);
      FlatSplit(ts, i);
      assert FlatAll(ts)[|FlatAll(ts[..i])|] == Flat(ts[i])[0];
    }
  }

  // ---- one level of the tree ----

  /** Heights are the same on both sides. */
  ghost predicate SameHeight(t: Tree, ts: seq<Tree>) {
    forall h, u | HeightIs(t, h) && u in ts :: HeightIs(u, h)
  }

  /** The children of v are held, but v itself is not written yet and may be too large. */
  ghost predicate Loose(v: Tree, s: Store) {
    Top(v) && (v.Branch? ==> HeldAll(v.kids, s) && v.id !in IdsAll(v.kids))
  }

  ghost predicate Roomy(v: Tree) {
    Small(Flat(v)) ==> HEADER_SIZE + Weight(NodeOf(v).entries) <= PAGE_SIZE + 255
  }

  /** v is t with e put in, up to writing the page of t. */
  ghost predicate Pending(t: Tree, v: Tree, e: Entry, s: Store, s': Store) {
    && v.id == t.id && v.Leaf? == t.Leaf?
    && Loose(v, s') && Roomy(v)
    && Flat(v) == Insert(Flat(t), e)
    && Evolves(s, s', Ids(t), Ids(v)) && Ids(t) <= Ids(v) && s'.Keys == s.Keys + Ids(v)
    && LinksPut(Links(t), Links(v))
    && SameHeight(t, [v])
  }

  /** t has become the trees ts (one, or two after a split) with e put in. */
  ghost predicate Grown(t: Tree, ts: seq<Tree>, e: Entry, s: Store, s': Store) {
    && 1 <= |ts| <= 2 && ts[0].id == t.id
    && HeldAll(ts, s')
    && FlatAll(ts) == Insert(Flat(t), e)
    && Evolves(s, s', Ids(t), IdsAll(ts)) && Ids(t) <= IdsAll(ts) && s'.Keys == s.Keys + IdsAll(ts)
    && LinksPut(Links(t), LinksAll(ts))
    && SameHeight(t, ts)
  }

  lemma FlatOne(t: Tree)
    ensures FlatAll([t]) == Flat(t) && IdsAll([t]) == Ids(t) && LinksAll([t]) == Links(t)
  {
    assert [t][1..] == [];
  }

  lemma FlatTwo(l: Tree, r: Tree)
    ensures FlatAll([l, r]) == Flat(l) + Flat(r) && IdsAll([l, r]) == Ids(l) + Ids(r)
    ensures LinksAll([l, r]) == Links(l) + Links(r)
  {
    assert [l, r][1..] == [r];
    FlatOne(r);
  }

  /** A leaf with the pair inserted. */
  lemma PendingLeaf(t: Tree, e: Entry, s: Store)
    requires t.Leaf? && (Held(t, s) || (t.entries == [] && t.next < U64_LIMIT && t.id in s))
    requires |e.key| > 0 && e.child == 0
    ensures Pending(t, t.(entries := Insert(t.entries, e)), e, s, s)
  {
    var v := t.(entries := Insert(t.entries, e));
    PairsInsert(t.entries, e);
    WeightInsert(t.entries, e);
    FitsWeight(t.entries);
    if Small(Flat(v)) {
      InsertHas(t.entries, e);
    }
  }

  lemma {:induction false} InsertHas(es: seq<Entry>, e: Entry)
    ensures e in Insert(es, e)
  {
    if es != [] {
      InsertHas(es[1..], e);
    }
  }

  /** A branch whose child i has grown. */
  lemma PendingBranch(t: Tree, i: nat, ts: seq<Tree>, e: Entry, s: Store, s': Store)
    requires t.Branch? && Held(t, s) && Sorted(Flat(t)) && Routed(Seps(t.kids), e.key, i)
    requires Grown(t.kids[i], ts, e, s, s')
    ensures Pending(t, Branch(t.id, Replace(t.kids, i, ts)), e, s, s')
  {
    BranchFlat(t.kids, i, ts, e, s);
    BranchLinks(t.kids, i, ts);
    BranchIds(t, i, ts, s, s');
    BranchRoomy(t, i, ts, s, s');
    BranchHeight(t, i, ts);
  }

  lemma BranchHeight(t: Tree, i: nat, ts: seq<Tree>)
    requires t.Branch? && i < |t.kids| && SameHeight(t.kids[i], ts)
    ensures SameHeight(t, [Branch(t.id, Replace(t.kids, i, ts))])
  {
    var kids' := Replace(t.kids, i, ts);
    assert t.kids[i] in t.kids;
    assert forall k | k in kids' :: k in t.kids || k in ts;
  }

  lemma BranchFlat(kids: seq<Tree>, i: nat, ts: seq<Tree>, e: Entry, s: Store)
    requires HeldAll(kids, s) && Sorted(FlatAll(kids)) && Routed(Seps(kids), e.key, i)
    requires FlatAll(ts) == Insert(Flat(kids[i]), e)
    ensures FlatAll(Replace(kids, i, ts)) == Insert(FlatAll(kids), e)
  {
    RouteSplits(kids, s, e.key, i);
    var a, b := FlatAll(kids[..i]), FlatAll(kids[i + 1..]);
    calc {
      FlatAll(Replace(kids, i, ts));
    == { ReplaceFlat(kids, i, ts); }
      a + Insert(Flat(kids[i]), e) + b;
    == { InsertWithin(a, Flat(kids[i]), b, e); }
      Insert(a + Flat(kids[i]) + b, e);
    == { FlatSplit(kids, i); }
      Insert(FlatAll(kids), e);
    }
  }

  lemma BranchLinks(kids: seq<Tree>, i: nat, ts: seq<Tree>)
    requires i < |kids| && LinksPut(Links(kids[i]), LinksAll(ts))
    ensures LinksPut(LinksAll(kids), LinksAll(Replace(kids, i, ts)))
  {
    var a, b := LinksAll(kids[..i]), LinksAll(kids[i + 1..]);
    LinksPutWithin(a, Links(kids[i]), LinksAll(ts), b);
    ReplaceFlat(kids, i, ts);
    ReplaceFlat(kids, i, [kids[i]]);
    FlatOne(kids[i]);
    ReplaceSame(kids, i);
  }

  lemma BranchIds(t: Tree, i: nat, ts: seq<Tree>, s: Store, s': Store)
    requires t.Branch? && Held(t, s) && i < |t.kids| && HeldAll(ts, s') && ts != []
    requires Evolves(s, s', Ids(t.kids[i]), IdsAll(ts)) && Ids(t.kids[i]) <= IdsAll(ts) && s'.Keys == s.Keys + IdsAll(ts)
    ensures var v := Branch(t.id, Replace(t.kids, i, ts));
      Loose(v, s') && Evolves(s, s', Ids(t), Ids(v)) && Ids(t) <= Ids(v) && s'.Keys == s.Keys + Ids(v)
  {
    BranchLoose(t, i, ts, s, s');
    BranchEvolves(t, i, ts, s, s');
  }

  lemma BranchLoose(t: Tree, i: nat, ts: seq<Tree>, s: Store, s': Store)
    requires t.Branch? && Held(t, s) && i < |t.kids| && HeldAll(ts, s') && ts != []
    requires Evolves(s, s', Ids(t.kids[i]), IdsAll(ts)) && Ids(t.kids[i]) <= IdsAll(ts)
    ensures Loose(Branch(t.id, Replace(t.kids, i, ts)), s')
  {
    ReplaceFlat(t.kids, i, ts);
    HeldParts(t.kids, s, i);
    HeldReplace(t.kids, i, ts, s, s');
    IdsHeld(t, s);
  }

  lemma BranchEvolves(t: Tree, i: nat, ts: seq<Tree>, s: Store, s': Store)
    requires t.Branch? && Held(t, s) && i < |t.kids|
    requires Evolves(s, s', Ids(t.kids[i]), IdsAll(ts)) && Ids(t.kids[i]) <= IdsAll(ts) && s'.Keys == s.Keys + IdsAll(ts)
    ensures var v := Branch(t.id, Replace(t.kids, i, ts));
      Evolves(s, s', Ids(t), Ids(v)) && Ids(t) <= Ids(v) && s'.Keys == s.Keys + Ids(v)
  {
    ReplaceFlat(t.kids, i, ts);
    HeldParts(t.kids, s, i);
    IdsHeld(t, s);
  }

  lemma BranchRoomy(t: Tree, i: nat, ts: seq<Tree>, s: Store, s': Store)
    requires t.Branch? && Held(t, s) && i < |t.kids| && 1 <= |ts| <= 2
    requires HeldAll(Replace(t.kids, i, ts), s')
    ensures Roomy(Branch(t.id, Replace(t.kids, i, ts)))
  {
    var kids, kids' := t.kids, Replace(t.kids, i, ts);
    var v := Branch(t.id, kids');
    if Small(Flat(v)) {
      var before, after := Seps(kids), Seps(kids');
      SepsSmall(kids', s');
      FitsWeight(before);
      HeldAt(kids, s, i);
      FlatFirst(kids[i], s);
      FlatPairs(kids[i], s);
      SepsWeight(kids, i, ts);
      assert after[i] == Sep(ts[0]) && |after[i].key| <= PAIR_LIMIT;
      assert |ts| == 2 ==> after[i + 1] == Sep(ts[1]) && |after[i + 1].key| <= PAIR_LIMIT;
    }
  }

  lemma SepsWeight(kids: seq<Tree>, i: nat, ts: seq<Tree>)
    requires i < |kids| && 1 <= |ts| <= 2
    ensures Weight(Seps(Replace(kids, i, ts))) ==
            Weight(Seps(kids)) - EntrySize(Sep(kids[i])) + EntrySize(Sep(ts[0])) + (if |ts| == 2 then EntrySize(Sep(ts[1])) else 0)
  {
    SepsWeightParts(kids, i, ts);
    SepsWeightParts(kids, i, [kids[i]]);
    ReplaceSame(kids, i);
    assert Seps([kids[i]])[1..] == [];
    assert Seps(ts)[1..] == if |ts| == 2 then [Sep(ts[1])] else [];
    assert |ts| == 2 ==> Weight([Sep(ts[1])]) == EntrySize(Sep(ts[1]));
  }

  lemma SepsWeightParts(kids: seq<Tree>, i: nat, ts: seq<Tree>)
    requires i < |kids|
    ensures Weight(Seps(Replace(kids, i, ts))) == Weight(Seps(kids[..i])) + Weight(Seps(ts)) + Weight(Seps(kids[i + 1..]))
  {
    SepsJoin(kids[..i], ts);
    SepsJoin(kids[..i] + ts, kids[i + 1..]);
    WeightJoin(Seps(kids[..i]), Seps(ts));
    WeightJoin(Seps(kids[..i]) + Seps(ts), Seps(kids[i + 1..]));
  }

  // ---- writing the node back, whole or split ----

  lemma LooseStorable(v: Tree, s: Store)
    requires Loose(v, s) && Sorted(Flat(v)) && Paged(s)
    ensures Storable(NodeOf(v))
  {
    if v.Branch? {
      BranchStorable(v.id, v.kids, s);
    }
  }

  /** Writing the page of a loose tree makes it held. */
  lemma LooseHeld(v: Tree, s: Store, s': Store)
    requires Loose(v, s) && Fits(NodeOf(v).entries)
    requires v.id in s' && s'[v.id] == NodeOf(v)
    requires forall x | x in s && x != v.id :: x in s' && s'[x] == s[x]
    ensures Held(v, s')
  {
    if v.Branch? {
      IdsAllHeld(v.kids, s);
      HeldAllFrame(v.kids, s, s');
    }
  }

  lemma SettleWhole(t: Tree, v: Tree, e: Entry, s: Store, s1: Store)
    requires Pending(t, v, e, s, s1) && t.id in Ids(t) && Fits(NodeOf(v).entries)
    ensures Grown(t, [v], e, s, s1[v.id := NodeOf(v)])
  {
    var s' := s1[v.id := NodeOf(v)];
    LooseHeld(v, s1, s');
    FlatOne(v);
    assert v.id in Ids(v);
    assert s'.Keys == s1.Keys;
  }

  /** The left part of v stays on its page, ... */
  ghost function LeftOf(v: Tree, m: nat, rid: nat): Tree
    requires m <= |NodeOf(v).entries|
  {
    match v
    case Leaf(id, _, entries) => Leaf(id, rid, entries[..m])
    case Branch(id, kids) => Branch(id, kids[..m])
  }

  /** ... the right part moves to page rid. */
  ghost function RightOf(v: Tree, m: nat, rid: nat): Tree
    requires m <= |NodeOf(v).entries|
  {
    match v
    case Leaf(_, next, entries) => Leaf(rid, next, entries[m..])
    case Branch(_, kids) => Branch(rid, kids[m..])
  }

  lemma HalvesNode(v: Tree, m: nat, rid: nat)
    requires m <= |NodeOf(v).entries|
    ensures NodeOf(LeftOf(v, m, rid)) == Node(v.id, v.Leaf?, if v.Leaf? then rid else 0, NodeOf(v).entries[..m])
    ensures NodeOf(RightOf(v, m, rid)) == Node(rid, v.Leaf?, if v.Leaf? then v.next else 0, NodeOf(v).entries[m..])
  {
  }

  lemma HalvesFlat(v: Tree, m: nat, rid: nat)
    requires m <= |NodeOf(v).entries|
    ensures var l, r := LeftOf(v, m, rid), RightOf(v, m, rid);
      Flat(v) == Flat(l) + Flat(r) && Ids(l) + Ids(r) == Ids(v) + {rid}
  {
    if v.Branch? {
      assert v.kids == v.kids[..m] + v.kids[m..];
      FlatJoin(v.kids[..m], v.kids[m..]);
      IdsJoin(v.kids[..m], v.kids[m..]);
    }
  }

  lemma HalvesLinks(v: Tree, m: nat, rid: nat)
    requires m <= |NodeOf(v).entries|
    ensures var l, r := LeftOf(v, m, rid), RightOf(v, m, rid);
      Links(l) + Links(r) == if v.Leaf? then SplitLink(Links(v), 0, rid) else Links(v)
  {
    if v.Branch? {
      assert v.kids == v.kids[..m] + v.kids[m..];
      LinksJoin(v.kids[..m], v.kids[m..]);
    }
  }

  lemma HalvesHeight(v: Tree, m: nat, rid: nat)
    requires m <= |NodeOf(v).entries|
    ensures SameHeight(v, [LeftOf(v, m, rid), RightOf(v, m, rid)])
  {
    if v.Branch? {
      assert forall k | k in v.kids[..m] || k in v.kids[m..] :: k in v.kids;
    }
  }

  lemma HalvesLoose(v: Tree, s: Store, m: nat, rid: nat)
    requires Loose(v, s) && 0 < m < |NodeOf(v).entries| && rid !in s && rid < U64_LIMIT
    ensures var l, r := LeftOf(v, m, rid), RightOf(v, m, rid);
      Loose(l, s) && Loose(r, s) && (v.id != rid ==> Ids(l) !! Ids(r))
  {
    if v.Branch? {
      assert v.kids == v.kids[..m] + v.kids[m..];
      HeldJoin(v.kids[..m], v.kids[m..], s);
      IdsJoin(v.kids[..m], v.kids[m..]);
      IdsAllHeld(v.kids, s);
    }
  }

  lemma HalvesHeld(v: Tree, s: Store, m: nat, rid: nat)
    requires Loose(v, s) && v.id != rid && 0 < m < |NodeOf(v).entries| && rid !in s && rid < U64_LIMIT
    requires Fits(NodeOf(v).entries[..m]) && Fits(NodeOf(v).entries[m..])
    ensures var l, r := LeftOf(v, m, rid), RightOf(v, m, rid);
      HeldAll([l, r], s[v.id := NodeOf(l)][rid := NodeOf(r)])
  {
    var l, r := LeftOf(v, m, rid), RightOf(v, m, rid);
    var s1 := s[v.id := NodeOf(l)];
    var s2 := s1[rid := NodeOf(r)];
    HalvesNode(v, m, rid);
    HalvesLoose(v, s, m, rid);
    LooseHeld(l, s, s1);
    IdsHeld(l, s1);
    HeldFrame(l, s1, s2);
    HalvesRight(r, s, s2, v.id, rid);
    FlatOne(r);
    assert [l, r][1..] == [r];
  }

  lemma HalvesRight(r: Tree, s: Store, s': Store, id: nat, rid: nat)
    requires Loose(r, s) && Fits(NodeOf(r).entries) && r.id == rid && id !in Ids(r) && rid !in s
    requires id in s' && s' == s[id := s'[id]][rid := NodeOf(r)]
    ensures Held(r, s')
  {
    if r.Branch? {
      IdsAllHeld(r.kids, s);
      HeldAllFrame(r.kids, s, s');
    }
  }

  lemma SettleSplit(t: Tree, v: Tree, e: Entry, s: Store, s1: Store, m: nat, rid: nat)
    requires Pending(t, v, e, s, s1) && 0 < m < |NodeOf(v).entries|
    requires rid !in s1 && rid < U64_LIMIT && t.id in s
    requires Fits(NodeOf(v).entries[..m]) && Fits(NodeOf(v).entries[m..])
    ensures var l, r := LeftOf(v, m, rid), RightOf(v, m, rid);
      Grown(t, [l, r], e, s, s1[v.id := NodeOf(l)][rid := NodeOf(r)])
  {
    var l, r := LeftOf(v, m, rid), RightOf(v, m, rid);
    assert v.id in Ids(v);
    HalvesHeld(v, s1, m, rid);
    SplitShape(t, v, m, rid);
    SplitEvolves(t, v, s, s1, s1[v.id := NodeOf(l)][rid := NodeOf(r)], rid);
  }

  /** The two halves of a node have its pairs, its pages and one more, and its height. */
  lemma SplitShape(t: Tree, v: Tree, m: nat, rid: nat)
    requires m <= |NodeOf(v).entries| && v.Leaf? == t.Leaf? && LinksPut(Links(t), Links(v)) && SameHeight(t, [v])
    ensures var l, r := LeftOf(v, m, rid), RightOf(v, m, rid);
      && l.id == v.id && FlatAll([l, r]) == Flat(v) && IdsAll([l, r]) == Ids(v) + {rid}
      && LinksPut(Links(t), LinksAll([l, r])) && SameHeight(t, [l, r])
  {
    var l, r := LeftOf(v, m, rid), RightOf(v, m, rid);
    HalvesFlat(v, m, rid);
    FlatTwo(l, r);
    HalvesLinks(v, m, rid);
    SplitLinksPut(t, v, rid);
    HalvesHeight(v, m, rid);
    SplitHeight(t, v, [l, r]);
  }

  lemma SplitEvolves(t: Tree, v: Tree, s: Store, s1: Store, s2: Store, rid: nat)
    requires v.id == t.id && Evolves(s, s1, Ids(t), Ids(v)) && Ids(t) <= Ids(v) && s1.Keys == s.Keys + Ids(v)
    requires rid !in s1 && v.id in s2 && rid in s2 && s2 == s1[v.id := s2[v.id]][rid := s2[rid]]
    ensures Evolves(s, s2, Ids(t), Ids(v) + {rid}) && s2.Keys == s.Keys + (Ids(v) + {rid})
  {
    assert t.id in Ids(t);
  }

  lemma SplitHeight(t: Tree, v: Tree, ts: seq<Tree>)
    requires SameHeight(t, [v]) && SameHeight(v, ts)
    ensures SameHeight(t, ts)
  {
    assert v in [v];
  }

  /** A leaf has not been split before, so splitting it now is its only split. */
  lemma SplitLinksPut(t: Tree, v: Tree, rid: nat)
    requires v.Leaf? == t.Leaf? && LinksPut(Links(t), Links(v))
    ensures v.Leaf? ==> LinksPut(Links(t), SplitLink(Links(v), 0, rid))
  {
  }

  // ---- the root ----

  /** The root page may also hold an empty leaf. */
  ghost predicate RootHeld(t: Tree, s: Store) {
    Held(t, s) || (t.Leaf? && t.entries == [] && t.next < U64_LIMIT && t.id in s && s[t.id] == NodeOf(t))
  }

  /** The contents of an oversized root, before they are cut in two below it. */
  ghost function Demoted(v: Tree, lid: nat): Tree {
    match v
    case Leaf(_, _, entries) => Leaf(lid, 0, entries)
    case Branch(_, kids) => Branch(lid, kids)
  }

  ghost function NewRoot(v: Tree, m: nat, lid: nat, rid: nat): Tree
    requires m <= |NodeOf(v).entries|
  {
    Branch(v.id, [LeftOf(Demoted(v, lid), m, rid), RightOf(Demoted(v, lid), m, rid)])
  }

  lemma NewRootHeld(v: Tree, s: Store, m: nat, lid: nat, rid: nat)
    requires Loose(v, s) && v.id in s && 0 < m < |NodeOf(v).entries|
    requires lid !in s && rid !in s && lid != rid && rid < U64_LIMIT
    requires Fits(NodeOf(v).entries[..m]) && Fits(NodeOf(v).entries[m..]) && Fits(NodeOf(NewRoot(v, m, lid, rid)).entries)
    ensures var w := NewRoot(v, m, lid, rid);
      Held(w, s[lid := NodeOf(w.kids[0])][rid := NodeOf(w.kids[1])][v.id := NodeOf(w)])
  {
    var d, w := Demoted(v, lid), NewRoot(v, m, lid, rid);
    if v.Branch? {
      IdsAllHeld(v.kids, s);
    }
    HalvesHeld(d, s, m, rid);
    HalvesFlat(d, m, rid);
    FlatTwo(w.kids[0], w.kids[1]);
    var s1 := s[lid := NodeOf(w.kids[0])][rid := NodeOf(w.kids[1])];
    assert v.id !in IdsAll(w.kids);
    LooseHeld(w, s1, s1[v.id := NodeOf(w)]);
  }

  lemma NewRootFlat(v: Tree, m: nat, lid: nat, rid: nat)
    requires m <= |NodeOf(v).entries|
    ensures var w := NewRoot(v, m, lid, rid);
      && Flat(w) == Flat(v) && Ids(w) == Ids(v) + {lid, rid}
      && Links(w) == (if v.Leaf? then [(lid, rid), (rid, 0)] else Links(v))
  {
    var d, w := Demoted(v, lid), NewRoot(v, m, lid, rid);
    HalvesFlat(d, m, rid);
    HalvesLinks(d, m, rid);
    FlatTwo(w.kids[0], w.kids[1]);
  }

  lemma NewRootHeight(v: Tree, m: nat, lid: nat, rid: nat, h: nat)
    requires m <= |NodeOf(v).entries| && HeightIs(v, h)
    ensures HeightIs(NewRoot(v, m, lid, rid), h + 1)
  {
    var d := Demoted(v, lid);
    HalvesHeight(d, m, rid);
    assert HeightIs(d, h);
  }

  /** The whole tree t has become t' with e put in. */
  ghost predicate RootGrown(t: Tree, t': Tree, e: Entry, s: Store, s': Store) {
    && t'.id == t.id && Held(t', s')
    && Flat(t') == Insert(Flat(t), e)
    && Evolves(s, s', Ids(t), Ids(t')) && Ids(t) <= Ids(t') && s'.Keys == s.Keys + Ids(t')
    && (Chained(Links(t), 0) ==> Chained(Links(t'), 0))
    && (forall h: nat | HeightIs(t, h) :: HeightIs(t', h) || HeightIs(t', h + 1))
  }

  lemma RootWhole(t: Tree, v: Tree, e: Entry, s: Store, s1: Store)
    requires Pending(t, v, e, s, s1) && t.id in Ids(t) && Fits(NodeOf(v).entries)
    ensures RootGrown(t, v, e, s, s1[v.id := NodeOf(v)])
  {
    SettleWhole(t, v, e, s, s1);
    FlatOne(v);
    if Chained(Links(t), 0) {
      ChainedPut(Links(t), Links(v), 0);
    }
  }

  lemma RootSplit(t: Tree, v: Tree, e: Entry, s: Store, s1: Store, m: nat, lid: nat, rid: nat, s2: Store)
    requires Pending(t, v, e, s, s1) && t.id in s && 0 < m < |NodeOf(v).entries|
    requires lid !in s1 && rid !in s1 && lid != rid && rid < U64_LIMIT
    requires Fits(NodeOf(v).entries[..m]) && Fits(NodeOf(v).entries[m..]) && Fits(NodeOf(NewRoot(v, m, lid, rid)).entries)
    requires var w := NewRoot(v, m, lid, rid); s2 == s1[lid := NodeOf(w.kids[0])][rid := NodeOf(w.kids[1])][v.id := NodeOf(w)]
    ensures RootGrown(t, NewRoot(v, m, lid, rid), e, s, s2)
  {
    assert v.id in Ids(v) && t.id in Ids(t);
    NewRootHeld(v, s1, m, lid, rid);
    NewRootFlat(v, m, lid, rid);
    RootSplitChain(t, v, m, lid, rid);
    RootSplitEvolves(t, v, s, s1, s2, lid, rid);
  }

  lemma RootSplitChain(t: Tree, v: Tree, m: nat, lid: nat, rid: nat)
    requires m <= |NodeOf(v).entries| && LinksPut(Links(t), Links(v)) && SameHeight(t, [v])
    ensures Chained(Links(t), 0) ==> Chained(Links(NewRoot(v, m, lid, rid)), 0)
    ensures forall h: nat | HeightIs(t, h) :: HeightIs(NewRoot(v, m, lid, rid), h + 1)
  {
    NewRootFlat(v, m, lid, rid);
    if Chained(Links(t), 0) {
      ChainedPut(Links(t), Links(v), 0);
    }
    forall h: nat | HeightIs(t, h)
      ensures HeightIs(NewRoot(v, m, lid, rid), h + 1)
    {
      assert v in [v];
      NewRootHeight(v, m, lid, rid, h);
    }
  }

  lemma RootSplitEvolves(t: Tree, v: Tree, s: Store, s1: Store, s2: Store, lid: nat, rid: nat)
    requires t.id == v.id && t.id in Ids(t) && v.id in Ids(v)
    requires Evolves(s, s1, Ids(t), Ids(v)) && Ids(t) <= Ids(v) && s1.Keys == s.Keys + Ids(v)
    requires lid !in s1 && rid !in s1 && lid in s2 && rid in s2 && v.id in s2
    requires s2 == s1[lid := s2[lid]][rid := s2[rid]][v.id := s2[v.id]]
    ensures Evolves(s, s2, Ids(t), Ids(v) + {lid, rid}) && s2.Keys == s.Keys + (Ids(v) + {lid, rid})
  {
  }
}
