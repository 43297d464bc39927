/**
 * When nodes run out of room.  Whether a node fits its page does not depend on the pages of its
 * children, so the nodes a put or a delete is going to write can be told from the tree and the key.
 */
module Room {
  import opened Bytes
  import opened Entries
  import opened NodePage
  import opened Tree
  import opened TreePut

  // ---- entries without their children ----

  ghost function Bare(es: seq<Entry>): (r: seq<Entry>)
    ensures |r| == |es| && forall i | 0 <= i < |es| :: r[i] == es[i].(child := 0)
  {
    seq(|es|, i requires 0 <= i < |es| => es[i].(child := 0))
  }

  lemma {:induction false} BareHeap(es: seq<Entry>, n: nat)
    requires n <= |es|
    ensures Heap(Bare(es), n) == Heap(es, n)
  {
    if n > 0 {
      BareHeap(es, n - 1);
    }
  }

  lemma BareFits(es: seq<Entry>)
    ensures Fits(Bare(es)) <==> Fits(es)
  {
    BareHeap(es, |es|);
  }

  lemma BareParts(es: seq<Entry>, m: nat)
    requires m <= |es|
    ensures Bare(es[..m]) == Bare(es)[..m] && Bare(es[m..]) == Bare(es)[m..]
  {
  }

  lemma BarePairs(es: seq<Entry>)
    requires forall i | 0 <= i < |es| :: es[i].child == 0
    ensures Bare(es) == es
  {
  }

  // ---- the child a key is routed to ----

  ghost function Route(es: seq<Entry>, key: Bytes): (i: nat)
    ensures es != [] ==> i < |es|
  {
    if |es| <= 1 || Rank(key) < Rank(es[1].key) then 0 else 1 + Route(es[1..], key)
  }

  lemma {:induction false} RouteIs(es: seq<Entry>, key: Bytes, i: nat)
    requires Sorted(es) && Routed(es, key, i)
    ensures Route(es, key) == i
  {
    if i > 0 {
      RouteIs(es[1..], key, i - 1);
    }
  }

  /** The place of the child a key is routed to. */
  ghost function RouteIn(t: Tree, key: Bytes): (i: nat)
    requires t.Branch? && t.kids != []
    ensures i < |t.kids|
  {
    Route(Seps(t.kids), key)
  }

  ghost function Headers(keys: seq<Bytes>): (r: seq<Entry>)
    ensures |r| == |keys|
  {
    seq(|keys|, i requires 0 <= i < |keys| => Entry(keys[i], [], 0))
  }

  /** The separators of a branch once child i has given way to nodes with these first keys. */
  ghost function Respaced(kids: seq<Tree>, i: nat, keys: seq<Bytes>): seq<Entry>
    requires i < |kids|
  {
    Bare(Seps(kids[..i])) + Headers(keys) + Bare(Seps(kids[i + 1..]))
  }

  ghost function Firsts(ts: seq<Tree>): (r: seq<Bytes>)
    ensures |r| == |ts|
  {
    seq(|ts|, i requires 0 <= i < |ts| => FirstKey(ts[i]))
  }

  lemma RespacedBy(kids: seq<Tree>, i: nat, sub: seq<Tree>)
    requires i < |kids|
    ensures Bare(Seps(Replace(kids, i, sub))) == Respaced(kids, i, Firsts(sub))
  {
    var a, b, c := Bare(Seps(kids[..i])), Headers(Firsts(sub)), Bare(Seps(kids[i + 1..]));
    var all := Bare(Seps(Replace(kids, i, sub)));
    assert all[..i] == a;
    assert all[i..i + |sub|] == b;
    assert all[i + |sub|..] == c;
  }

  // ---- putting ----

  /** The entries of the node of t after a put below it. */
  ghost function After(t: Tree, e: Entry): seq<Entry>
    decreases t, 0
  {
    match t
    case Leaf(_, _, entries) => Insert(entries, e)
    case Branch(_, kids) => if kids == [] then [] else var i := RouteIn(t, e.key); Respaced(kids, i, Heads(kids[i], e))
  }

  /** The first keys of the one or two nodes that come of t: a node that outgrows its page is cut in two. */
  ghost function Heads(t: Tree, e: Entry): seq<Bytes>
    decreases t, 1
  {
    var es := After(t, e);
    if es == [] then [] else if Fits(es) || |es| == 1 then [es[0].key] else [es[0].key, es[SplitPoint(|es|)].key]
  }

  /** Both halves of the entries fit a page. */
  ghost predicate PartsFit(es: seq<Entry>)
    requires es != []
  {
    Fits(es[..SplitPoint(|es|)]) && Fits(es[SplitPoint(|es|)..])
  }

  /** Some node on the way of the key outgrows its page, and a half of it does not fit a page either. */
  ghost predicate Jams(t: Tree, e: Entry)
    decreases t
  {
    JamsBelow(t, e) || (After(t, e) != [] && !Fits(After(t, e)) && !PartsFit(After(t, e)))
  }

  ghost predicate JamsBelow(t: Tree, e: Entry)
    decreases t, 0
  {
    t.Branch? && t.kids != [] && Jams(t.kids[RouteIn(t, e.key)], e)
  }

  /** How many nodes on the way of the key outgrow their pages: each takes one new page. */
  ghost function Needs(t: Tree, e: Entry): nat
    decreases t
  {
    NeedsBelow(t, e) + if Fits(After(t, e)) then 0 else 1
  }

  ghost function NeedsBelow(t: Tree, e: Entry): nat
    decreases t, 0
  {
    if t.Branch? && t.kids != [] then Needs(t.kids[RouteIn(t, e.key)], e) else 0
  }

  /** The two separators of a root over the halves of the entries. */
  ghost function TwoHeads(es: seq<Entry>): seq<Entry>
    requires |es| >= 2
  {
    [Entry(es[0].key, [], 0), Entry(es[SplitPoint(|es|)].key, [], 0)]
  }

  /** A root that outgrows its page becomes a branch over its halves, whose separators must fit as well. */
  ghost predicate RootJams(t: Tree, e: Entry) {
    var es := After(t, e);
    JamsBelow(t, e) || (es != [] && !Fits(es) && !(PartsFit(es) && |es| >= 2 && Fits(TwoHeads(es))))
  }

  /** A root that outgrows its page takes two new pages. */
  ghost function RootNeeds(t: Tree, e: Entry): nat {
    NeedsBelow(t, e) + if Fits(After(t, e)) then 0 else 2
  }

  /** What a put that succeeds tells, with the number of free pages before and after it. */
  ghost predicate PutFit(t: Tree, e: Entry, ts: seq<Tree>, free: nat, free': nat) {
    !Jams(t, e) && Firsts(ts) == Heads(t, e) && free <= free' + Needs(t, e)
  }

  /** And one below a branch: its node has these entries now. */
  ghost predicate BelowFit(t: Tree, e: Entry, es: seq<Entry>, free: nat, free': nat) {
    !JamsBelow(t, e) && Bare(es) == After(t, e) && es != [] && free <= free' + NeedsBelow(t, e)
  }

  lemma LeafFit(t: Tree, e: Entry, free: nat)
    requires t.Leaf? && e.child == 0 && |e.key| > 0 && Pairs(t.entries)
    ensures BelowFit(t, e, Insert(t.entries, e), free, free)
  {
    PairsInsert(t.entries, e);
    BarePairs(Insert(t.entries, e));
  }

  lemma ChildFit(t: Tree, e: Entry, i: nat, sub: seq<Tree>, free: nat, free': nat)
    requires t.Branch? && Sorted(Seps(t.kids)) && Routed(Seps(t.kids), e.key, i) && sub != []
    requires PutFit(t.kids[i], e, sub, free, free')
    ensures BelowFit(t, e, Seps(Replace(t.kids, i, sub)), free, free')
  {
    RouteIs(Seps(t.kids), e.key, i);
    RespacedBy(t.kids, i, sub);
  }

  /** The entries and their halves fit exactly when those foreseen do. */
  lemma SameRoom(es: seq<Entry>, foreseen: seq<Entry>)
    requires Bare(es) == foreseen && es != []
    ensures Fits(es) <==> Fits(foreseen)
    ensures Fits(es[..SplitPoint(|es|)]) && Fits(es[SplitPoint(|es|)..]) <==> PartsFit(foreseen)
  {
    var m := SplitPoint(|es|);
    BareFits(es);
    BareParts(es, m);
    BareFits(es[..m]);
    BareFits(es[m..]);
  }

  /** A node that fits is written as it is. */
  lemma FitWhole(t: Tree, v: Tree, e: Entry, free: nat, free': nat)
    requires BelowFit(t, e, NodeOf(v).entries, free, free') && Fits(NodeOf(v).entries)
    ensures PutFit(t, e, [v], free, free')
  {
    SameRoom(NodeOf(v).entries, After(t, e));
    FirstOfNode(v);
    assert Firsts([v]) == [After(t, e)[0].key];
  }

  lemma FirstOfNode(t: Tree)
    requires NodeOf(t).entries != []
    ensures FirstKey(t) == NodeOf(t).entries[0].key
  {
  }

  lemma TwoFirsts(ts: seq<Tree>)
    requires |ts| == 2
    ensures Firsts(ts) == [FirstKey(ts[0]), FirstKey(ts[1])]
  {
  }

  /** One that does not is cut in two, if both halves fit. */
  lemma FitSplit(t: Tree, v: Tree, e: Entry, ts: seq<Tree>, free: nat, free': nat, free'': nat)
    requires BelowFit(t, e, NodeOf(v).entries, free, free') && !Fits(NodeOf(v).entries) && |NodeOf(v).entries| >= 2 && free' <= free'' + 1
    requires var es := NodeOf(v).entries; Fits(es[..SplitPoint(|es|)]) && Fits(es[SplitPoint(|es|)..])
    requires var es := NodeOf(v).entries; |ts| == 2 && NodeOf(ts[0]).entries == es[..SplitPoint(|es|)] && NodeOf(ts[1]).entries == es[SplitPoint(|es|)..]
    ensures PutFit(t, e, ts, free, free'')
  {
    var es := NodeOf(v).entries;
    SameRoom(es, After(t, e));
    FirstOfNode(ts[0]);
    FirstOfNode(ts[1]);
    TwoFirsts(ts);
  }

  /** Of a node that does not fit and cannot be cut in two. */
  lemma Unfit(t: Tree, e: Entry, es: seq<Entry>, free: nat, free': nat)
    requires BelowFit(t, e, es, free, free') && !Fits(es)
    ensures free' == 0 ==> free < Needs(t, e)
    ensures free' < 2 ==> free < RootNeeds(t, e)
    ensures !(Fits(es[..SplitPoint(|es|)]) && Fits(es[SplitPoint(|es|)..])) ==> Jams(t, e)
    ensures !(Fits(es[..SplitPoint(|es|)]) && Fits(es[SplitPoint(|es|)..]) && |es| >= 2 && Fits(TwoHeads(es))) ==> RootJams(t, e)
  {
    SameRoom(es, After(t, e));
    assert |es| >= 2 ==> TwoHeads(es) == TwoHeads(After(t, e));
  }

  /** A root that fits, or whose halves and separators do. */
  lemma RootFit(t: Tree, e: Entry, es: seq<Entry>, free: nat, free': nat)
    requires BelowFit(t, e, es, free, free')
    requires Fits(es) || (Fits(es[..SplitPoint(|es|)]) && Fits(es[SplitPoint(|es|)..]) && |es| >= 2 && Fits(TwoHeads(es)))
    ensures !RootJams(t, e)
  {
    SameRoom(es, After(t, e));
    assert |es| >= 2 ==> TwoHeads(es) == TwoHeads(After(t, e));
  }

  /** Where no node outgrows its page nothing is in the way of a put. */
  lemma {:induction false} NoneOutgrown(t: Tree, e: Entry)
    ensures Needs(t, e) == 0 ==> !Jams(t, e)
    ensures RootNeeds(t, e) == 0 ==> !RootJams(t, e)
    decreases t
  {
    if t.Branch? && t.kids != [] {
      var c := t.kids[RouteIn(t, e.key)];
      NoneOutgrown(c, e);
      assert NeedsBelow(t, e) == Needs(c, e) && (JamsBelow(t, e) <==> Jams(c, e));
    }
  }

  // ---- deleting ----

  /** The least key of a sorted list, if there is one. */
  ghost function Least(es: seq<Entry>): seq<Bytes> {
    if es == [] then [] else [es[0].key]
  }

  /** The entries of a branch after a delete below it: the separator of the child is its least key then, or gone with it. */
  ghost function Rest(t: Tree, key: Bytes): seq<Entry>
    requires t.Branch? && t.kids != []
  {
    var i := RouteIn(t, key);
    Respaced(t.kids, i, Least(Remove(Flat(t.kids[i]), key)))
  }

  /** Some branch on the way of the key does not fit its page with the separators it gets. */
  ghost predicate Swells(t: Tree, key: Bytes)
    decreases t
  {
    t.Branch? && t.kids != [] && (Swells(t.kids[RouteIn(t, key)], key) || !Fits(Rest(t, key)))
  }

  /** The separators of a branch fit once child i has become news exactly when those foreseen do. */
  lemma RestFits(t: Tree, key: Bytes, i: nat, news: seq<Tree>, s: Store)
    requires t.Branch? && Sorted(Seps(t.kids)) && Routed(Seps(t.kids), key, i)
    requires |news| <= 1 && HeldAll(news, s) && FlatAll(news) == Remove(Flat(t.kids[i]), key)
    ensures Fits(Seps(Replace(t.kids, i, news))) <==> Fits(Rest(t, key))
  {
    RouteIs(Seps(t.kids), key, i);
    if news != [] {
      FlatFirst(news[0], s);
      FlatOne(news[0]);
      assert news == [news[0]];
    }
    assert Firsts(news) == Least(Remove(Flat(t.kids[i]), key));
    RespacedBy(t.kids, i, news);
    BareFits(Seps(Replace(t.kids, i, news)));
  }

  /** No child on the way of the key gets a least key that is longer than the one it had. */
  ghost predicate NoLonger(t: Tree, key: Bytes)
    decreases t
  {
    t.Branch? && t.kids != [] ==>
      var c := t.kids[RouteIn(t, key)];
      var left := Remove(Flat(c), key);
      (left != [] ==> |left[0].key| <= |FirstKey(c)|) && NoLonger(c, key)
  }

  lemma RespacedWeight(kids: seq<Tree>, i: nat, keys: seq<Bytes>)
    requires i < |kids| && |keys| <= 1 && (keys != [] ==> |keys[0]| <= |FirstKey(kids[i])|)
    ensures Weight(Respaced(kids, i, keys)) <= Weight(Respaced(kids, i, [FirstKey(kids[i])]))
  {
    var a, c := Bare(Seps(kids[..i])), Bare(Seps(kids[i + 1..]));
    WeightJoin(a + Headers(keys), c);
    WeightJoin(a, Headers(keys));
    WeightJoin(a + Headers([FirstKey(kids[i])]), c);
    WeightJoin(a, Headers([FirstKey(kids[i])]));
    if keys != [] {
      assert Headers(keys) == [Entry(keys[0], [], 0)];
    }
  }

  lemma SpacedAsIs(kids: seq<Tree>, i: nat)
    requires i < |kids|
    ensures Respaced(kids, i, [FirstKey(kids[i])]) == Bare(Seps(kids))
  {
    assert Replace(kids, i, [kids[i]]) == kids;
    assert Firsts([kids[i]]) == [FirstKey(kids[i])];
    RespacedBy(kids, i, [kids[i]]);
  }

  /** Then the delete finds room everywhere. */
  lemma {:induction false} NoLongerFits(t: Tree, key: Bytes, s: Store)
    requires Held(t, s) && NoLonger(t, key)
    ensures !Swells(t, key)
    decreases t
  {
    if t.Branch? && t.kids != [] {
      var i := RouteIn(t, key);
      HeldParts(t.kids, s, i);
      NoLongerFits(t.kids[i], key, s);
      RespacedWeight(t.kids, i, Least(Remove(Flat(t.kids[i]), key)));
      SpacedAsIs(t.kids, i);
      BareFits(Seps(t.kids));
      FitsWeight(Bare(Seps(t.kids)));
      FitsWeight(Rest(t, key));
    }
  }
}
