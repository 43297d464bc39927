/** What retention guarantees: kept backups stay restorable, and applying the policy again drops nothing more. */
module RetentionLaws {
  import opened Retention
  import opened RestorePlan
  import RuleLaws

  // ---- the retained backups ----

  /** The ids a plan keeps. */
  function KeepIds(items: seq<Item>): set<string> {
    if |items| == 0 then {} else (if items[0].keep then {items[0].backup.id} else {}) + KeepIds(items[1..])
  }

  lemma {:induction false} KeepIdsHas(items: seq<Item>, i: nat)
    requires i < |items| && items[i].keep
    ensures items[i].backup.id in KeepIds(items)
    decreases i
  {
    if i > 0 {
      KeepIdsHas(items[1..], i - 1);
    }
  }

  lemma {:induction false} KeepIdsFrom(items: seq<Item>, id: string) returns (i: nat)
    requires id in KeepIds(items)
    ensures i < |items| && items[i].keep && items[i].backup.id == id
    decreases |items|
  {
    if items[0].keep && items[0].backup.id == id {
      i := 0;
    } else {
      i := KeepIdsFrom(items[1..], id);
      i := i + 1;
    }
  }

  /** The backups with the given ids, in their order. */
  function Only(bs: seq<Backup>, ids: set<string>): (r: seq<Backup>) {
    if |bs| == 0 then []
    else if bs[0].id in ids then [bs[0]] + Only(bs[1..], ids)
    else Only(bs[1..], ids)
  }

  function OnlyItems(items: seq<Item>, ids: set<string>): seq<Item> {
    if |items| == 0 then []
    else if items[0].backup.id in ids then [items[0]] + OnlyItems(items[1..], ids)
    else OnlyItems(items[1..], ids)
  }

  /** Ids are set and distinct. */
  ghost predicate Unique(bs: seq<Backup>) {
    (forall i | 0 <= i < |bs| :: bs[i].id != "") && forall i, j | 0 <= i < j < |bs| :: bs[i].id != bs[j].id
  }

  lemma {:induction false} OnlyMembers(bs: seq<Backup>, ids: set<string>, b: Backup)
    ensures b in Only(bs, ids) <==> b in bs && b.id in ids
  {
    if |bs| > 0 {
      OnlyMembers(bs[1..], ids, b);
      assert bs == [bs[0]] + bs[1..];
    }
  }

  lemma {:induction false} OnlyUnique(bs: seq<Backup>, ids: set<string>)
    requires Unique(bs)
    ensures Unique(Only(bs, ids))
  {
    if |bs| > 0 {
      OnlyUnique(bs[1..], ids);
      var rest := Only(bs[1..], ids);
      forall i | 0 <= i < |rest|
        ensures rest[i].id != bs[0].id
      {
        OnlyMembers(bs[1..], ids, rest[i]);
        assert rest[i] in bs[1..];
      }
    }
  }

  // ---- the table of the retained backups ----

  lemma {:induction false} TableFrom(bs: seq<Backup>, n: nat, id: string)
    requires n <= |bs| && id in Table(bs, n)
    ensures Table(bs, n)[id] in bs[..n] && Table(bs, n)[id].id == id
    decreases n
  {
    if bs[n - 1].id == "" || bs[n - 1].id != id {
      TableFrom(bs, n - 1, id);
      assert bs[..n] == bs[..n - 1] + [bs[n - 1]];
    } else {
      assert bs[..n][n - 1] == bs[n - 1];
    }
  }

  lemma {:induction false} TableHas(bs: seq<Backup>, n: nat, i: nat)
    requires Unique(bs) && i < n <= |bs|
    ensures bs[i].id in Table(bs, n) && Table(bs, n)[bs[i].id] == bs[i]
    decreases n
  {
    if i < n - 1 {
      TableHas(bs, n - 1, i);
    }
  }

  lemma TableOf(bs: seq<Backup>, b: Backup)
    requires Unique(bs)
    ensures b in bs <==> b.id in Table(bs, |bs|) && Table(bs, |bs|)[b.id] == b
  {
    if b in bs {
      var i :| 0 <= i < |bs| && bs[i] == b;
      TableHas(bs, |bs|, i);
    }
    if b.id in Table(bs, |bs|) {
      TableFrom(bs, |bs|, b.id);
      assert bs[..|bs|] == bs;
    }
  }

  /** small has exactly the entries of table with the given ids. */
  ghost predicate Restricts(table: map<string, Backup>, ids: set<string>, small: map<string, Backup>) {
    && (forall id :: id in small <==> id in table && id in ids)
    && forall id | id in small :: small[id] == table[id]
  }

  lemma OnlyTable(bs: seq<Backup>, ids: set<string>)
    requires Unique(bs)
    ensures Restricts(Table(bs, |bs|), ids, Table(Only(bs, ids), |Only(bs, ids)|))
  {
    var few := Only(bs, ids);
    OnlyUnique(bs, ids);
    var table, small := Table(bs, |bs|), Table(few, |few|);
    forall id: string
      ensures id in small <==> id in table && id in ids
      ensures id in small ==> id in table && small[id] == table[id]
    {
      if id in small {
        TableFrom(few, |few|, id);
        assert few[..|few|] == few;
        OnlyMembers(bs, ids, small[id]);
        TableOf(bs, small[id]);
      }
      if id in table && id in ids {
        TableFrom(bs, |bs|, id);
        assert bs[..|bs|] == bs;
        OnlyMembers(bs, ids, table[id]);
        TableOf(few, table[id]);
      }
    }
  }

  // ---- plans over the retained backups ----

  /** With a backup its parent is among the ids, if there is such a backup at all. */
  ghost predicate ParentClosed(table: map<string, Backup>, ids: set<string>) {
    forall id | id in table && id in ids && table[id].parentId in table :: table[id].parentId in ids
  }

  lemma {:induction false} WalkSame(table: map<string, Backup>, ids: set<string>, small: map<string, Backup>, b: Backup, seen: set<string>)
    requires Keyed(table) && Keyed(small) && Restricts(table, ids, small) && ParentClosed(table, ids)
    requires b.id in small && small[b.id] == b
    ensures WalkUp(small, b, seen) == WalkUp(table, b, seen)
    decreases |table.Keys - seen|
  {
    if b.id !in seen && b.parentId != "" && b.parentId in table {
      Fewer(table.Keys, seen, b.id);
      WalkSame(table, ids, small, small[b.parentId], seen + {b.id});
    }
  }

  lemma AnswerSame(table: map<string, Backup>, ids: set<string>, small: map<string, Backup>, request: Request)
    requires Keyed(table) && Keyed(small) && Restricts(table, ids, small) && ParentClosed(table, ids) && request.backupId in ids
    ensures Answer(small, request) == Answer(table, request)
  {
    if request.backupId in table && request.backupId != "" {
      WalkSame(table, ids, small, small[request.backupId], {});
    }
  }

  // ---- scans and sorting keep the backups ----

  lemma {:induction false} ScanSame(rule: Rule, now: int, m: Memory, items: seq<Item>)
    ensures SameBackups(Scan(rule, now, m, items), items)
    ensures forall i | 0 <= i < |items| && items[i].keep :: Scan(rule, now, m, items)[i].keep
    decreases |items|
  {
    if |items| > 0 {
      ScanSame(rule, now, Remember(rule, now, m, items[0].backup), items[1..]);
    }
  }

  lemma {:induction false} RuledSame(rules: seq<Rule>, now: int, items: seq<Item>)
    ensures SameBackups(Ruled(rules, now, items), items)
    ensures forall i | 0 <= i < |items| && items[i].keep :: Ruled(rules, now, items)[i].keep
    decreases |rules|
  {
    if |rules| > 0 {
      ScanSame(rules[0], now, BLANK, items);
      RuledSame(rules[1..], now, Scan(rules[0], now, BLANK, items));
    }
  }

  lemma {:induction false} InsertMembers(b: Backup, bs: seq<Backup>, x: Backup)
    ensures x in InsertByTime(b, bs) <==> x == b || x in bs
  {
    if |bs| > 0 && BackupTime(b) < BackupTime(bs[0]) {
      InsertMembers(b, bs[1..], x);
      assert bs == [bs[0]] + bs[1..];
    }
  }

  lemma {:induction false} SortMembers(bs: seq<Backup>, x: Backup)
    ensures x in NewestFirst(bs) <==> x in bs
  {
    if |bs| > 0 {
      SortMembers(bs[1..], x);
      InsertMembers(bs[0], NewestFirst(bs[1..]), x);
      assert bs == [bs[0]] + bs[1..];
    }
  }

  // ---- a policy keeps chains whole ----

  /** plan is what resolving the policy over the backups gives. */
  ghost predicate Resolves(backups: seq<Backup>, rules: seq<Rule>, now: int, plan: seq<Item>) {
    IsClosure(Ruled(rules, now, Fresh(NewestFirst(backups))), plan)
  }

  lemma PlanBackups(backups: seq<Backup>, rules: seq<Rule>, now: int, plan: seq<Item>)
    requires Resolves(backups, rules, now, plan)
    ensures SameBackups(Ruled(rules, now, Fresh(NewestFirst(backups))), plan) && SameBackups(Fresh(NewestFirst(backups)), plan)
    ensures forall i | 0 <= i < |plan| :: plan[i].backup in backups
  {
    RuledSame(rules, now, Fresh(NewestFirst(backups)));
    forall i | 0 <= i < |plan|
      ensures plan[i].backup in backups
    {
      assert plan[i].backup == NewestFirst(backups)[i];
      SortMembers(backups, plan[i].backup);
    }
  }

  /** If the parent of a kept item is among the items, it is kept. */
  lemma KeptParent(before: seq<Item>, plan: seq<Item>, i: nat, j: nat)
    requires IsClosure(before, plan) && i < |plan| && j < |plan| && plan[i].keep
    requires plan[i].backup.parentId == plan[j].backup.id && plan[j].backup.id != ""
    ensures plan[i].backup.parentId in KeepIds(plan)
  {
    ByIdHas(before, |before|, j);
    assert ParentOf(before, i).Some? && i in KeptSet(plan);
    var p := ParentOf(before, i).value;
    KeepIdsHas(plan, p);
  }

  lemma KeptClosed(backups: seq<Backup>, rules: seq<Rule>, now: int, plan: seq<Item>)
    requires Unique(backups) && Resolves(backups, rules, now, plan)
    ensures ParentClosed(Table(backups, |backups|), KeepIds(plan))
  {
    var table := Table(backups, |backups|);
    PlanBackups(backups, rules, now, plan);
    forall id | id in table && id in KeepIds(plan) && table[id].parentId in table
      ensures table[id].parentId in KeepIds(plan)
    {
      var i := KeepIdsFrom(plan, id);
      TableOf(backups, plan[i].backup);
      var parent := table[id].parentId;
      TableFrom(backups, |backups|, parent);
      assert backups[..|backups|] == backups;
      SortMembers(backups, table[parent]);
      var j :| 0 <= j < |NewestFirst(backups)| && NewestFirst(backups)[j] == table[parent];
      KeptParent(Ruled(rules, now, Fresh(NewestFirst(backups))), plan, i, j);
    }
  }

  /** For a kept backup the planner answers over the retained backups what it answers over all of them. */
  lemma PlansSurvive(backups: seq<Backup>, rules: seq<Rule>, now: int, plan: seq<Item>, request: Request)
    requires Unique(backups) && Resolves(backups, rules, now, plan) && request.backupId in KeepIds(plan)
    ensures var few := Only(backups, KeepIds(plan));
            && Keyed(Table(few, |few|)) && Keyed(Table(backups, |backups|))
            && Answer(Table(few, |few|), request) == Answer(Table(backups, |backups|), request)
  {
    var few := Only(backups, KeepIds(plan));
    TableKeyed(few, |few|);
    TableKeyed(backups, |backups|);
    OnlyTable(backups, KeepIds(plan));
    KeptClosed(backups, rules, now, plan);
    AnswerSame(Table(backups, |backups|), KeepIds(plan), Table(few, |few|), request);
  }

  // ---- sorting what is left ----

  ghost predicate Descending(bs: seq<Backup>) {
    forall i, j | 0 <= i < j < |bs| :: BackupTime(bs[i]) >= BackupTime(bs[j])
  }

  lemma {:induction false} InsertDescending(b: Backup, bs: seq<Backup>)
    requires Descending(bs)
    ensures Descending(InsertByTime(b, bs))
  {
    if |bs| > 0 && BackupTime(b) < BackupTime(bs[0]) {
      InsertDescending(b, bs[1..]);
      var rest := InsertByTime(b, bs[1..]);
      forall i | 0 <= i < |rest|
        ensures BackupTime(bs[0]) >= BackupTime(rest[i])
      {
        InsertMembers(b, bs[1..], rest[i]);
      }
    }
  }

  /** A plan lists the backups newest first. */
  lemma {:induction false} SortDescending(bs: seq<Backup>)
    ensures Descending(NewestFirst(bs))
  {
    if |bs| > 0 {
      SortDescending(bs[1..]);
      InsertDescending(bs[0], NewestFirst(bs[1..]));
    }
  }

  lemma {:induction false} InsertPermutes(b: Backup, bs: seq<Backup>)
    ensures multiset(InsertByTime(b, bs)) == multiset(bs) + multiset{b}
  {
    if |bs| > 0 && BackupTime(b) < BackupTime(bs[0]) {
      InsertPermutes(b, bs[1..]);
      assert bs == [bs[0]] + bs[1..];
    }
  }

  /** And lists each of them. */
  lemma {:induction false} SortPermutes(bs: seq<Backup>)
    ensures multiset(NewestFirst(bs)) == multiset(bs)
  {
    if |bs| > 0 {
      SortPermutes(bs[1..]);
      InsertPermutes(bs[0], NewestFirst(bs[1..]));
      assert bs == [bs[0]] + bs[1..];
    }
  }

  /** So the items of a plan age from first to last. */
  lemma PlanAges(bs: seq<Backup>, now: int)
    ensures RuleLaws.Aging(now, Fresh(NewestFirst(bs)))
  {
    SortDescending(bs);
  }

  /** In front of backups that are not newer. */
  lemma InsertFirst(b: Backup, bs: seq<Backup>, ids: set<string>)
    requires Descending(bs) && (|bs| > 0 ==> BackupTime(b) >= BackupTime(bs[0]))
    ensures InsertByTime(b, Only(bs, ids)) == [b] + Only(bs, ids)
  {
    var few := Only(bs, ids);
    if |few| > 0 {
      OnlyMembers(bs, ids, few[0]);
      var i :| 0 <= i < |bs| && bs[i] == few[0];
      assert BackupTime(bs[0]) >= BackupTime(bs[i]);
    }
  }

  lemma {:induction false} InsertOnly(b: Backup, bs: seq<Backup>, ids: set<string>)
    requires Descending(bs)
    ensures Only(InsertByTime(b, bs), ids) == if b.id in ids then InsertByTime(b, Only(bs, ids)) else Only(bs, ids)
  {
    if |bs| == 0 || BackupTime(b) >= BackupTime(bs[0]) {
      InsertFirst(b, bs, ids);
      assert ([b] + bs)[1..] == bs;
    } else {
      InsertOnly(b, bs[1..], ids);
      var rest := InsertByTime(b, bs[1..]);
      assert ([bs[0]] + rest)[1..] == rest;
      var few := Only(bs[1..], ids);
      assert ([bs[0]] + few)[1..] == few;
    }
  }

  /** Sorting is stable: dropping backups before or after it is the same. */
  lemma {:induction false} SortOnly(bs: seq<Backup>, ids: set<string>)
    ensures NewestFirst(Only(bs, ids)) == Only(NewestFirst(bs), ids)
  {
    if |bs| > 0 {
      SortOnly(bs[1..], ids);
      SortDescending(bs[1..]);
      InsertOnly(bs[0], NewestFirst(bs[1..]), ids);
    }
  }

  lemma {:induction false} FreshOnly(bs: seq<Backup>, ids: set<string>)
    ensures Fresh(Only(bs, ids)) == OnlyItems(Fresh(bs), ids)
  {
    if |bs| > 0 {
      FreshOnly(bs[1..], ids);
      assert Fresh(bs)[1..] == Fresh(bs[1..]);
      if bs[0].id in ids {
        assert Fresh([bs[0]] + Only(bs[1..], ids)) == [Fresh(bs)[0]] + Fresh(Only(bs[1..], ids));
      }
    }
  }

  // ---- scanning what is left ----

  /** Every kept item has one of the ids. */
  ghost predicate Covers(ids: set<string>, items: seq<Item>) {
    forall i | 0 <= i < |items| && items[i].keep :: items[i].backup.id in ids
  }

  /** A scan over a part that has everything it selects selects the same there. */
  lemma {:induction false} ScanOnly(rule: Rule, now: int, m: Memory, items: seq<Item>, ids: set<string>)
    requires Covers(ids, Scan(rule, now, m, items))
    ensures Scan(rule, now, m, OnlyItems(items, ids)) == OnlyItems(Scan(rule, now, m, items), ids)
    decreases |items|
  {
    if |items| > 0 {
      var b := items[0].backup;
      var m' := Remember(rule, now, m, b);
      var head, tail := KeepFor(items[0], Reasons(rule, now, m, b)), Scan(rule, now, m', items[1..]);
      var all := [head] + tail;
      assert all[1..] == tail;
      assert Covers(ids, tail) by {
        forall i | 0 <= i < |tail| && tail[i].keep
          ensures tail[i].backup.id in ids
        {
          assert all[i + 1] == tail[i];
        }
      }
      ScanOnly(rule, now, m', items[1..], ids);
      if b.id in ids {
        assert ([items[0]] + OnlyItems(items[1..], ids))[1..] == OnlyItems(items[1..], ids);
      } else {
        assert all[0] == head && !head.keep;
        UnselectedForgotten(rule, now, m, b);
      }
    }
  }

  lemma {:induction false} RuledOnly(rules: seq<Rule>, now: int, items: seq<Item>, ids: set<string>)
    requires Covers(ids, Ruled(rules, now, items))
    ensures Ruled(rules, now, OnlyItems(items, ids)) == OnlyItems(Ruled(rules, now, items), ids)
    decreases |rules|
  {
    if |rules| > 0 {
      var scanned := Scan(rules[0], now, BLANK, items);
      RuledSame(rules[1..], now, scanned);
      assert Covers(ids, scanned) by {
        forall i | 0 <= i < |scanned| && scanned[i].keep
          ensures scanned[i].backup.id in ids
        {
          assert Ruled(rules[1..], now, scanned)[i].keep;
        }
      }
      ScanOnly(rules[0], now, BLANK, items, ids);
      RuledOnly(rules[1..], now, scanned, ids);
    }
  }

  // ---- closing what is left ----

  lemma {:induction false} OnlyItemsFrom(items: seq<Item>, ids: set<string>, j: nat) returns (i: nat)
    requires j < |OnlyItems(items, ids)|
    ensures i < |items| && items[i] == OnlyItems(items, ids)[j] && items[i].backup.id in ids
    decreases |items|
  {
    if items[0].backup.id in ids {
      if j == 0 {
        i := 0;
      } else {
        i := OnlyItemsFrom(items[1..], ids, j - 1);
        i := i + 1;
      }
    } else {
      i := OnlyItemsFrom(items[1..], ids, j);
      i := i + 1;
    }
  }

  lemma {:induction false} OnlyItemsHas(items: seq<Item>, ids: set<string>, i: nat) returns (j: nat)
    requires i < |items| && items[i].backup.id in ids
    ensures j < |OnlyItems(items, ids)| && OnlyItems(items, ids)[j] == items[i]
    decreases i
  {
    if i == 0 {
      j := 0;
    } else {
      j := OnlyItemsHas(items[1..], ids, i - 1);
      if items[0].backup.id in ids {
        j := j + 1;
      }
    }
  }

  ghost predicate UniqueItems(items: seq<Item>) {
    (forall i | 0 <= i < |items| :: items[i].backup.id != "") && forall i, j | 0 <= i < j < |items| :: items[i].backup.id != items[j].backup.id
  }

  /** The positions whose ids the second plan keeps. */
  ghost function KeptAgain(items: seq<Item>, plan: seq<Item>): set<nat> {
    set i: nat | i < |items| && items[i].backup.id in KeepIds(plan)
  }

  lemma KeptAgainStarts(ruled: seq<Item>, ids: set<string>, plan': seq<Item>)
    requires IsClosure(OnlyItems(ruled, ids), plan') && Covers(ids, ruled)
    ensures KeptIn(ruled, KeptAgain(ruled, plan'))
  {
    forall i: nat | i < |ruled| && ruled[i].keep
      ensures i in KeptAgain(ruled, plan')
    {
      var j := OnlyItemsHas(ruled, ids, i);
      assert plan'[j].backup == OnlyItems(ruled, ids)[j].backup && plan'[j].keep;
      KeepIdsHas(plan', j);
    }
  }

  /** If the second plan keeps a backup, it keeps the parent, for that was retained. */
  lemma KeptAgainParent(ruled: seq<Item>, plan: seq<Item>, plan': seq<Item>, i: nat)
    requires IsClosure(ruled, plan) && UniqueItems(ruled) && IsClosure(OnlyItems(ruled, KeepIds(plan)), plan')
    requires i < |ruled| && i in KeptAgain(ruled, plan') && ParentOf(ruled, i).Some?
    ensures ParentOf(ruled, i).value in KeptAgain(ruled, plan')
  {
    var ids, few := KeepIds(plan), OnlyItems(ruled, KeepIds(plan));
    var p := ParentOf(ruled, i).value;
    var j := KeepIdsFrom(plan', ruled[i].backup.id);
    var k := OnlyItemsFrom(ruled, ids, j);
    assert ruled[k].backup == plan'[j].backup && k == i;
    var l := KeepIdsFrom(plan, ruled[i].backup.id);
    assert l == i && i in KeptSet(plan) && p in KeptSet(plan);
    KeepIdsHas(plan, p);
    var jp := OnlyItemsHas(ruled, ids, p);
    assert plan'[jp].backup == few[jp].backup;
    KeptParent(few, plan', j, jp);
  }

  /** The second plan keeps every item it has. */
  lemma AllKeptAgain(ruled: seq<Item>, plan: seq<Item>, plan': seq<Item>, j: nat)
    requires IsClosure(ruled, plan) && UniqueItems(ruled) && IsClosure(OnlyItems(ruled, KeepIds(plan)), plan') && j < |plan'|
    ensures plan'[j].keep
  {
    var ids := KeepIds(plan);
    KeptCovers(ruled, plan);
    KeptAgainStarts(ruled, ids, plan');
    var s := KeptAgain(ruled, plan');
    assert Closed(ruled, s) by {
      forall i: nat | i < |ruled| && i in s && ParentOf(ruled, i).Some?
        ensures ParentOf(ruled, i).value in s
      {
        KeptAgainParent(ruled, plan, plan', i);
      }
    }
    assert KeptIn(plan, s);
    var i := OnlyItemsFrom(ruled, ids, j);
    var l := KeepIdsFrom(plan, ruled[i].backup.id);
    assert l == i && i in s;
    var k := KeepIdsFrom(plan', ruled[i].backup.id);
    SamePlace(ruled, ids, plan', j, k);
  }

  /** Items kept by the rules are kept by the plan. */
  lemma KeptCovers(ruled: seq<Item>, plan: seq<Item>)
    requires IsClosure(ruled, plan)
    ensures Covers(KeepIds(plan), ruled)
  {
    forall i | 0 <= i < |ruled| && ruled[i].keep
      ensures ruled[i].backup.id in KeepIds(plan)
    {
      KeepIdsHas(plan, i);
    }
  }

  lemma {:induction false} OnlyItemsUnique(items: seq<Item>, ids: set<string>)
    requires UniqueItems(items)
    ensures UniqueItems(OnlyItems(items, ids))
  {
    if |items| > 0 {
      OnlyItemsUnique(items[1..], ids);
      var rest := OnlyItems(items[1..], ids);
      forall j | 0 <= j < |rest|
        ensures rest[j].backup.id != items[0].backup.id
      {
        var i := OnlyItemsFrom(items[1..], ids, j);
        assert items[1..][i] == items[i + 1];
      }
    }
  }

  lemma SamePlace(ruled: seq<Item>, ids: set<string>, plan': seq<Item>, j: nat, k: nat)
    requires UniqueItems(ruled) && SameBackups(OnlyItems(ruled, ids), plan') && j < |plan'| && k < |plan'|
    requires plan'[j].backup.id == plan'[k].backup.id
    ensures j == k
  {
    OnlyItemsUnique(ruled, ids);
    assert OnlyItems(ruled, ids)[j].backup == plan'[j].backup && OnlyItems(ruled, ids)[k].backup == plan'[k].backup;
  }

  lemma {:induction false} InsertUnique(b: Backup, bs: seq<Backup>)
    requires Unique(bs) && b.id != "" && forall i | 0 <= i < |bs| :: bs[i].id != b.id
    ensures Unique(InsertByTime(b, bs))
  {
    if |bs| > 0 && BackupTime(b) < BackupTime(bs[0]) {
      InsertUnique(b, bs[1..]);
      var rest := InsertByTime(b, bs[1..]);
      forall i | 0 <= i < |rest|
        ensures rest[i].id != bs[0].id
      {
        InsertMembers(b, bs[1..], rest[i]);
      }
    }
  }

  lemma {:induction false} SortUnique(bs: seq<Backup>)
    requires Unique(bs)
    ensures Unique(NewestFirst(bs))
  {
    if |bs| > 0 {
      SortUnique(bs[1..]);
      var rest := NewestFirst(bs[1..]);
      forall i | 0 <= i < |rest|
        ensures rest[i].id != bs[0].id
      {
        SortMembers(bs[1..], rest[i]);
      }
      InsertUnique(bs[0], rest);
    }
  }

  /** Retention is idempotent: resolving the same policy over the retained backups keeps all of them. */
  lemma Idempotent(backups: seq<Backup>, rules: seq<Rule>, now: int, plan: seq<Item>, plan': seq<Item>)
    requires Unique(backups) && Resolves(backups, rules, now, plan) && Resolves(Only(backups, KeepIds(plan)), rules, now, plan')
    ensures forall j | 0 <= j < |plan'| :: plan'[j].keep
    ensures |plan'| == |Only(backups, KeepIds(plan))|
  {
    var ids := KeepIds(plan);
    var items := Fresh(NewestFirst(backups));
    var ruled := Ruled(rules, now, items);
    SortUnique(backups);
    RuledSame(rules, now, items);
    SortOnly(backups, ids);
    FreshOnly(NewestFirst(backups), ids);
    KeptCovers(ruled, plan);
    RuledOnly(rules, now, items, ids);
    forall j: nat | j < |plan'|
      ensures plan'[j].keep
    {
      AllKeptAgain(ruled, plan, plan', j);
    }
    PlanBackups(Only(backups, ids), rules, now, plan');
    SortLength(Only(backups, ids));
  }

  lemma {:induction false} SortLength(bs: seq<Backup>)
    ensures |NewestFirst(bs)| == |bs|
  {
    if |bs| > 0 {
      SortLength(bs[1..]);
      InsertLength(bs[0], NewestFirst(bs[1..]));
    }
  }

  lemma {:induction false} InsertLength(b: Backup, bs: seq<Backup>)
    ensures |InsertByTime(b, bs)| == |bs| + 1
  {
    if |bs| > 0 && BackupTime(b) < BackupTime(bs[0]) {
      InsertLength(b, bs[1..]);
    }
  }
}
