/** Retention: greedy scans over the backups, newest first, and the protection of kept backups' ancestors. */
module Retention {
  import opened Options
  import opened Calendar
  import Cron

  /** Times are nanoseconds since 1970; an empty id is the zero id. */
  datatype Backup = Backup(
    id: string, parentId: string, kind: string,
    startedAt: int, endedAt: int,
    guarded: bool, sizeBytes: int,
    manifestId: string, targetId: string, storageId: string)

  /** The zero time, 0001-01-01. */
  const ZERO_TIME := -62135596800 * Cron.NANOS

  function BackupTime(b: Backup): int {
    if b.endedAt != ZERO_TIME then b.endedAt else b.startedAt
  }

  datatype Item = Item(backup: Backup, keep: bool, reasons: seq<string>)

  /** Keep an item; a reason is recorded once. */
  function Keep(item: Item, reason: string): Item {
    item.(keep := true, reasons := if reason in item.reasons then item.reasons else item.reasons + [reason])
  }

  function KeepFor(item: Item, reasons: seq<string>): (r: Item)
    ensures r.backup == item.backup && (r.keep <==> item.keep || |reasons| > 0)
    decreases |reasons|
  {
    if |reasons| == 0 then item else KeepFor(Keep(item, reasons[0]), reasons[1..])
  }

  // ---- newest first ----

  /** Put a backup in front of those that are not newer. */
  function InsertByTime(b: Backup, bs: seq<Backup>): seq<Backup> {
    if |bs| == 0 || BackupTime(b) >= BackupTime(bs[0]) then [b] + bs else [bs[0]] + InsertByTime(b, bs[1..])
  }

  /** The stable sort, newest first. */
  function NewestFirst(bs: seq<Backup>): seq<Backup> {
    if |bs| == 0 then [] else InsertByTime(bs[0], NewestFirst(bs[1..]))
  }

  function Fresh(bs: seq<Backup>): (r: seq<Item>)
    ensures |r| == |bs| && forall i | 0 <= i < |bs| :: r[i] == Item(bs[i], bs[i].guarded, if bs[i].guarded then ["protected"] else [])
  {
    seq(|bs|, i requires 0 <= i < |bs| => Item(bs[i], bs[i].guarded, if bs[i].guarded then ["protected"] else []))
  }

  // ---- rules ----

  datatype Rule =
    | Count(n: int, kind: string)
    | Time(duration: int)
    | Size(maxBytes: int)
    | Gfs(daily: int, weekly: int, monthly: int, yearly: int)
    | Unsupported

  predicate Rejected(rule: Rule) {
    match rule
    case Count(n, _) => n < 0
    case Time(duration) => duration < 0
    case Size(maxBytes) => maxBytes < 0
    case Gfs(d, w, m, y) => d < 0 || w < 0 || m < 0 || y < 0
    case Unsupported => true
  }

  /** 64-bit signed arithmetic. */
  function Wrap(x: int): int {
    (x + 0x8000_0000_0000_0000) % 0x1_0000_0000_0000_0000 - 0x8000_0000_0000_0000
  }

  /** The UTC day, ISO week, month and year of a backup; each stands for the formatted string. */
  function DayKey(b: Backup): int {
    DayOf(BackupTime(b) / Cron.NANOS)
  }

  function WeekKey(b: Backup): int {
    (DayKey(b) + 3) / 7
  }

  function MonthKey(b: Backup): int {
    MonthOf(DayKey(b))
  }

  function YearKey(b: Backup): int {
    MonthOf(DayKey(b)) / 12
  }

  /** What a scan remembers: how many it kept, their size, and the calendar periods it has seen. */
  datatype Memory = Memory(kept: nat, total: int, days: set<int>, weeks: set<int>, months: set<int>, years: set<int>)

  const BLANK := Memory(0, 0, {}, {}, {}, {})

  /** A period that is not full and not seen yet takes the key in. */
  predicate Takes(quota: int, seen: set<int>, key: int) {
    quota > |seen| && key !in seen
  }

  /** The reasons a rule has to keep a backup, given what the scan remembers. */
  function Reasons(rule: Rule, now: int, m: Memory, b: Backup): seq<string> {
    match rule
    case Count(n, kind) => if (kind == "" || b.kind == kind) && m.kept < n then ["count"] else []
    case Time(duration) => if BackupTime(b) >= now - duration then ["time"] else []
    case Size(maxBytes) => if !b.guarded && Wrap(m.total + b.sizeBytes) <= maxBytes then ["size"] else []
    case Gfs(daily, weekly, monthly, yearly) =>
      (if Takes(daily, m.days, DayKey(b)) then ["gfs:daily"] else []) +
      (if Takes(weekly, m.weeks, WeekKey(b)) then ["gfs:weekly"] else []) +
      (if Takes(monthly, m.months, MonthKey(b)) then ["gfs:monthly"] else []) +
      (if Takes(yearly, m.years, YearKey(b)) then ["gfs:yearly"] else [])
    case Unsupported => []
  }

  function Remember(rule: Rule, now: int, m: Memory, b: Backup): Memory {
    match rule
    case Count(n, kind) => if (kind == "" || b.kind == kind) && m.kept < n then m.(kept := m.kept + 1) else m
    case Time(_) => m
    case Size(maxBytes) => if !b.guarded && Wrap(m.total + b.sizeBytes) <= maxBytes then m.(total := Wrap(m.total + b.sizeBytes)) else m
    case Gfs(daily, weekly, monthly, yearly) =>
      m.(days := if Takes(daily, m.days, DayKey(b)) then m.days + {DayKey(b)} else m.days,
         weeks := if Takes(weekly, m.weeks, WeekKey(b)) then m.weeks + {WeekKey(b)} else m.weeks,
         months := if Takes(monthly, m.months, MonthKey(b)) then m.months + {MonthKey(b)} else m.months,
         years := if Takes(yearly, m.years, YearKey(b)) then m.years + {YearKey(b)} else m.years)
    case Unsupported => m
  }

  /** A backup the rule does not select leaves no trace in the scan. */
  lemma UnselectedForgotten(rule: Rule, now: int, m: Memory, b: Backup)
    requires |Reasons(rule, now, m, b)| == 0
    ensures Remember(rule, now, m, b) == m
  {
  }

  /** One scan over the items. */
  function Scan(rule: Rule, now: int, m: Memory, items: seq<Item>): (r: seq<Item>)
    ensures |r| == |items|
    decreases |items|
  {
    if |items| == 0 then []
    else
      [KeepFor(items[0], Reasons(rule, now, m, items[0].backup))] + Scan(rule, now, Remember(rule, now, m, items[0].backup), items[1..])
  }

  function Ruled(rules: seq<Rule>, now: int, items: seq<Item>): seq<Item>
    decreases |rules|
  {
    if |rules| == 0 then items else Ruled(rules[1..], now, Scan(rules[0], now, BLANK, items))
  }

  // ---- scans in place ----

  /** The scan is done up to i; finishing it from there with what it remembers gives the whole scan. */
  ghost predicate Scanned(rule: Rule, now: int, before: seq<Item>, items: seq<Item>, i: nat, m: Memory) {
    && |items| == |before| && i <= |items| && items[i..] == before[i..]
    && items[..i] + Scan(rule, now, m, before[i..]) == Scan(rule, now, BLANK, before)
  }

  lemma ScanStarts(rule: Rule, now: int, before: seq<Item>)
    ensures Scanned(rule, now, before, before, 0, BLANK)
  {
    assert before[0..] == before;
  }

  lemma ScanNext(rule: Rule, now: int, before: seq<Item>, items: seq<Item>, i: nat, m: Memory)
    requires Scanned(rule, now, before, items, i, m) && i < |items|
    ensures Scanned(rule, now, before, items[i := KeepFor(items[i], Reasons(rule, now, m, items[i].backup))], i + 1, Remember(rule, now, m, items[i].backup))
  {
    var item := KeepFor(items[i], Reasons(rule, now, m, items[i].backup));
    var m' := Remember(rule, now, m, items[i].backup);
    assert before[i] == before[i..][0] == items[i..][0] == items[i];
    assert before[i..][1..] == before[i + 1..];
    assert items[i := item][i + 1..] == items[i..][1..];
    assert items[i := item][..i + 1] == items[..i] + [item];
    assert items[..i] + ([item] + Scan(rule, now, m', before[i + 1..])) == (items[..i] + [item]) + Scan(rule, now, m', before[i + 1..]);
  }

  lemma ScanEnds(rule: Rule, now: int, before: seq<Item>, items: seq<Item>, m: Memory)
    requires Scanned(rule, now, before, items, |before|, m)
    ensures items == Scan(rule, now, BLANK, before)
  {
    assert before[|before|..] == [] && items[..|before|] == items;
    assert items + [] == items;
  }

  lemma KeepOne(item: Item, reason: string)
    ensures KeepFor(item, [reason]) == Keep(item, reason) && KeepFor(item, []) == item
  {
    assert [reason][1..] == [];
  }

  lemma {:induction false} KeepMore(item: Item, a: seq<string>, b: seq<string>)
    ensures KeepFor(item, a + b) == KeepFor(KeepFor(item, a), b)
    decreases |a|
  {
    if |a| == 0 {
      assert a + b == b;
    } else {
      assert (a + b)[0] == a[0] && (a + b)[1..] == a[1..] + b;
      KeepMore(Keep(item, a[0]), a[1..], b);
    }
  }

  method ApplyCount(a: array<Item>, n: int, kind: string, now: int)
    requires n >= 0
    modifies a
    ensures a[..] == Scan(Count(n, kind), now, BLANK, old(a[..]))
  {
    ghost var rule, before, m := Count(n, kind), a[..], BLANK;
    ScanStarts(rule, now, before);
    var kept := 0;
    var i := 0;
    while i < a.Length
      invariant 0 <= i <= a.Length && Scanned(rule, now, before, a[..], i, m) && m == BLANK.(kept := kept)
    {
      ghost var items := a[..];
      ScanNext(rule, now, before, items, i, m);
      KeepOne(items[i], "count");
      if (kind == "" || a[i].backup.kind == kind) && kept < n {
        a[i] := Keep(a[i], "count");
        kept := kept + 1;
      }
      assert a[..] == items[i := KeepFor(items[i], Reasons(rule, now, m, items[i].backup))];
      m := Remember(rule, now, m, items[i].backup);
      i := i + 1;
    }
    ScanEnds(rule, now, before, a[..], m);
  }

  method ApplyTime(a: array<Item>, duration: int, now: int)
    requires duration >= 0
    modifies a
    ensures a[..] == Scan(Time(duration), now, BLANK, old(a[..]))
  {
    ghost var rule, before, m := Time(duration), a[..], BLANK;
    ScanStarts(rule, now, before);
    var cutoff := now - duration;
    var i := 0;
    while i < a.Length
      invariant 0 <= i <= a.Length && Scanned(rule, now, before, a[..], i, m) && m == BLANK
    {
      ghost var items := a[..];
      ScanNext(rule, now, before, items, i, m);
      KeepOne(items[i], "time");
      if BackupTime(a[i].backup) >= cutoff {
        a[i] := Keep(a[i], "time");
      }
      assert a[..] == items[i := KeepFor(items[i], Reasons(rule, now, m, items[i].backup))];
      m := Remember(rule, now, m, items[i].backup);
      i := i + 1;
    }
    ScanEnds(rule, now, before, a[..], m);
  }

  method ApplySize(a: array<Item>, maxBytes: int, now: int)
    requires maxBytes >= 0
    modifies a
    ensures a[..] == Scan(Size(maxBytes), now, BLANK, old(a[..]))
  {
    ghost var rule, before, m := Size(maxBytes), a[..], BLANK;
    ScanStarts(rule, now, before);
    var total := 0;
    var i := 0;
    while i < a.Length
      invariant 0 <= i <= a.Length && Scanned(rule, now, before, a[..], i, m) && m == BLANK.(total := total)
    {
      ghost var items := a[..];
      ScanNext(rule, now, before, items, i, m);
      KeepOne(items[i], "size");
      if !a[i].backup.guarded && Wrap(total + a[i].backup.sizeBytes) <= maxBytes {
        total := Wrap(total + a[i].backup.sizeBytes);
        a[i] := Keep(a[i], "size");
      }
      assert a[..] == items[i := KeepFor(items[i], Reasons(rule, now, m, items[i].backup))];
      m := Remember(rule, now, m, items[i].backup);
      i := i + 1;
    }
    ScanEnds(rule, now, before, a[..], m);
  }

  /** Keep an item for a period that takes its key in. */
  method KeepPeriod(item: Item, quota: int, seen: set<int>, key: int, reason: string) returns (after: Item, seen': set<int>)
    ensures after == KeepFor(item, if Takes(quota, seen, key) then [reason] else [])
    ensures seen' == if Takes(quota, seen, key) then seen + {key} else seen
  {
    KeepOne(item, reason);
    after, seen' := item, seen;
    if quota > |seen| {
      if key !in seen {
        seen' := seen + {key};
        after := Keep(item, reason);
      }
    }
  }

  method KeepPeriods(item: Item, daily: int, weekly: int, monthly: int, yearly: int, m: Memory, ghost now: int) returns (after: Item, m': Memory)
    ensures after == KeepFor(item, Reasons(Gfs(daily, weekly, monthly, yearly), now, m, item.backup))
    ensures m' == Remember(Gfs(daily, weekly, monthly, yearly), now, m, item.backup)
  {
    var b := item.backup;
    var days, weeks, months, years;
    after, days := KeepPeriod(item, daily, m.days, DayKey(b), "gfs:daily");
    after, weeks := KeepPeriod(after, weekly, m.weeks, WeekKey(b), "gfs:weekly");
    after, months := KeepPeriod(after, monthly, m.months, MonthKey(b), "gfs:monthly");
    after, years := KeepPeriod(after, yearly, m.years, YearKey(b), "gfs:yearly");
    m' := m.(days := days, weeks := weeks, months := months, years := years);
    ghost var d := if Takes(daily, m.days, DayKey(b)) then ["gfs:daily"] else [];
    ghost var w := if Takes(weekly, m.weeks, WeekKey(b)) then ["gfs:weekly"] else [];
    ghost var mo := if Takes(monthly, m.months, MonthKey(b)) then ["gfs:monthly"] else [];
    ghost var y := if Takes(yearly, m.years, YearKey(b)) then ["gfs:yearly"] else [];
    KeepMore(item, d, w);
    KeepMore(item, d + w, mo);
    KeepMore(item, d + w + mo, y);
  }

  method ApplyGfs(a: array<Item>, daily: int, weekly: int, monthly: int, yearly: int, now: int)
    requires daily >= 0 && weekly >= 0 && monthly >= 0 && yearly >= 0
    modifies a
    ensures a[..] == Scan(Gfs(daily, weekly, monthly, yearly), now, BLANK, old(a[..]))
  {
    ghost var rule, before := Gfs(daily, weekly, monthly, yearly), a[..];
    ScanStarts(rule, now, before);
    var m := BLANK;
    var i := 0;
    while i < a.Length
      invariant 0 <= i <= a.Length && Scanned(rule, now, before, a[..], i, m)
    {
      ghost var items := a[..];
      ScanNext(rule, now, before, items, i, m);
      a[i], m := KeepPeriods(a[i], daily, weekly, monthly, yearly, m, now);
      assert a[..] == items[i := a[i]];
      i := i + 1;
    }
    ScanEnds(rule, now, before, a[..], m);
  }

  /** Apply one rule in place; a rule that is refused changes nothing. */
  method Apply(a: array<Item>, rule: Rule, now: int) returns (ok: bool)
    modifies a
    ensures ok <==> !Rejected(rule)
    ensures a[..] == if ok then Scan(rule, now, BLANK, old(a[..])) else old(a[..])
  {
    ok := !Rejected(rule);
    if ok {
      match rule {
        case Count(n, kind) => ApplyCount(a, n, kind, now);
        case Time(duration) => ApplyTime(a, duration, now);
        case Size(maxBytes) => ApplySize(a, maxBytes, now);
        case Gfs(d, w, m, y) => ApplyGfs(a, d, w, m, y, now);
      }
    }
  }

  // ---- ancestors ----

  /** The position of each non-zero id among the first n items; the last one with an id has it. */
  function ById(items: seq<Item>, n: nat): (r: map<string, nat>)
    requires n <= |items|
  {
    if n == 0 then map[]
    else
      var rest := ById(items, n - 1);
      if items[n - 1].backup.id == "" then rest else rest[items[n - 1].backup.id := n - 1]
  }

  lemma {:induction false} ByIdPlace(items: seq<Item>, n: nat, id: string)
    requires n <= |items| && id in ById(items, n)
    ensures id != "" && ById(items, n)[id] < n && items[ById(items, n)[id]].backup.id == id
    decreases n
  {
    if items[n - 1].backup.id == "" || items[n - 1].backup.id != id {
      ByIdPlace(items, n - 1, id);
    }
  }

  lemma {:induction false} ByIdHas(items: seq<Item>, n: nat, i: nat)
    requires i < n <= |items| && items[i].backup.id != ""
    ensures items[i].backup.id in ById(items, n)
    decreases n
  {
    if i < n - 1 {
      ByIdHas(items, n - 1, i);
    }
  }

  function ParentOf(items: seq<Item>, i: nat): (r: Option<nat>)
    requires i < |items|
    ensures r.Some? ==> r.value < |items| && items[r.value].backup.id == items[i].backup.parentId
  {
    var parent := items[i].backup.parentId;
    if parent == "" || parent !in ById(items, |items|) then None
    else
      ByIdPlace(items, |items|, parent);
      Some(ById(items, |items|)[parent])
  }

  /** With its members, the set has their parents. */
  ghost predicate Closed(items: seq<Item>, s: set<nat>) {
    forall i: nat {:trigger ParentOf(items, i)} | i < |items| && i in s && ParentOf(items, i).Some? :: ParentOf(items, i).value in s
  }

  ghost predicate KeptIn(items: seq<Item>, s: set<nat>) {
    forall i: nat | i < |items| && items[i].keep :: i in s
  }

  ghost predicate SameBackups(a: seq<Item>, b: seq<Item>) {
    |a| == |b| && forall i | 0 <= i < |a| :: a[i].backup == b[i].backup
  }

  /** Some more items are kept, each for the sake of its descendants, and only ones that every closed set has. */
  ghost predicate Extends(before: seq<Item>, items: seq<Item>) {
    && SameBackups(before, items)
    && (forall i | 0 <= i < |items| :: items[i] == before[i] || (!before[i].keep && items[i] == Keep(before[i], "chain")))
    && forall s: set<nat> {:trigger Closed(before, s)} | Closed(before, s) && KeptIn(before, s) :: KeptIn(items, s)
  }

  /** The kept items are the least set that has the items kept before and is closed under parents. */
  ghost predicate IsClosure(before: seq<Item>, after: seq<Item>) {
    Extends(before, after) && Closed(before, KeptSet(after))
  }

  ghost function KeptSet(items: seq<Item>): set<nat> {
    set i: nat | i < |items| && items[i].keep
  }

  lemma ExtendParent(before: seq<Item>, items: seq<Item>, i: nat, p: nat)
    requires Extends(before, items) && i < |items| && items[i].keep && ParentOf(before, i) == Some(p) && !items[p].keep
    ensures Extends(before, items[p := Keep(items[p], "chain")])
  {
    var items' := items[p := Keep(items[p], "chain")];
    forall s: set<nat> | Closed(before, s) && KeptIn(before, s)
      ensures KeptIn(items', s)
    {
      assert KeptIn(items, s) && i in s;
    }
  }

  /** How many items are not kept. */
  function Unkept(items: seq<Item>): nat {
    if |items| == 0 then 0 else (if items[0].keep then 0 else 1) + Unkept(items[1..])
  }

  lemma {:induction false} UnkeptDrops(items: seq<Item>, p: nat, item: Item)
    requires p < |items| && !items[p].keep && item.keep
    ensures Unkept(items[p := item]) == Unkept(items) - 1
    decreases p
  {
    if p > 0 {
      assert items[p := item][1..] == items[1..][p - 1 := item];
      UnkeptDrops(items[1..], p - 1, item);
    } else {
      assert items[p := item][1..] == items[1..];
    }
  }

  method IndexById(a: array<Item>) returns (byId: map<string, nat>)
    ensures byId == ById(a[..], a.Length)
  {
    byId := map[];
    var i := 0;
    while i < a.Length
      invariant 0 <= i <= a.Length && byId == ById(a[..], i)
    {
      if a[i].backup.id != "" {
        byId := byId[a[i].backup.id := i];
      }
      i := i + 1;
    }
  }

  /** One pass: keep the parents of kept items. */
  method ProtectPass(a: array<Item>, byId: map<string, nat>, ghost before: seq<Item>) returns (changed: bool)
    requires byId == ById(before, |before|) && Extends(before, a[..])
    modifies a
    ensures Extends(before, a[..])
    ensures changed ==> Unkept(a[..]) < Unkept(old(a[..]))
    ensures !changed ==> a[..] == old(a[..]) && Closed(before, KeptSet(a[..]))
  {
    changed := false;
    var i := 0;
    while i < a.Length
      invariant 0 <= i <= a.Length && Extends(before, a[..])
      invariant changed ==> Unkept(a[..]) < Unkept(old(a[..]))
      invariant !changed ==> a[..] == old(a[..]) && forall j: nat | j < i && a[j].keep && ParentOf(before, j).Some? :: a[ParentOf(before, j).value].keep
    {
      var parent := a[i].backup.parentId;
      if a[i].keep && parent != "" && parent in byId {
        ByIdPlace(before, |before|, parent);
      }
      if a[i].keep && parent != "" && parent in byId && !a[byId[parent]].keep {
        ghost var items := a[..];
        var p := byId[parent];
        ExtendParent(before, items, i, p);
        UnkeptDrops(items, p, Keep(items[p], "chain"));
        a[p] := Keep(a[p], "chain");
        assert a[..] == items[p := Keep(items[p], "chain")];
        changed := true;
      }
      i := i + 1;
    }
  }

  /** Keep the ancestors of every kept item. */
  method ProtectKeptAncestors(a: array<Item>)
    modifies a
    ensures IsClosure(old(a[..]), a[..])
  {
    ghost var before := a[..];
    var byId := IndexById(a);
    var changed := true;
    while changed
      invariant Extends(before, a[..]) && (!changed ==> Closed(before, KeptSet(a[..])))
      decreases changed, Unkept(a[..])
    {
      changed := ProtectPass(a, byId, before);
    }
  }

  // ---- the plan ----

  predicate AnyRejected(rules: seq<Rule>) {
    exists i :: 0 <= i < |rules| && Rejected(rules[i])
  }

  /** The plan, newest first; None when a rule is refused. */
  method Resolve(backups: seq<Backup>, rules: seq<Rule>, now: int) returns (r: Option<seq<Item>>)
    ensures r.None? <==> AnyRejected(rules)
    ensures r.Some? ==> IsClosure(Ruled(rules, now, Fresh(NewestFirst(backups))), r.value)
  {
    var items := Fresh(NewestFirst(backups));
    var a := new Item[|items|](i requires 0 <= i < |items| => items[i]);
    assert a[..] == items;
    var i := 0;
    assert rules[0..] == rules;
    while i < |rules|
      invariant 0 <= i <= |rules| && Ruled(rules[i..], now, a[..]) == Ruled(rules, now, items)
      invariant forall j | 0 <= j < i :: !Rejected(rules[j])
    {
      assert rules[i..][1..] == rules[i + 1..];
      var ok := Apply(a, rules[i], now);
      if !ok {
        return None;
      }
      i := i + 1;
    }
    ProtectKeptAncestors(a);
    return Some(a[..]);
  }
}
