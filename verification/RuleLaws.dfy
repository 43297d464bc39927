/** What each retention rule selects, in terms of the list of backups alone. */
module RuleLaws {
  import opened Calendar
  import opened Retention
  import Cron

  /** What a scan remembers when it comes to item i. */
  ghost function MemoryAt(rule: Rule, now: int, items: seq<Item>, i: nat): Memory
    requires i <= |items|
  {
    if i == 0 then BLANK else Remember(rule, now, MemoryAt(rule, now, items, i - 1), items[i - 1].backup)
  }

  ghost function ReasonsAt(rule: Rule, now: int, items: seq<Item>, i: nat): seq<string>
    requires i < |items|
  {
    Reasons(rule, now, MemoryAt(rule, now, items, i), items[i].backup)
  }

  /** The scan of the items from k on. */
  ghost function ScanFrom(rule: Rule, now: int, items: seq<Item>, k: nat): (r: seq<Item>)
    requires k <= |items|
    ensures |r| == |items| - k
  {
    Scan(rule, now, MemoryAt(rule, now, items, k), items[k..])
  }

  /** It is item k with the reasons of its place, then the scan from k + 1 on. */
  lemma ScanHead(rule: Rule, now: int, items: seq<Item>, k: nat)
    requires k < |items|
    ensures ScanFrom(rule, now, items, k) == [KeepFor(items[k], ReasonsAt(rule, now, items, k))] + ScanFrom(rule, now, items, k + 1)
  {
    assert items[k..][1..] == items[k + 1..];
  }

  lemma ScanTail(rule: Rule, now: int, items: seq<Item>, k: nat)
    requires k < |items|
    ensures ScanFrom(rule, now, items, k)[1..] == ScanFrom(rule, now, items, k + 1)
  {
    ScanHead(rule, now, items, k);
  }

  lemma {:induction false} ScanSuffix(rule: Rule, now: int, items: seq<Item>, i: nat)
    requires i <= |items|
    ensures ScanFrom(rule, now, items, 0)[i..] == ScanFrom(rule, now, items, i)
  {
    if i > 0 {
      ScanSuffix(rule, now, items, i - 1);
      ScanTail(rule, now, items, i - 1);
      DropOne(ScanFrom(rule, now, items, 0), i);
    }
  }

  lemma DropOne(s: seq<Item>, i: nat)
    requires 0 < i <= |s|
    ensures s[i..] == s[i - 1..][1..]
  {
  }

  /** Each item gets the reasons of its place in the scan and nothing else changes. */
  lemma ScanAt(rule: Rule, now: int, items: seq<Item>, i: nat)
    requires i < |items|
    ensures Scan(rule, now, BLANK, items)[i] == KeepFor(items[i], ReasonsAt(rule, now, items, i))
  {
    ScanSuffix(rule, now, items, i);
    ScanHead(rule, now, items, i);
    ScanFirst(rule, now, items, i);
  }

  lemma ScanFirst(rule: Rule, now: int, items: seq<Item>, i: nat)
    requires i < |items|
    ensures Scan(rule, now, BLANK, items)[i] == ScanFrom(rule, now, items, 0)[i..][0]
  {
    assert items[0..] == items;
  }

  // ---- refused rules ----

  /** The numbers of a rule. */
  function Amounts(rule: Rule): seq<int> {
    match rule
    case Count(n, _) => [n]
    case Time(duration) => [duration]
    case Size(maxBytes) => [maxBytes]
    case Gfs(daily, weekly, monthly, yearly) => [daily, weekly, monthly, yearly]
    case Unsupported => []
  }

  /** A rule is refused if it is of no known kind or has a negative number; zeros are accepted and select nothing by count or period. */
  lemma RefusedIff(rule: Rule, now: int, items: seq<Item>, i: nat)
    requires i < |items|
    ensures Rejected(rule) <==> rule.Unsupported? || exists k :: 0 <= k < |Amounts(rule)| && Amounts(rule)[k] < 0
    ensures (rule.Count? || rule.Gfs?) && (forall k | 0 <= k < |Amounts(rule)| :: Amounts(rule)[k] == 0) ==>
      !Rejected(rule) && ReasonsAt(rule, now, items, i) == []
  {
    match rule
    case Count(n, _) => assert Amounts(rule)[0] == n;
    case Time(duration) => assert Amounts(rule)[0] == duration;
    case Size(maxBytes) => assert Amounts(rule)[0] == maxBytes;
    case Gfs(daily, weekly, monthly, yearly) =>
      assert Amounts(rule)[0] == daily && Amounts(rule)[1] == weekly && Amounts(rule)[2] == monthly && Amounts(rule)[3] == yearly;
    case Unsupported =>
  }

  // ---- count ----

  predicate OfKind(b: Backup, kind: string) {
    kind == "" || b.kind == kind
  }

  /** How many of the first i items are of the kind. */
  ghost function NumberOf(items: seq<Item>, kind: string, i: nat): nat
    requires i <= |items|
  {
    if i == 0 then 0 else NumberOf(items, kind, i - 1) + if OfKind(items[i - 1].backup, kind) then 1 else 0
  }

  lemma {:induction false} CountMemory(n: nat, kind: string, now: int, items: seq<Item>, i: nat)
    requires i <= |items|
    ensures MemoryAt(Count(n, kind), now, items, i).kept == if NumberOf(items, kind, i) < n then NumberOf(items, kind, i) else n
    decreases i
  {
    if i > 0 {
      CountMemory(n, kind, now, items, i - 1);
    }
  }

  /** The count rule selects the n newest backups of its kind. */
  lemma CountSelects(n: nat, kind: string, now: int, items: seq<Item>, i: nat)
    requires i < |items|
    ensures ReasonsAt(Count(n, kind), now, items, i) == if OfKind(items[i].backup, kind) && NumberOf(items, kind, i) < n then ["count"] else []
  {
    CountMemory(n, kind, now, items, i);
  }

  // ---- time ----

  /** How long ago the backup ended, or started when it has no end. */
  function Age(now: int, b: Backup): int {
    if b.endedAt == ZERO_TIME then now - b.startedAt else now - b.endedAt
  }

  /** The time rule selects the backups that are no older than the duration. */
  lemma TimeSelects(duration: int, now: int, items: seq<Item>, i: nat)
    requires i < |items|
    ensures ReasonsAt(Time(duration), now, items, i) == if Age(now, items[i].backup) <= duration then ["time"] else []
  {
  }

  /** No backup of the list is newer than the one before it. */
  ghost predicate Aging(now: int, items: seq<Item>) {
    forall i, j | 0 <= i < j < |items| :: Age(now, items[i].backup) <= Age(now, items[j].backup)
  }

  ghost predicate TimeKeeps(duration: int, now: int, items: seq<Item>, i: nat)
    requires i < |items|
  {
    ReasonsAt(Time(duration), now, items, i) == ["time"]
  }

  /** Over a list that is newest first it selects a prefix: the first n items and no other. */
  lemma TimePrefix(duration: int, now: int, items: seq<Item>) returns (n: nat)
    requires Aging(now, items)
    ensures n <= |items| && forall i: nat | i < |items| :: TimeKeeps(duration, now, items, i) <==> i < n
  {
    n := 0;
    while n < |items| && Age(now, items[n].backup) <= duration
      invariant n <= |items| && forall i: nat | i < n :: Age(now, items[i].backup) <= duration
    {
      n := n + 1;
    }
    forall i: nat | i < |items|
      ensures TimeKeeps(duration, now, items, i) <==> i < n
    {
      TimeSelects(duration, now, items, i);
    }
  }

  /** After its scan an item is kept if it was before, or is not too old. */
  lemma TimeKept(duration: int, now: int, items: seq<Item>, i: nat)
    requires i < |items|
    ensures Scan(Time(duration), now, BLANK, items)[i].keep <==> items[i].keep || Age(now, items[i].backup) <= duration
  {
    ScanAt(Time(duration), now, items, i);
    TimeSelects(duration, now, items, i);
  }

  /** A longer duration selects at least as much, and the same backups later on at most as much. */
  lemma TimeGrows(duration: int, more: int, now: int, later: int, items: seq<Item>, i: nat)
    requires i < |items| && duration <= more && now <= later
    ensures TimeKeeps(duration, now, items, i) ==> TimeKeeps(more, now, items, i)
    ensures TimeKeeps(duration, later, items, i) ==> TimeKeeps(duration, now, items, i)
  {
    TimeSelects(duration, now, items, i);
    TimeSelects(duration, later, items, i);
    TimeSelects(more, now, items, i);
  }

  // ---- size ----

  const MAX_INT64 := 0x7fff_ffff_ffff_ffff

  /** The size of the backups the rule selects among the first i. */
  ghost function SelectedSize(maxBytes: int, items: seq<Item>, i: nat): int
    requires i <= |items|
  {
    if i == 0 then 0
    else
      var before, b := SelectedSize(maxBytes, items, i - 1), items[i - 1].backup;
      if !b.guarded && before + b.sizeBytes <= maxBytes then before + b.sizeBytes else before
  }

  lemma WrapInRange(x: int)
    requires 0 <= x <= MAX_INT64
    ensures Wrap(x) == x
  {
  }

  lemma WrapOver(x: int)
    requires MAX_INT64 < x <= 2 * MAX_INT64
    ensures Wrap(x) < 0
  {
  }

  /** The limit and the sizes are 64-bit numbers, none negative. */
  ghost predicate InRange(maxBytes: int, items: seq<Item>) {
    0 <= maxBytes <= MAX_INT64 && forall i | 0 <= i < |items| :: 0 <= items[i].backup.sizeBytes <= MAX_INT64
  }

  /** Adding the item to the backups selected before it does not overflow. */
  ghost predicate FitsWord(maxBytes: int, items: seq<Item>, i: nat)
    requires i < |items|
  {
    !items[i].backup.guarded ==> SelectedSize(maxBytes, items, i) + items[i].backup.sizeBytes <= MAX_INT64
  }

  ghost predicate NoOverflow(maxBytes: int, items: seq<Item>, n: nat)
    requires n <= |items|
  {
    forall i: nat {:trigger FitsWord(maxBytes, items, i)} | i < n :: FitsWord(maxBytes, items, i)
  }

  /** The size of what the rule really keeps among the first n. */
  ghost function KeptSize(maxBytes: int, now: int, items: seq<Item>, n: nat): int
    requires n <= |items|
  {
    if n == 0 then 0
    else KeptSize(maxBytes, now, items, n - 1) + if ReasonsAt(Size(maxBytes), now, items, n - 1) == ["size"] then items[n - 1].backup.sizeBytes else 0
  }

  /** As long as no sum overflows the scan's total is the size selected, within the limit. */
  lemma {:induction false} SizeMemory(maxBytes: int, now: int, items: seq<Item>, n: nat)
    requires n <= |items| && InRange(maxBytes, items) && NoOverflow(maxBytes, items, n)
    ensures MemoryAt(Size(maxBytes), now, items, n).total == SelectedSize(maxBytes, items, n) == KeptSize(maxBytes, now, items, n)
    ensures 0 <= SelectedSize(maxBytes, items, n) <= maxBytes
    decreases n
  {
    if n > 0 {
      SizeMemory(maxBytes, now, items, n - 1);
      assert FitsWord(maxBytes, items, n - 1);
      SizeRule(maxBytes, now, MemoryAt(Size(maxBytes), now, items, n - 1), items[n - 1].backup);
    }
  }

  /** What the rule makes of one backup, when the sum is in range. */
  lemma SizeRule(maxBytes: int, now: int, m: Memory, b: Backup)
    requires !b.guarded ==> 0 <= m.total + b.sizeBytes <= MAX_INT64
    ensures var taken := !b.guarded && m.total + b.sizeBytes <= maxBytes;
            && Remember(Size(maxBytes), now, m, b).total == m.total + (if taken then b.sizeBytes else 0)
            && (Reasons(Size(maxBytes), now, m, b) == ["size"] <==> taken)
  {
    if !b.guarded {
      WrapInRange(m.total + b.sizeBytes);
    }
  }

  /** The rule selects the item because it fits next to those selected before it. */
  ghost predicate Greedy(maxBytes: int, now: int, items: seq<Item>, i: nat)
    requires i < |items|
  {
    ReasonsAt(Size(maxBytes), now, items, i) ==
      if !items[i].backup.guarded && SelectedSize(maxBytes, items, i) + items[i].backup.sizeBytes <= maxBytes then ["size"] else []
  }

  lemma GreedyUntilOverflow(maxBytes: int, now: int, items: seq<Item>, i: nat)
    requires i < |items| && InRange(maxBytes, items) && NoOverflow(maxBytes, items, i)
    ensures Greedy(maxBytes, now, items, i) <==> FitsWord(maxBytes, items, i)
    ensures !FitsWord(maxBytes, items, i) ==> KeptSize(maxBytes, now, items, i + 1) > MAX_INT64
  {
    SizeMemory(maxBytes, now, items, i);
    if !items[i].backup.guarded {
      var sum := SelectedSize(maxBytes, items, i) + items[i].backup.sizeBytes;
      if sum > MAX_INT64 {
        WrapOver(sum);
      } else {
        WrapInRange(sum);
      }
    }
  }

  /** The first item whose sum overflows, if there is one. */
  lemma {:induction false} FirstOverflow(maxBytes: int, items: seq<Item>, n: nat) returns (i: nat)
    requires n <= |items| && !NoOverflow(maxBytes, items, n)
    ensures i < n && NoOverflow(maxBytes, items, i) && !FitsWord(maxBytes, items, i)
    decreases n
  {
    if NoOverflow(maxBytes, items, n - 1) {
      i := n - 1;
    } else {
      i := FirstOverflow(maxBytes, items, n - 1);
    }
  }

  lemma {:induction false} KeptGrows(maxBytes: int, now: int, items: seq<Item>, i: nat, n: nat)
    requires i <= n <= |items| && InRange(maxBytes, items)
    ensures KeptSize(maxBytes, now, items, i) <= KeptSize(maxBytes, now, items, n)
    decreases n
  {
    if i < n {
      KeptGrows(maxBytes, now, items, i, n - 1);
    }
  }

  /**
   * What the size rule keeps among the first n backups is within its limit if and only if no 64-bit
   * sum of the scan overflows: the code adds before it compares, and an overflowing sum is negative.
   */
  lemma SizeWithinLimit(maxBytes: int, now: int, items: seq<Item>, n: nat)
    requires n <= |items| && InRange(maxBytes, items)
    ensures KeptSize(maxBytes, now, items, n) <= maxBytes <==> NoOverflow(maxBytes, items, n)
  {
    if NoOverflow(maxBytes, items, n) {
      SizeMemory(maxBytes, now, items, n);
    } else {
      var i := FirstOverflow(maxBytes, items, n);
      GreedyUntilOverflow(maxBytes, now, items, i);
      KeptGrows(maxBytes, now, items, i + 1, n);
    }
  }

  /** And under the same condition, only then, it selects greedily: each backup that still fits. */
  lemma SizeSelects(maxBytes: int, now: int, items: seq<Item>, n: nat)
    requires n <= |items| && InRange(maxBytes, items)
    ensures (forall i: nat {:trigger Greedy(maxBytes, now, items, i)} | i < n :: Greedy(maxBytes, now, items, i)) <==> NoOverflow(maxBytes, items, n)
  {
    if NoOverflow(maxBytes, items, n) {
      forall i: nat | i < n
        ensures Greedy(maxBytes, now, items, i)
      {
        assert FitsWord(maxBytes, items, i);
        GreedyUntilOverflow(maxBytes, now, items, i);
      }
    } else {
      var i := FirstOverflow(maxBytes, items, n);
      GreedyUntilOverflow(maxBytes, now, items, i);
    }
  }

  /** A backup of the given size and nothing else to it. */
  function Sized(sizeBytes: int): Item {
    Item(Backup("", "", "full", 0, 0, false, sizeBytes, "", "", ""), false, [])
  }

  /** It does exceed its limit: sizes 5 and 2^63 - 1 are both kept under a limit of 10. */
  lemma LimitExceeded(now: int)
    ensures var items := [Sized(5), Sized(MAX_INT64)];
            InRange(10, items) && !NoOverflow(10, items, 2) && KeptSize(10, now, items, 2) > 10
  {
    var items := [Sized(5), Sized(MAX_INT64)];
    assert SelectedSize(10, items, 0) == 0 && SelectedSize(10, items, 1) == 5;
    assert !FitsWord(10, items, 1);
    SizeWithinLimit(10, now, items, 2);
  }

  // ---- grandfather-father-son ----

  /** The keys of the first i items. */
  ghost function KeysOf(key: Backup -> int, items: seq<Item>, i: nat): set<int>
    requires i <= |items|
  {
    if i == 0 then {} else KeysOf(key, items, i - 1) + {key(items[i - 1].backup)}
  }

  /** The periods a scan has taken in when it comes to item i. */
  ghost function SeenAt(quota: int, key: Backup -> int, items: seq<Item>, i: nat): set<int>
    requires i <= |items|
  {
    if i == 0 then {}
    else
      var seen, k := SeenAt(quota, key, items, i - 1), key(items[i - 1].backup);
      if Takes(quota, seen, k) then seen + {k} else seen
  }

  lemma {:induction false} SeenIsFirst(quota: nat, key: Backup -> int, items: seq<Item>, i: nat)
    requires i <= |items|
    ensures var seen, keys := SeenAt(quota, key, items, i), KeysOf(key, items, i);
            if |keys| <= quota then seen == keys else |seen| == quota
    decreases i
  {
    if i > 0 {
      SeenIsFirst(quota, key, items, i - 1);
      var keys, k := KeysOf(key, items, i - 1), key(items[i - 1].backup);
      assert k in keys ==> keys + {k} == keys;
    }
  }

  /** A period is taken in by its newest backup, for the first quota periods. */
  lemma PeriodTakes(quota: nat, key: Backup -> int, items: seq<Item>, i: nat)
    requires i < |items|
    ensures Takes(quota, SeenAt(quota, key, items, i), key(items[i].backup)) <==>
      key(items[i].backup) !in KeysOf(key, items, i) && |KeysOf(key, items, i)| < quota
  {
    SeenIsFirst(quota, key, items, i);
  }

  /** Each of the four periods is remembered on its own. */
  lemma {:induction false} GfsMemory(d: int, w: int, mo: int, y: int, now: int, items: seq<Item>, i: nat)
    requires i <= |items|
    ensures var m := MemoryAt(Gfs(d, w, mo, y), now, items, i);
            && m.days == SeenAt(d, DayKey, items, i) && m.weeks == SeenAt(w, WeekKey, items, i)
            && m.months == SeenAt(mo, MonthKey, items, i) && m.years == SeenAt(y, YearKey, items, i)
    decreases i
  {
    if i > 0 {
      GfsMemory(d, w, mo, y, now, items, i - 1);
    }
  }

  /** The Monday of the week of a day. */
  function Monday(day: int): int {
    day - (Weekday(day) + 6) % 7
  }

  /**
   * What the keys of the periods stand for: the day of the instant, the week from Monday to Sunday, the month
   * and the year of the calendar.
   */
  lemma PeriodKeys(b: Backup, c: Backup, year: int)
    ensures DAY * Cron.NANOS * DayKey(b) <= BackupTime(b) < DAY * Cron.NANOS * (DayKey(b) + 1)
    ensures WeekKey(b) == WeekKey(c) <==> Monday(DayKey(b)) == Monday(DayKey(c))
    ensures MonthStart(MonthKey(b)) <= DayKey(b) < MonthStart(MonthKey(b) + 1)
    ensures YearKey(b) == year <==> MonthStart(12 * year) <= DayKey(b) < MonthStart(12 * (year + 1))
  {
    SameWeek(DayKey(b), DayKey(c));
    InYear(DayKey(b), year);
    WholeDays(BackupTime(b));
  }

  lemma WholeDays(t: int)
    ensures DAY * Cron.NANOS * DayOf(t / Cron.NANOS) <= t < DAY * Cron.NANOS * (DayOf(t / Cron.NANOS) + 1)
  {
    var s := t / Cron.NANOS;
    assert Cron.NANOS * s <= t < Cron.NANOS * (s + 1);
    assert DAY * DayOf(s) <= s && s + 1 <= DAY * (DayOf(s) + 1);
  }

  lemma SameWeek(d: int, e: int)
    ensures (d + 3) / 7 == (e + 3) / 7 <==> Monday(d) == Monday(e)
  {
    WeekOf(d);
    WeekOf(e);
  }

  lemma WeekOf(d: int)
    ensures Monday(d) == 7 * ((d + 3) / 7) - 3
  {
  }

  lemma InYear(day: int, year: int)
    ensures MonthOf(day) / 12 == year <==> MonthStart(12 * year) <= day < MonthStart(12 * (year + 1))
  {
    var k := MonthOf(day);
    if 12 * year <= k {
      MonthsAscend(12 * year, k);
    } else {
      MonthsAscend(k + 1, 12 * year);
    }
    if 12 * (year + 1) <= k {
      MonthsAscend(12 * (year + 1), k);
    } else {
      MonthsAscend(k + 1, 12 * (year + 1));
    }
  }

  /** The item is the newest of its period, and fewer than quota periods are newer. */
  ghost predicate Leads(quota: int, key: Backup -> int, items: seq<Item>, i: nat)
    requires i < |items|
  {
    key(items[i].backup) !in KeysOf(key, items, i) && |KeysOf(key, items, i)| < quota
  }

  /** The rule selects the newest backup of each of the latest days, weeks, months and years. */
  lemma GfsSelects(d: nat, w: nat, mo: nat, y: nat, now: int, items: seq<Item>, i: nat)
    requires i < |items|
    ensures ReasonsAt(Gfs(d, w, mo, y), now, items, i) ==
      (if Leads(d, DayKey, items, i) then ["gfs:daily"] else []) +
      (if Leads(w, WeekKey, items, i) then ["gfs:weekly"] else []) +
      (if Leads(mo, MonthKey, items, i) then ["gfs:monthly"] else []) +
      (if Leads(y, YearKey, items, i) then ["gfs:yearly"] else [])
  {
    GfsMemory(d, w, mo, y, now, items, i);
    PeriodTakes(d, DayKey, items, i);
    PeriodTakes(w, WeekKey, items, i);
    PeriodTakes(mo, MonthKey, items, i);
    PeriodTakes(y, YearKey, items, i);
  }

  // ---- all the rules together ----

  /** What a rule selects does not depend on what is kept already. */
  lemma {:induction false} MemorySame(rule: Rule, now: int, items: seq<Item>, other: seq<Item>, i: nat)
    requires SameBackups(items, other) && i <= |items|
    ensures MemoryAt(rule, now, items, i) == MemoryAt(rule, now, other, i)
  {
    if i > 0 {
      MemorySame(rule, now, items, other, i - 1);
    }
  }

  ghost predicate Selects(rule: Rule, now: int, items: seq<Item>, i: nat)
    requires i < |items|
  {
    |ReasonsAt(rule, now, items, i)| > 0
  }

  lemma ScanKeeps(rule: Rule, now: int, items: seq<Item>, i: nat)
    requires i < |items|
    ensures var after := Scan(rule, now, BLANK, items); after[i].backup == items[i].backup && (after[i].keep <==> items[i].keep || Selects(rule, now, items, i))
  {
    ScanAt(rule, now, items, i);
  }

  lemma ScanSame(rule: Rule, now: int, items: seq<Item>)
    ensures SameBackups(items, Scan(rule, now, BLANK, items))
  {
    forall i | 0 <= i < |items|
      ensures Scan(rule, now, BLANK, items)[i].backup == items[i].backup
    {
      ScanKeeps(rule, now, items, i);
    }
  }

  /** The rules keep what was kept, and what some rule selects on its own; the order of the rules does not matter. */
  lemma {:induction false} RuledKeeps(rules: seq<Rule>, now: int, items: seq<Item>, i: nat)
    requires i < |items|
    ensures SameBackups(items, Ruled(rules, now, items))
    ensures Ruled(rules, now, items)[i].keep <==> items[i].keep || exists k :: 0 <= k < |rules| && Selects(rules[k], now, items, i)
    decreases |rules|
  {
    if |rules| > 0 {
      var after := Scan(rules[0], now, BLANK, items);
      ScanSame(rules[0], now, items);
      ScanKeeps(rules[0], now, items, i);
      RuledKeeps(rules[1..], now, after, i);
      forall rule: Rule
        ensures Selects(rule, now, after, i) <==> Selects(rule, now, items, i)
      {
        MemorySame(rule, now, items, after, i);
      }
      assert forall k | 0 < k < |rules| :: rules[k] == rules[1..][k - 1];
      assert forall k | 0 <= k < |rules| - 1 :: rules[1..][k] == rules[k + 1];
    }
  }

  /** A plan keeps every protected backup, and every backup that some rule selects. */
  lemma PlanKeeps(rules: seq<Rule>, now: int, bs: seq<Backup>, plan: seq<Item>, i: nat)
    requires IsClosure(Ruled(rules, now, Fresh(bs)), plan) && i < |bs|
    ensures |plan| == |bs| && plan[i].backup == bs[i]
    ensures bs[i].guarded || (exists k :: 0 <= k < |rules| && Selects(rules[k], now, Fresh(bs), i)) ==> plan[i].keep
  {
    RuledKeeps(rules, now, Fresh(bs), i);
  }

  // ---- reasons ----

  ghost predicate Once(reasons: seq<string>) {
    forall i, j | 0 <= i < j < |reasons| :: reasons[i] != reasons[j]
  }

  /** An item gets the reasons it is kept for, each once. */
  lemma {:induction false} KeepForOnce(item: Item, reasons: seq<string>)
    requires Once(item.reasons)
    ensures Once(KeepFor(item, reasons).reasons)
    ensures forall x: string :: x in KeepFor(item, reasons).reasons <==> x in item.reasons || x in reasons
    decreases |reasons|
  {
    if |reasons| > 0 {
      KeepForOnce(Keep(item, reasons[0]), reasons[1..]);
      assert reasons == [reasons[0]] + reasons[1..];
    }
  }

  ghost predicate AllOnce(items: seq<Item>) {
    forall i | 0 <= i < |items| :: Once(items[i].reasons)
  }

  lemma ScanOnce(rule: Rule, now: int, items: seq<Item>)
    requires AllOnce(items)
    ensures AllOnce(Scan(rule, now, BLANK, items))
  {
    forall i | 0 <= i < |items|
      ensures Once(Scan(rule, now, BLANK, items)[i].reasons)
    {
      ScanAt(rule, now, items, i);
      KeepForOnce(items[i], ReasonsAt(rule, now, items, i));
    }
  }

  lemma {:induction false} RuledOnce(rules: seq<Rule>, now: int, items: seq<Item>)
    requires AllOnce(items)
    ensures AllOnce(Ruled(rules, now, items))
    decreases |rules|
  {
    if |rules| > 0 {
      ScanOnce(rules[0], now, items);
      RuledOnce(rules[1..], now, Scan(rules[0], now, BLANK, items));
    }
  }

  /** No item of a plan has a reason twice. */
  lemma PlanReasons(rules: seq<Rule>, now: int, bs: seq<Backup>, plan: seq<Item>)
    requires IsClosure(Ruled(rules, now, Fresh(bs)), plan)
    ensures AllOnce(plan)
  {
    var ruled := Ruled(rules, now, Fresh(bs));
    RuledOnce(rules, now, Fresh(bs));
    forall i | 0 <= i < |plan|
      ensures Once(plan[i].reasons)
    {
      assert Once(ruled[i].reasons);
    }
  }
}
