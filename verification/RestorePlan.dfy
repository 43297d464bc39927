/** The restore planner: follow the parents of a backup to its root, refusing cycles and gaps. */
module RestorePlan {
  import opened Retention

  datatype Request = Request(backupId: string, targetId: string, at: int)

  datatype Step = Step(backupId: string, kind: string, parentId: string, manifestId: string, targetId: string, storageId: string, startedAt: int, endedAt: int)

  /** replay warns that stream backups after the snapshot would be needed. */
  datatype Plan = Plan(backupId: string, targetId: string, storageId: string, at: int, steps: seq<Step>, replay: bool)

  datatype Result = Planned(plan: Plan) | IdRequired | NotFound(id: string) | Cycle(id: string) | ParentMissing(id: string, parentId: string)

  /** The backups by id; the zero id is left out and the last backup with an id has it. */
  function Table(bs: seq<Backup>, n: nat): map<string, Backup>
    requires n <= |bs|
  {
    if n == 0 then map[]
    else if bs[n - 1].id == "" then Table(bs, n - 1)
    else Table(bs, n - 1)[bs[n - 1].id := bs[n - 1]]
  }

  /** Every backup is under its own id. */
  ghost predicate Keyed(table: map<string, Backup>) {
    forall id | id in table :: table[id].id == id && id != ""
  }

  lemma {:induction false} TableKeyed(bs: seq<Backup>, n: nat)
    requires n <= |bs|
    ensures Keyed(Table(bs, n))
  {
    if n > 0 {
      TableKeyed(bs, n - 1);
    }
  }

  /** A backup is in the table under its id unless that is empty, and the last one with an id is the one there. */
  lemma {:induction false} TableLast(bs: seq<Backup>, n: nat, i: nat)
    requires i < n <= |bs| && bs[i].id != "" && forall j | i < j < n :: bs[j].id != bs[i].id
    ensures bs[i].id in Table(bs, n) && Table(bs, n)[bs[i].id] == bs[i] && "" !in Table(bs, n)
    decreases n
  {
    if i < n - 1 {
      TableLast(bs, n - 1, i);
    } else {
      TableKeyed(bs, n - 1);
    }
  }

  lemma {:induction false} TableFrom(bs: seq<Backup>, n: nat, id: string) returns (i: nat)
    requires n <= |bs| && id in Table(bs, n)
    ensures i < n && bs[i].id == id && Table(bs, n)[id] == bs[i] && forall j | i < j < n :: bs[j].id != id
    decreases n
  {
    TableKeyed(bs, n);
    if bs[n - 1].id == id {
      i := n - 1;
    } else {
      i := TableFrom(bs, n - 1, id);
    }
  }

  method MakeTable(bs: seq<Backup>) returns (table: map<string, Backup>)
    ensures table == Table(bs, |bs|)
  {
    table := map[];
    var i := 0;
    while i < |bs|
      invariant i <= |bs| && table == Table(bs, i)
    {
      if bs[i].id != "" {
        table := table[bs[i].id := bs[i]];
      }
      i := i + 1;
    }
  }

  // ---- the walk to the root ----

  datatype Walk = Chain(bs: seq<Backup>) | CycleAt(id: string) | Missing(id: string, parentId: string)

  function Prepend(bs: seq<Backup>, w: Walk): Walk {
    if w.Chain? then Chain(bs + w.bs) else w
  }

  /** The backups from b to its root, not going through seen. */
  function WalkUp(table: map<string, Backup>, b: Backup, seen: set<string>): Walk
    requires Keyed(table) && b.id in table
    decreases |table.Keys - seen|
  {
    if b.id in seen then CycleAt(b.id)
    else if b.parentId == "" then Chain([b])
    else if b.parentId !in table then Missing(b.id, b.parentId)
    else
      Fewer(table.Keys, seen, b.id);
      Prepend([b], WalkUp(table, table[b.parentId], seen + {b.id}))
  }

  lemma Fewer(all: set<string>, seen: set<string>, x: string)
    requires x in all && x !in seen
    ensures |all - (seen + {x})| < |all - seen|
  {
    assert all - seen == (all - (seen + {x})) + {x};
  }

  lemma PrependTwice(a: seq<Backup>, b: seq<Backup>, w: Walk)
    ensures Prepend(a, Prepend(b, w)) == Prepend(a + b, w) && Prepend([], w) == w
  {
    assert w.Chain? ==> a + (b + w.bs) == (a + b) + w.bs && [] + w.bs == w.bs;
  }

  /** From b, each next backup is the parent of the one before, ending at a root; no id comes twice or is in seen. */
  ghost predicate IsChain(table: map<string, Backup>, b: Backup, seen: set<string>, bs: seq<Backup>)
    decreases |bs|
  {
    && |bs| > 0 && bs[0] == b && b.id !in seen
    && if |bs| == 1 then b.parentId == ""
       else b.parentId != "" && b.parentId in table && IsChain(table, table[b.parentId], seen + {b.id}, bs[1..])
  }

  /** The walk succeeds exactly when there is a chain, and then gives that chain. */
  lemma {:induction false} WalkIsChain(table: map<string, Backup>, b: Backup, seen: set<string>, bs: seq<Backup>)
    requires Keyed(table) && b.id in table
    ensures WalkUp(table, b, seen) == Chain(bs) <==> IsChain(table, b, seen, bs)
    decreases |table.Keys - seen|
  {
    if b.id !in seen && b.parentId != "" && b.parentId in table {
      Fewer(table.Keys, seen, b.id);
      var up := table[b.parentId];
      if |bs| > 0 {
        WalkIsChain(table, up, seen + {b.id}, bs[1..]);
        assert bs[0] == b ==> bs == [b] + bs[1..];
      }
      var w := WalkUp(table, up, seen + {b.id});
      if w.Chain? {
        WalkIsChain(table, up, seen + {b.id}, w.bs);
        assert ([b] + w.bs)[1..] == w.bs;
      }
    } else if |bs| == 1 {
      assert bs[0] == b ==> bs == [b];
    }
  }

  /** A chain has no id twice, its links are parents, and it ends at a root. */
  lemma {:induction false} ChainLinks(table: map<string, Backup>, b: Backup, seen: set<string>, bs: seq<Backup>)
    requires Keyed(table) && IsChain(table, b, seen, bs)
    ensures bs[|bs| - 1].parentId == "" && forall i | 0 <= i < |bs| :: bs[i].id !in seen
    ensures forall i | 0 < i < |bs| :: bs[i].id == bs[i - 1].parentId && bs[i].id != ""
    ensures forall i, j | 0 <= i < j < |bs| :: bs[i].id != bs[j].id
    decreases |bs|
  {
    if |bs| > 1 {
      ChainLinks(table, table[b.parentId], seen + {b.id}, bs[1..]);
      assert bs == [b] + bs[1..];
    }
  }

  /** Follow the parents, remembering the ids seen. */
  method FollowParents(table: map<string, Backup>, selected: Backup) returns (r: Walk)
    requires Keyed(table) && selected.id in table
    ensures r == WalkUp(table, selected, {})
  {
    var chain: seq<Backup>, seen: set<string> := [], {};
    var current := selected;
    PrependTwice([], [], WalkUp(table, selected, {}));
    while true
      invariant current.id in table
      invariant WalkUp(table, selected, {}) == Prepend(chain, WalkUp(table, current, seen))
      decreases |table.Keys - seen|
    {
      if current.id in seen {
        return CycleAt(current.id);
      }
      Fewer(table.Keys, seen, current.id);
      if current.parentId == "" {
        return Chain(chain + [current]);
      }
      if current.parentId !in table {
        return Missing(current.id, current.parentId);
      }
      PrependTwice(chain, [current], WalkUp(table, table[current.parentId], seen + {current.id}));
      seen, chain := seen + {current.id}, chain + [current];
      current := table[current.parentId];
    }
  }

  // ---- root first ----

  function Reversed<T>(s: seq<T>): (r: seq<T>)
    ensures |r| == |s| && forall i | 0 <= i < |s| :: r[i] == s[|s| - 1 - i]
  {
    seq(|s|, i requires 0 <= i < |s| => s[|s| - 1 - i])
  }

  method ReverseBackups(a: array<Backup>)
    modifies a
    ensures a[..] == Reversed(old(a[..]))
  {
    var n := a.Length;
    var i, j := 0, n - 1;
    while i < j
      invariant 0 <= i <= n && j == n - 1 - i
      invariant forall k | 0 <= k < i :: a[k] == old(a[n - 1 - k]) && a[n - 1 - k] == old(a[k])
      invariant forall k | i <= k <= j :: a[k] == old(a[k])
    {
      a[i], a[j] := a[j], a[i];
      i, j := i + 1, j - 1;
    }
  }

  function StepOf(b: Backup): Step {
    Step(b.id, b.kind, b.parentId, b.manifestId, b.targetId, b.storageId, b.startedAt, b.endedAt)
  }

  function StepsOf(bs: seq<Backup>): (r: seq<Step>)
    ensures |r| == |bs| && forall i | 0 <= i < |bs| :: r[i] == StepOf(bs[i])
  {
    seq(|bs|, i requires 0 <= i < |bs| => StepOf(bs[i]))
  }

  function PlanOf(selected: Backup, request: Request, bs: seq<Backup>): Plan {
    Plan(selected.id, if request.targetId == "" then selected.targetId else request.targetId, selected.storageId, request.at,
         StepsOf(Reversed(bs)), request.at != ZERO_TIME && request.at > selected.endedAt)
  }

  /** What the planner answers for a table of backups. */
  function Answer(table: map<string, Backup>, request: Request): Result
    requires Keyed(table)
  {
    if request.backupId == "" then IdRequired
    else if request.backupId !in table then NotFound(request.backupId)
    else
      match WalkUp(table, table[request.backupId], {})
      case Chain(bs) => Planned(PlanOf(table[request.backupId], request, bs))
      case CycleAt(id) => Cycle(id)
      case Missing(id, parentId) => ParentMissing(id, parentId)
  }

  method BuildPlan(backups: seq<Backup>, request: Request) returns (r: Result)
    ensures Keyed(Table(backups, |backups|)) && r == Answer(Table(backups, |backups|), request)
  {
    TableKeyed(backups, |backups|);
    if request.backupId == "" {
      return IdRequired;
    }
    var table := MakeTable(backups);
    if request.backupId !in table {
      return NotFound(request.backupId);
    }
    var selected := table[request.backupId];
    var walk := FollowParents(table, selected);
    match walk
    case Chain(bs) =>
      var a := new Backup[|bs|](i requires 0 <= i < |bs| => bs[i]);
      assert a[..] == bs;
      ReverseBackups(a);
      return Planned(Plan(selected.id, if request.targetId == "" then selected.targetId else request.targetId, selected.storageId, request.at,
                          StepsOf(a[..]), request.at != ZERO_TIME && request.at > selected.endedAt));
    case CycleAt(id) => return Cycle(id);
    case Missing(id, parentId) => return ParentMissing(id, parentId);
  }

  /** The backups of a chain are those of the table. */
  lemma {:induction false} ChainInTable(table: map<string, Backup>, b: Backup, seen: set<string>, bs: seq<Backup>, i: nat)
    requires Keyed(table) && IsChain(table, b, seen, bs) && b.id in table && table[b.id] == b && i < |bs|
    ensures bs[i].id in table && table[bs[i].id] == bs[i]
    decreases i
  {
    if i > 0 {
      ChainInTable(table, table[b.parentId], seen + {b.id}, bs[1..], i - 1);
    }
  }

  /** The step is that of the backup with its id: where its manifest is, what it is of, and when it was made. */
  ghost predicate Restores(table: map<string, Backup>, step: Step) {
    && step.backupId in table
    && var b := table[step.backupId];
       && step.manifestId == b.manifestId && step.targetId == b.targetId && step.storageId == b.storageId
       && step.kind == b.kind && step.parentId == b.parentId && step.startedAt == b.startedAt && step.endedAt == b.endedAt
  }

  /** The plan goes to the target asked for, or that of the backup; a time after the end of the backup calls for a replay. */
  ghost predicate Meets(table: map<string, Backup>, request: Request, plan: Plan) {
    && request.backupId in table
    && var b := table[request.backupId];
       && plan.backupId == request.backupId && plan.storageId == b.storageId && plan.at == request.at
       && plan.targetId == (if request.targetId != "" then request.targetId else b.targetId)
       && (plan.replay <==> request.at != ZERO_TIME && b.endedAt < request.at)
  }

  /** A plan lists a chain of distinct backups from a root down to the one asked for. */
  lemma PlanIsChain(table: map<string, Backup>, request: Request)
    requires Keyed(table) && Answer(table, request).Planned?
    ensures var steps := Answer(table, request).plan.steps;
            && |steps| > 0 && steps[0].parentId == "" && steps[|steps| - 1].backupId == request.backupId
            && (forall i | 0 < i < |steps| :: steps[i].parentId == steps[i - 1].backupId)
            && (forall i, j | 0 <= i < j < |steps| :: steps[i].backupId != steps[j].backupId)
  {
    var b := table[request.backupId];
    var bs := WalkUp(table, b, {}).bs;
    WalkIsChain(table, b, {}, bs);
    ChainLinks(table, b, {}, bs);
    var steps := Answer(table, request).plan.steps;
    forall i | 0 < i < |steps|
      ensures steps[i].parentId == steps[i - 1].backupId
    {
      var k := |bs| - i;
      assert bs[k].id == bs[k - 1].parentId;
    }
  }

  /** Its steps are those of the backups of the table, and it meets the request. */
  lemma PlanRestores(table: map<string, Backup>, request: Request)
    requires Keyed(table) && Answer(table, request).Planned?
    ensures var plan := Answer(table, request).plan; Meets(table, request, plan) && forall i | 0 <= i < |plan.steps| :: Restores(table, plan.steps[i])
  {
    var b := table[request.backupId];
    var bs := WalkUp(table, b, {}).bs;
    WalkIsChain(table, b, {}, bs);
    var steps := Answer(table, request).plan.steps;
    forall i | 0 <= i < |steps|
      ensures Restores(table, steps[i])
    {
      ChainInTable(table, b, {}, bs, |bs| - 1 - i);
    }
  }

  /** The parents lead from one backup to another. */
  ghost predicate Climbs(table: map<string, Backup>, b: Backup, c: Backup, n: nat)
    decreases n
  {
    if n == 0 then c == b else b.parentId != "" && b.parentId in table && Climbs(table, table[b.parentId], c, n - 1)
  }

  /** A walk that stops short has met an id it has seen, or a backup whose parent is not there. */
  lemma {:induction false} WalkStops(table: map<string, Backup>, b: Backup, seen: set<string>) returns (c: Backup, n: nat)
    requires Keyed(table) && b.id in table && table[b.id] == b
    ensures Climbs(table, b, c, n) && c.id in table && table[c.id] == c
    ensures match WalkUp(table, b, seen)
            case Chain(_) => c.parentId == ""
            case CycleAt(id) => c.id == id
            case Missing(id, parentId) => c.id == id && c.parentId == parentId && parentId != "" && parentId !in table
    decreases |table.Keys - seen|
  {
    if b.id in seen || b.parentId == "" || b.parentId !in table {
      c, n := b, 0;
    } else {
      Fewer(table.Keys, seen, b.id);
      var m;
      c, m := WalkStops(table, table[b.parentId], seen + {b.id});
      n := m + 1;
    }
  }

  /** A walk meets a seen id only after it came from there: the backup leads back to itself. */
  lemma {:induction false} WalkCycles(table: map<string, Backup>, b: Backup, seen: set<string>) returns (n: nat)
    requires Keyed(table) && b.id in table && table[b.id] == b && WalkUp(table, b, seen).CycleAt? && WalkUp(table, b, seen).id !in seen
    ensures WalkUp(table, b, seen).id in table && n > 0
    ensures Climbs(table, table[WalkUp(table, b, seen).id], table[WalkUp(table, b, seen).id], n)
    decreases |table.Keys - seen|
  {
    var id := WalkUp(table, b, seen).id;
    Fewer(table.Keys, seen, b.id);
    if id != b.id {
      n := WalkCycles(table, table[b.parentId], seen + {b.id});
    } else {
      var c, m := WalkStops(table, table[b.parentId], seen + {b.id});
      n := m + 1;
      assert c == b;
    }
  }

  /**
   * Why there is no plan: no id was given, no backup has it, the parents come back to a backup, which is named,
   * or they come to one whose parent is not there, which is named with it.
   */
  lemma WhyNot(table: map<string, Backup>, request: Request) returns (b: Backup, n: nat, m: nat)
    requires Keyed(table)
    ensures match Answer(table, request)
            case Planned(_) => true
            case IdRequired => request.backupId == ""
            case NotFound(id) => id == request.backupId && id !in table && id != ""
            case Cycle(id) =>
              request.backupId in table && b.id == id && m > 0 && Climbs(table, table[request.backupId], b, n) && Climbs(table, b, b, m)
            case ParentMissing(id, parentId) =>
              && request.backupId in table && b.id == id && Climbs(table, table[request.backupId], b, n)
              && b.parentId == parentId && parentId != "" && parentId !in table
  {
    b, n, m := Backup("", "", "", 0, 0, false, 0, "", "", ""), 0, 0;
    if request.backupId in table {
      b, n := WalkStops(table, table[request.backupId], {});
      if WalkUp(table, table[request.backupId], {}).CycleAt? {
        m := WalkCycles(table, table[request.backupId], {});
      }
    }
  }

  /** There is a plan exactly when the parents of the backup lead to a root without repeating. */
  lemma PlannedIff(table: map<string, Backup>, request: Request)
    requires Keyed(table)
    ensures Answer(table, request).Planned? <==>
      request.backupId in table && exists bs: seq<Backup> :: IsChain(table, table[request.backupId], {}, bs)
  {
    if request.backupId in table {
      var w := WalkUp(table, table[request.backupId], {});
      if w.Chain? {
        WalkIsChain(table, table[request.backupId], {}, w.bs);
      }
      forall bs: seq<Backup> | IsChain(table, table[request.backupId], {}, bs)
        ensures w == Chain(bs)
      {
        WalkIsChain(table, table[request.backupId], {}, bs);
      }
    }
  }
}
