/** Counting over a row of queues, and moving one element from a queue to the next. */
module Queues {
  import opened Seqs

  /** How many elements satisfy f. */
  ghost function Occ<T>(s: seq<T>, f: T -> bool): nat {
    if |s| == 0 then 0 else (if f(s[0]) then 1 else 0) + Occ(s[1..], f)
  }

  ghost function Count<T>(q: seq<seq<T>>, f: T -> bool): nat {
    if |q| == 0 then 0 else Occ(q[0], f) + Count(q[1..], f)
  }

  function Without<T>(s: seq<T>, j: nat): (r: seq<T>)
    requires j < |s|
    ensures |r| == |s| - 1
  {
    s[..j] + s[j + 1..]
  }

  /** Take element j out of queue k and put t at the end of queue k + 1. */
  function Move<T>(q: seq<seq<T>>, k: nat, j: nat, t: T): (r: seq<seq<T>>)
    requires k + 1 < |q| && j < |q[k]|
    ensures |r| == |q|
  {
    q[k := Without(q[k], j)][k + 1 := q[k + 1] + [t]]
  }

  lemma {:induction false} OccJoin<T>(a: seq<T>, b: seq<T>, f: T -> bool)
    ensures Occ(a + b, f) == Occ(a, f) + Occ(b, f)
  {
    if |a| == 0 {
      assert a + b == b;
    } else {
      assert (a + b)[1..] == a[1..] + b;
      OccJoin(a[1..], b, f);
    }
  }

  lemma OccOne<T>(t: T, f: T -> bool)
    ensures Occ([t], f) == if f(t) then 1 else 0
  {
    assert [t][1..] == [];
  }

  lemma OccWithout<T>(s: seq<T>, j: nat, f: T -> bool)
    requires j < |s|
    ensures Occ(s, f) == Occ(Without(s, j), f) + if f(s[j]) then 1 else 0
  {
    SplitAt(s, j);
    OccJoin(s[..j], [s[j]] + s[j + 1..], f);
    OccJoin([s[j]], s[j + 1..], f);
    OccOne(s[j], f);
    OccJoin(s[..j], s[j + 1..], f);
  }

  lemma OccAppend<T>(s: seq<T>, t: T, f: T -> bool)
    ensures Occ(s + [t], f) == Occ(s, f) + if f(t) then 1 else 0
  {
    OccJoin(s, [t], f);
    OccOne(t, f);
  }

  lemma {:induction false} CountUpdate<T>(q: seq<seq<T>>, k: nat, s: seq<T>, f: T -> bool)
    requires k < |q|
    ensures Count(q[k := s], f) == Count(q, f) - Occ(q[k], f) + Occ(s, f)
    decreases k
  {
    if k == 0 {
      assert q[0 := s][1..] == q[1..];
    } else {
      assert q[k := s][1..] == q[1..][k - 1 := s];
      CountUpdate(q[1..], k - 1, s, f);
    }
  }

  /** Moving an element changes a count only by what it does to the element. */
  lemma CountMove<T>(q: seq<seq<T>>, k: nat, j: nat, t: T, f: T -> bool)
    requires k + 1 < |q| && j < |q[k]|
    ensures Count(Move(q, k, j, t), f) == Count(q, f) - (if f(q[k][j]) then 1 else 0) + (if f(t) then 1 else 0)
  {
    OccWithout(q[k], j, f);
    OccAppend(q[k + 1], t, f);
    CountUpdate(q, k, Without(q[k], j), f);
    CountUpdate(q[k := Without(q[k], j)], k + 1, q[k + 1] + [t], f);
  }

  /** A move that starts at or after queue lo, seen from lo. */
  lemma MoveInside<T>(q: seq<seq<T>>, lo: nat, k: nat, j: nat, t: T)
    requires lo <= k && k + 1 < |q| && j < |q[k]|
    ensures Move(q, k, j, t)[lo..] == Move(q[lo..], k - lo, j, t)
  {
  }

  /** A move into queue lo, seen from lo. */
  lemma MoveInto<T>(q: seq<seq<T>>, lo: nat, j: nat, t: T, f: T -> bool)
    requires 0 < lo < |q| && j < |q[lo - 1]|
    ensures Count(Move(q, lo - 1, j, t)[lo..], f) == Count(q[lo..], f) + if f(t) then 1 else 0
  {
    assert Move(q, lo - 1, j, t)[lo..] == q[lo..][0 := q[lo] + [t]];
    CountUpdate(q[lo..], 0, q[lo] + [t], f);
    OccAppend(q[lo], t, f);
  }

  /** A move before queue lo is not seen from lo. */
  lemma MoveBefore<T>(q: seq<seq<T>>, lo: nat, k: nat, j: nat, t: T)
    requires k + 1 < lo <= |q| && j < |q[k]|
    ensures Move(q, k, j, t)[lo..] == q[lo..]
  {
  }

  /** How a move changes the count from queue lo on. */
  lemma CountFrom<T>(q: seq<seq<T>>, lo: nat, k: nat, j: nat, t: T, f: T -> bool)
    requires lo < |q| && k + 1 < |q| && j < |q[k]|
    ensures Count(Move(q, k, j, t)[lo..], f) ==
      Count(q[lo..], f) - (if lo <= k && f(q[k][j]) then 1 else 0) + (if lo <= k + 1 && f(t) then 1 else 0)
  {
    if lo <= k {
      MoveInside(q, lo, k, j, t);
      CountMove(q[lo..], k - lo, j, t, f);
    } else if lo == k + 1 {
      MoveInto(q, lo, j, t, f);
    } else {
      MoveBefore(q, lo, k, j, t);
    }
  }

  /** With every queue but the last empty, counting is counting in the last one. */
  lemma {:induction false} CountLast<T>(q: seq<seq<T>>, f: T -> bool)
    requires |q| > 0 && forall p | 0 <= p < |q| - 1 :: |q[p]| == 0
    ensures Count(q, f) == Occ(q[|q| - 1], f)
  {
    if |q| > 1 {
      CountLast(q[1..], f);
    } else {
      assert q[1..] == [];
    }
  }

  lemma {:induction false} OccFound<T>(s: seq<T>, f: T -> bool) returns (j: nat)
    requires Occ(s, f) > 0
    ensures j < |s| && f(s[j])
  {
    if f(s[0]) {
      j := 0;
    } else {
      j := OccFound(s[1..], f);
      j := j + 1;
    }
  }

  lemma OccMember<T>(s: seq<T>, j: nat, f: T -> bool)
    requires j < |s| && f(s[j])
    ensures Occ(s, f) > 0
  {
    OccWithout(s, j, f);
  }

  lemma {:induction false} CountAtLeast<T>(q: seq<seq<T>>, k: nat, f: T -> bool)
    requires k < |q|
    ensures Count(q, f) >= Occ(q[k], f)
    decreases k
  {
    if k > 0 {
      CountAtLeast(q[1..], k - 1, f);
    }
  }

  /** Elements of two queues count twice. */
  lemma CountTwo<T>(q: seq<seq<T>>, a: nat, i: nat, b: nat, j: nat, f: T -> bool)
    requires a < b < |q| && i < |q[a]| && j < |q[b]| && f(q[a][i]) && f(q[b][j])
    ensures Count(q, f) >= 2
  {
    CountUpdate(q, a, [], f);
    CountAtLeast(q[a := []], b, f);
    OccMember(q[a], i, f);
    OccMember(q[b], j, f);
  }

  /** A property of every element of every queue, which may depend on the queue. */
  ghost predicate Everywhere<T>(q: seq<seq<T>>, holds: (nat, T) -> bool) {
    forall p: nat, j: nat {:trigger q[p][j]} | p < |q| && j < |q[p]| :: holds(p, q[p][j])
  }

  lemma EverywhereMove<T>(q: seq<seq<T>>, k: nat, j: nat, t: T, holds: (nat, T) -> bool)
    requires Everywhere(q, holds) && k + 1 < |q| && j < |q[k]| && holds(k + 1, t)
    ensures Everywhere(Move(q, k, j, t), holds)
  {
    var q' := Move(q, k, j, t);
    forall p: nat, i: nat | p < |q'| && i < |q'[p]|
      ensures holds(p, q'[p][i])
    {
      if p == k {
        assert q'[p][i] == q[p][if i < j then i else i + 1];
      } else if p == k + 1 && i == |q[p]| {
        assert q'[p][i] == t;
      } else {
        assert q'[p][i] == q[p][i];
      }
    }
  }

  lemma EverywhereWithout<T>(q: seq<seq<T>>, k: nat, j: nat, holds: (nat, T) -> bool)
    requires Everywhere(q, holds) && k < |q| && j < |q[k]|
    ensures Everywhere(q[k := Without(q[k], j)], holds)
  {
    var q' := q[k := Without(q[k], j)];
    forall p: nat, i: nat | p < |q'| && i < |q'[p]|
      ensures holds(p, q'[p][i])
    {
      assert q'[p][i] == q[p][if p == k && i >= j then i + 1 else i];
    }
  }
}
