/** Equalities between sequences, one at a time. */
module Seqs {

  lemma HeadTail<T>(s: seq<T>)
    requires |s| > 0
    ensures s == [s[0]] + s[1..]
  {
  }

  lemma TailOfJoin<T>(a: seq<T>, b: seq<T>)
    requires |a| > 0
    ensures (a + b)[0] == a[0] && (a + b)[1..] == a[1..] + b
  {
  }

  lemma Assoc<T>(a: seq<T>, b: seq<T>, c: seq<T>)
    ensures (a + b) + c == a + (b + c)
  {
  }

  lemma NothingBetween<T>(a: seq<T>, b: seq<T>)
    ensures a + [] + b == a + b && a + [] == a && [] + b == b
  {
  }

  lemma SplitAt<T>(s: seq<T>, j: nat)
    requires j < |s|
    ensures s == s[..j] + ([s[j]] + s[j + 1..])
  {
  }

  lemma ConsUpdate<T>(s: seq<T>, p: nat, x: T)
    requires 0 < p < |s|
    ensures [s[0]] + s[1..][p - 1 := x] == s[p := x]
  {
  }

  lemma ConsInsert<T>(s: seq<T>, p: nat, x: T)
    requires 0 < p <= |s|
    ensures [s[0]] + (s[1..][..p - 1] + [x] + s[1..][p - 1..]) == s[..p] + [x] + s[p..]
  {
  }

  lemma ConsRemove<T>(s: seq<T>, p: nat)
    requires 0 < p < |s|
    ensures [s[0]] + (s[1..][..p - 1] + s[1..][p..]) == s[..p] + s[p + 1..]
  {
  }

  lemma MiddleUpdate<T>(a: seq<T>, s: seq<T>, b: seq<T>, p: nat, x: T)
    requires p < |s|
    ensures (a + s + b)[|a| + p] == s[p] && (a + s + b)[|a| + p := x] == a + s[p := x] + b
  {
  }

  lemma MiddleRemove<T>(a: seq<T>, s: seq<T>, b: seq<T>, p: nat)
    requires p < |s|
    ensures (a + s + b)[..|a| + p] + (a + s + b)[|a| + p + 1..] == a + (s[..p] + s[p + 1..]) + b
  {
  }
}
