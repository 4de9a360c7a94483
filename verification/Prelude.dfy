/** Shared vocabulary: options, sums over a table, and the meaning of an ordered, limited query. */
module Prelude {

  datatype Option<+T> = None | Some(value: T)

  function Max(a: int, b: int): int {
    if a < b then b else a
  }

  /** How many of the first n numbers are ok. */
  function CountOk(ok: nat -> bool, n: nat): nat {
    if n == 0 then 0 else CountOk(ok, n - 1) + if ok(n - 1) then 1 else 0
  }

  /** The sum of `f` over the rows of `s`. */
  function SumOf<T>(s: seq<T>, f: T -> nat): nat {
    if s == [] then 0 else SumOf(s[..|s| - 1], f) + f(s[|s| - 1])
  }

  lemma SumAppend<T>(s: seq<T>, x: T, f: T -> nat)
    ensures SumOf(s + [x], f) == SumOf(s, f) + f(x)
  {
    assert (s + [x])[..|s|] == s;
  }

  lemma {:induction false} SumUpdate<T>(s: seq<T>, i: nat, x: T, f: T -> nat)
    requires i < |s|
    ensures SumOf(s[i := x], f) + f(s[i]) == SumOf(s, f) + f(x)
  {
    var n := |s| - 1;
    if i == n {
      assert s[i := x][..n] == s[..n];
    } else {
      assert s[i := x][..n] == s[..n][i := x];
      SumUpdate(s[..n], i, x, f);
    }
  }

  /** One row never contributes more than the whole. */
  lemma {:induction false} SumAtLeast<T>(s: seq<T>, i: nat, f: T -> nat)
    requires i < |s|
    ensures f(s[i]) <= SumOf(s, f)
  {
    if i < |s| - 1 {
      SumAtLeast(s[..|s| - 1], i, f);
    }
  }

  lemma {:induction false} SumZero<T>(s: seq<T>, f: T -> nat)
    requires forall i | 0 <= i < |s| :: f(s[i]) == 0
    ensures SumOf(s, f) == 0
  {
    if s != [] { SumZero(s[..|s| - 1], f); }
  }

  /** `leq` compares any two rows and is transitive, as an SQL ORDER BY does. */
  ghost predicate TotalPreorder<T(!new)>(leq: (T, T) -> bool) {
    && (forall a, b :: leq(a, b) || leq(b, a))
    && (forall a, b, c :: leq(a, b) && leq(b, c) ==> leq(a, c))
  }

  ghost predicate Distinct(ids: seq<nat>) {
    forall i, j | 0 <= i < j < |ids| :: ids[i] != ids[j]
  }

  /** `ids` lists rows of `table`, none twice, in the order of `leq`. */
  ghost predicate InOrder<T>(table: seq<T>, leq: (T, T) -> bool, ids: seq<nat>) {
    && (forall k | 0 <= k < |ids| :: ids[k] < |table|)
    && Distinct(ids)
    && forall i, j | 0 <= i < j < |ids| :: leq(table[ids[i]], table[ids[j]])
  }

  /**
   * `ids` is an answer to SELECT ... WHERE sel ORDER BY leq LIMIT limit over `table`.
   * Rows that tie may come in any order, and the limit may cut a tie anywhere.
   */
  ghost predicate Answers<T>(table: seq<T>, sel: T -> bool, leq: (T, T) -> bool,
                             limit: Option<nat>, ids: seq<nat>)
  {
    && InOrder(table, leq, ids)
    && (forall k | 0 <= k < |ids| :: sel(table[ids[k]]))
    && (limit.Some? ==> |ids| <= limit.value)
    && (forall m | 0 <= m < |table| && sel(table[m]) && m !in ids ::
          limit.Some? && |ids| == limit.value
          && forall k | 0 <= k < |ids| :: leq(table[ids[k]], table[m]))
  }

  lemma InsertInOrder<T(!new)>(table: seq<T>, leq: (T, T) -> bool, ids: seq<nat>, m: nat) returns (r: seq<nat>)
    requires TotalPreorder(leq) && InOrder(table, leq, ids) && m < |table| && m !in ids
    ensures InOrder(table, leq, r)
    ensures forall x: nat :: x in r <==> x in ids || x == m
  {
    hide TotalPreorder;
    var p := 0;
    while p < |ids| && leq(table[ids[p]], table[m])
      invariant 0 <= p <= |ids|
      invariant forall i | 0 <= i < p :: leq(table[ids[i]], table[m])
    {
      p := p + 1;
    }
    forall k | p <= k < |ids| ensures leq(table[m], table[ids[k]]) {
      Compare(leq, table[m], table[ids[p]], table[ids[k]]);
    }
    r := ids[..p] + [m] + ids[p..];
    assert ids == ids[..p] + ids[p..];
    InsertedAt(table, leq, ids, m, p);
  }

  lemma InsertedAt<T>(table: seq<T>, leq: (T, T) -> bool, ids: seq<nat>, m: nat, p: nat)
    requires InOrder(table, leq, ids) && m < |table| && m !in ids && p <= |ids|
    requires forall i | 0 <= i < p :: leq(table[ids[i]], table[m])
    requires forall k | p <= k < |ids| :: leq(table[m], table[ids[k]])
    ensures InOrder(table, leq, ids[..p] + [m] + ids[p..])
  {
    var r := ids[..p] + [m] + ids[p..];
    forall i, j | 0 <= i < j < |r| ensures r[i] != r[j] && leq(table[r[i]], table[r[j]]) {
      var a, b := if i < p then i else i - 1, if j < p then j else j - 1;
      assert i != p ==> r[i] == ids[a];
      assert j != p ==> r[j] == ids[b];
    }
  }

  lemma SliceInOrder<T>(table: seq<T>, leq: (T, T) -> bool, ids: seq<nat>, lo: nat, hi: nat)
    requires InOrder(table, leq, ids) && lo <= hi <= |ids|
    ensures InOrder(table, leq, ids[lo..hi])
  {
    assert forall k | 0 <= k < hi - lo :: ids[lo..hi][k] == ids[lo + k];
  }

  lemma Compare<T(!new)>(leq: (T, T) -> bool, a: T, b: T, c: T)
    requires TotalPreorder(leq)
    ensures leq(a, b) || leq(b, a)
    ensures leq(a, b) && leq(b, c) ==> leq(a, c)
  {
  }

  /** Every query has an answer: what is proved of all answers is not proved of none. */
  lemma {:induction false} AnswerExists<T(!new)>(table: seq<T>, sel: T -> bool, leq: (T, T) -> bool, limit: Option<nat>)
    returns (ids: seq<nat>)
    requires TotalPreorder(leq)
    ensures Answers(table, sel, leq, limit, ids)
  {
    var all := AllInOrder(table, sel, leq, |table|);
    ids := if limit.Some? && limit.value < |all| then all[..limit.value] else all;
    forall m | 0 <= m < |table| && sel(table[m]) && m !in ids
      ensures forall k | 0 <= k < |ids| :: leq(table[ids[k]], table[m])
    {
      var j :| 0 <= j < |all| && all[j] == m;
      assert forall k | 0 <= k < |ids| :: ids[k] == all[k];
    }
  }

  lemma {:induction false} AllInOrder<T(!new)>(table: seq<T>, sel: T -> bool, leq: (T, T) -> bool, n: nat)
    returns (ids: seq<nat>)
    requires TotalPreorder(leq) && n <= |table|
    ensures InOrder(table, leq, ids)
    ensures forall m: nat :: m in ids <==> m < n && sel(table[m])
  {
    if n == 0 { return []; }
    ids := AllInOrder(table, sel, leq, n - 1);
    if sel(table[n - 1]) {
      ids := InsertInOrder(table, leq, ids, n - 1);
    }
  }

  /** Distinct rows that each count at least one are no more than the count. */
  lemma {:induction false} DistinctAtMostSum<T>(table: seq<T>, f: T -> nat, ids: seq<nat>)
    requires Distinct(ids) && forall k | 0 <= k < |ids| :: ids[k] < |table| && f(table[ids[k]]) >= 1
    ensures |ids| <= SumOf(table, f)
  {
    if ids != [] {
      assert ids[0] < |table|;
      var n := |table| - 1;
      var rest := ids;
      if q :| 0 <= q < |ids| && ids[q] == n {
        rest := ids[..q] + ids[q + 1..];
        assert forall k | 0 <= k < |rest| :: rest[k] == ids[if k < q then k else k + 1];
      }
      DistinctAtMostSum(table[..n], f, rest);
    }
  }

  /** Ids that include every row that counts are no fewer than the count. */
  lemma {:induction false} CoveredAtMost<T>(table: seq<T>, f: T -> nat, ids: seq<nat>)
    requires forall m | 0 <= m < |table| :: f(table[m]) <= 1 && (f(table[m]) == 1 ==> m in ids)
    ensures SumOf(table, f) <= |ids|
  {
    if table != [] {
      var n := |table| - 1;
      if f(table[n]) == 1 {
        var q :| 0 <= q < |ids| && ids[q] == n;
        var rest := ids[..q] + ids[q + 1..];
        assert ids == ids[..q] + [n] + ids[q + 1..];
        CoveredAtMost(table[..n], f, rest);
      } else {
        CoveredAtMost(table[..n], f, ids);
      }
    }
  }

  lemma {:induction false} SumSame<T>(a: seq<T>, b: seq<T>, f: T -> nat)
    requires |a| == |b| && forall i | 0 <= i < |a| :: f(a[i]) == f(b[i])
    ensures SumOf(a, f) == SumOf(b, f)
  {
    if a != [] { SumSame(a[..|a| - 1], b[..|b| - 1], f); }
  }

  lemma {:induction false} DistinctCount(ids: seq<nat>, x: nat)
    requires Distinct(ids)
    ensures multiset(ids)[x] == if x in ids then 1 else 0
  {
    if ids != [] {
      var n := |ids| - 1;
      assert ids == ids[..n] + [ids[n]];
      DistinctCount(ids[..n], x);
    }
  }

  /** Two listings of the same ids, neither with repetitions, are permutations of each other. */
  lemma SameMembersSameMultiset(a: seq<nat>, b: seq<nat>)
    requires Distinct(a) && Distinct(b) && forall x: nat :: x in a <==> x in b
    ensures multiset(a) == multiset(b)
  {
    forall x: nat ensures multiset(a)[x] == multiset(b)[x] {
      DistinctCount(a, x);
      DistinctCount(b, x);
    }
  }

  ghost predicate NoTies<T>(table: seq<T>, leq: (T, T) -> bool, ids: seq<nat>)
    requires InOrder(table, leq, ids)
  {
    forall i, j | 0 <= i < j < |ids| :: !leq(table[ids[j]], table[ids[i]])
  }

  lemma LastOf<T>(table: seq<T>, leq: (T, T) -> bool, ids: seq<nat>, x: nat)
    requires InOrder(table, leq, ids) && ids != []
    ensures x in ids && x != ids[|ids| - 1] ==> leq(table[x], table[ids[|ids| - 1]])
    ensures x in ids && x != ids[|ids| - 1] && NoTies(table, leq, ids) ==> !leq(table[ids[|ids| - 1]], table[x])
    ensures x in ids[..|ids| - 1] <==> x in ids && x != ids[|ids| - 1]
    ensures InOrder(table, leq, ids[..|ids| - 1]) && (NoTies(table, leq, ids) ==> NoTies(table, leq, ids[..|ids| - 1]))
  {
    assert ids == ids[..|ids| - 1] + [ids[|ids| - 1]];
  }

  /** Two listings of the same ids in the same order are the same, if no two of the rows tie. */
  lemma {:induction false} SameOrder<T>(table: seq<T>, leq: (T, T) -> bool, a: seq<nat>, b: seq<nat>)
    requires InOrder(table, leq, a) && InOrder(table, leq, b) && forall x: nat :: x in a <==> x in b
    requires NoTies(table, leq, a)
    ensures a == b
  {
    hide InOrder, NoTies;
    assert b == [] || b[0] in b;
    if a != [] {
      var n, m := |a| - 1, |b| - 1;
      assert a[n] in b && b[m] in a;
      LastOf(table, leq, a, b[m]);
      LastOf(table, leq, b, a[n]);
      assert a[n] == b[m];
      forall x: nat ensures x in a[..n] <==> x in b[..m] {
        LastOf(table, leq, a, x);
        LastOf(table, leq, b, x);
      }
      SameOrder(table, leq, a[..n], b[..m]);
      assert a == a[..n] + [a[n]] && b == b[..m] + [b[m]];
    }
  }
}
