/**
 * `values.sort((a, b) => a.priority - b.priority)`: `Array.prototype.sort`
 * is stable, so with a consistent comparator its result is fixed: the
 * records in ascending priority, records of equal priority in their old
 * relative order. `SortByPriority` computes it by insertion; the lemmas
 * show it is sorted, a permutation and stable, and that these three
 * properties pin the result down.
 */
module PrioritySort {

  import opened Json
  import opened Tasks

  /**
   * The number the comparator subtracts: `priority` converted to a number.
   * A number is itself, `true` is 1, `false` and `null` are 0. Any other
   * value is taken as 0 here; see the README for how the source treats it.
   */
  function Priority(t: Task): int {
    if "priority" !in t then 0
    else
      match t["priority"]
      case Num(n) => n
      case Bool(b) => if b then 1 else 0
      case _ => 0
  }

  /** Non-decreasing priority from left to right. */
  predicate Sorted(s: seq<Task>) {
    forall i, j :: 0 <= i < j < |s| ==> Priority(s[i]) <= Priority(s[j])
  }

  /** The records of priority `p`, in their order in `s`. */
  function WithPriority(s: seq<Task>, p: int): (r: seq<Task>)
    ensures forall t :: t in r <==> t in s && Priority(t) == p
    ensures |r| <= |s|
  {
    if s == [] then []
    else
      assert forall t :: t in s <==> t == s[0] || t in s[1..];
      (if Priority(s[0]) == p then [s[0]] else []) + WithPriority(s[1..], p)
  }

  /** A record no later record undercuts can go in front of a sorted sequence. */
  lemma SortedCons(x: Task, s: seq<Task>)
    requires Sorted(s)
    requires forall y :: y in s ==> Priority(x) <= Priority(y)
    ensures Sorted([x] + s)
  {
    forall i, j | 0 <= i < j < |[x] + s|
      ensures Priority(([x] + s)[i]) <= Priority(([x] + s)[j])
    {
      assert ([x] + s)[j] == s[j - 1];
      if i > 0 {
        assert ([x] + s)[i] == s[i - 1];
      }
    }
  }

  /** Places `t` in front of the first record whose priority is not below its own. */
  function InsertByPriority(t: Task, s: seq<Task>): (r: seq<Task>)
    requires Sorted(s)
    ensures Sorted(r)
    ensures multiset(r) == multiset(s) + multiset{t}
    ensures forall x :: x in r ==> x == t || x in s
  {
    if s == [] || Priority(t) <= Priority(s[0]) then
      SortedCons(t, s);
      [t] + s
    else
      var rest := InsertByPriority(t, s[1..]);
      assert s == [s[0]] + s[1..];
      assert forall y :: y in s[1..] ==> Priority(s[0]) <= Priority(y) by {
        forall y | y in s[1..] ensures Priority(s[0]) <= Priority(y) {
          var j :| 0 <= j < |s[1..]| && s[1..][j] == y;
          assert s[j + 1] == y;
        }
      }
      SortedCons(s[0], rest);
      [s[0]] + rest
  }

  /** The stable ascending sort by priority. */
  function SortByPriority(s: seq<Task>): (r: seq<Task>)
    ensures Sorted(r)
    ensures multiset(r) == multiset(s)
  {
    if s == [] then []
    else
      assert s == [s[0]] + s[1..];
      InsertByPriority(s[0], SortByPriority(s[1..]))
  }

  /** `WithPriority` takes a leading record iff it has the priority asked for. */
  lemma WithPriorityCons(x: Task, s: seq<Task>, p: int)
    ensures WithPriority([x] + s, p) == (if Priority(x) == p then [x] else []) + WithPriority(s, p)
  {
    assert ([x] + s)[0] == x && ([x] + s)[1..] == s;
  }

  /** A tail of a sorted sequence is sorted. */
  lemma SortedTail(s: seq<Task>)
    requires Sorted(s) && s != []
    ensures Sorted(s[1..])
  {
    forall i, j | 0 <= i < j < |s[1..]|
      ensures Priority(s[1..][i]) <= Priority(s[1..][j])
    {
      assert s[1..][i] == s[i + 1] && s[1..][j] == s[j + 1];
    }
  }

  /** Two prefixes, one of them empty, can be swapped. */
  lemma SwapEmpty<T>(a: seq<T>, b: seq<T>, c: seq<T>)
    requires a == [] || b == []
    ensures a + (b + c) == b + (a + c)
  {
    if a == [] {
      assert a + (b + c) == b + c == b + (a + c);
    } else {
      assert a + (b + c) == a + c == b + (a + c);
    }
  }

  /** Inserting `t` puts it first among the records of its priority. */
  lemma {:induction false} InsertStable(t: Task, s: seq<Task>, p: int)
    requires Sorted(s)
    ensures WithPriority(InsertByPriority(t, s), p)
         == (if Priority(t) == p then [t] else []) + WithPriority(s, p)
  {
    if s == [] || Priority(t) <= Priority(s[0]) {
      WithPriorityCons(t, s, p);
    } else {
      var rest := InsertByPriority(t, s[1..]);
      SortedTail(s);
      InsertStable(t, s[1..], p);
      WithPriorityCons(s[0], rest, p);
      WithPriorityCons(s[0], s[1..], p);
      assert [s[0]] + s[1..] == s;
      var mine := if Priority(t) == p then [t] else [];
      var lead := if Priority(s[0]) == p then [s[0]] else [];
      SwapEmpty(lead, mine, WithPriority(s[1..], p));
    }
  }

  /** Stability: for every priority, the records of that priority keep their relative order. */
  lemma {:induction false} SortStable(s: seq<Task>, p: int)
    ensures WithPriority(SortByPriority(s), p) == WithPriority(s, p)
  {
    if s != [] {
      SortStable(s[1..], p);
      InsertStable(s[0], SortByPriority(s[1..]), p);
    }
  }

  /** The first record of a non-empty sequence leads the records of its own priority. */
  lemma LeaderFirst(s: seq<Task>)
    requires s != []
    ensures WithPriority(s, Priority(s[0])) != []
    ensures WithPriority(s, Priority(s[0]))[0] == s[0]
  {
    WithPriorityCons(s[0], s[1..], Priority(s[0]));
    assert [s[0]] + s[1..] == s;
  }

  /** The first record of a sorted sequence has its lowest priority. */
  lemma LeaderIsLowest(s: seq<Task>, x: Task)
    requires Sorted(s) && x in s
    ensures Priority(s[0]) <= Priority(x)
  {
    var j :| 0 <= j < |s| && s[j] == x;
    if j > 0 {
      assert Priority(s[0]) <= Priority(s[j]);
    }
  }

  /** A record of `a` is in `b` when both hold the same records of its priority. */
  lemma CarriedOver(a: seq<Task>, b: seq<Task>, x: Task)
    requires x in a
    requires WithPriority(a, Priority(x)) == WithPriority(b, Priority(x))
    ensures x in b
  {
    assert x in WithPriority(a, Priority(x));
  }

  /** Sorted sequences that agree priority by priority begin with the same record. */
  lemma SameLeader(r1: seq<Task>, r2: seq<Task>)
    requires Sorted(r1) && Sorted(r2) && r1 != [] && r2 != []
    requires forall p :: WithPriority(r1, p) == WithPriority(r2, p)
    ensures r1[0] == r2[0]
  {
    var m1, m2 := Priority(r1[0]), Priority(r2[0]);
    assert WithPriority(r1, m1) == WithPriority(r2, m1);
    CarriedOver(r1, r2, r1[0]);
    LeaderIsLowest(r2, r1[0]);
    assert WithPriority(r2, m2) == WithPriority(r1, m2);
    CarriedOver(r2, r1, r2[0]);
    LeaderIsLowest(r1, r2[0]);
    LeaderFirst(r1);
    LeaderFirst(r2);
  }

  /** Taking the same leading record off both sides keeps them in agreement. */
  lemma SameAfterLeader(r1: seq<Task>, r2: seq<Task>)
    requires r1 != [] && r2 != [] && r1[0] == r2[0]
    requires forall p :: WithPriority(r1, p) == WithPriority(r2, p)
    ensures forall p :: WithPriority(r1[1..], p) == WithPriority(r2[1..], p)
  {
    assert [r1[0]] + r1[1..] == r1 && [r2[0]] + r2[1..] == r2;
    forall p
      ensures WithPriority(r1[1..], p) == WithPriority(r2[1..], p)
    {
      WithPriorityCons(r1[0], r1[1..], p);
      WithPriorityCons(r2[0], r2[1..], p);
      var head := if Priority(r1[0]) == p then [r1[0]] else [];
      assert WithPriority(r1[1..], p) == (head + WithPriority(r1[1..], p))[|head|..];
      assert WithPriority(r2[1..], p) == (head + WithPriority(r2[1..], p))[|head|..];
    }
  }

  /**
   * Two sorted sequences that agree, priority by priority, on the records
   * of that priority and their order, are the same sequence.
   */
  lemma {:induction false} SortedStableUnique(r1: seq<Task>, r2: seq<Task>)
    requires Sorted(r1) && Sorted(r2)
    requires forall p :: WithPriority(r1, p) == WithPriority(r2, p)
    ensures r1 == r2
    decreases |r1|
  {
    if r1 == [] && r2 == [] {
    } else if r1 == [] {
      LeaderFirst(r2);
      assert false;
    } else if r2 == [] {
      LeaderFirst(r1);
      assert false;
    } else {
      SameLeader(r1, r2);
      SameAfterLeader(r1, r2);
      assert Sorted(r1[1..]) && Sorted(r2[1..]);
      SortedStableUnique(r1[1..], r2[1..]);
      assert r1 == [r1[0]] + r1[1..] && r2 == [r2[0]] + r2[1..];
    }
  }

  /**
   * `SortByPriority` is the only sorted rearrangement of `s` that keeps the
   * relative order of equal priorities: it is what a stable sort returns.
   */
  lemma StableSortIsUnique(s: seq<Task>, r: seq<Task>)
    requires Sorted(r)
    requires forall p :: WithPriority(r, p) == WithPriority(s, p)
    ensures r == SortByPriority(s)
  {
    forall p
      ensures WithPriority(r, p) == WithPriority(SortByPriority(s), p)
    {
      SortStable(s, p);
    }
    SortedStableUnique(r, SortByPriority(s));
  }
}
