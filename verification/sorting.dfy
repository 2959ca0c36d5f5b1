/** `Array.prototype.sort` with a "descending by key" comparator, followed by
    `slice(0, k)`. The engine's sort is stable, so the model is a stable insertion
    sort: an element goes after every earlier element whose key is at least its own. */
module Sorting {
  import opened Seqs

  /** `geq(a, b)`: `a` may come before `b` (the key of `a` is at least that of `b`). */
  ghost predicate TotalPreorder<T(!new)>(geq: (T, T) -> bool)
  {
    && (forall a, b :: geq(a, b) || geq(b, a))
    && (forall a, b, c :: geq(a, b) && geq(b, c) ==> geq(a, c))
  }

  /** Every element may come before every later one. */
  ghost predicate SortedDesc<T>(s: seq<T>, geq: (T, T) -> bool)
  {
    forall i, j :: 0 <= i < j < |s| ==> geq(s[i], s[j])
  }

  /** Inserts `x` after the leading run of elements that may come before it. */
  function Insert<T>(x: T, s: seq<T>, geq: (T, T) -> bool): (r: seq<T>)
    ensures multiset(r) == multiset(s) + multiset{x}
    ensures |r| == |s| + 1
  {
    if |s| == 0 then [x]
    else if geq(s[0], x) then
      assert s == [s[0]] + s[1..];
      [s[0]] + Insert(x, s[1..], geq)
    else [x] + s
  }

  /** Stable sort, descending by the preorder `geq`. */
  function SortDesc<T>(s: seq<T>, geq: (T, T) -> bool): (r: seq<T>)
    ensures multiset(r) == multiset(s)
    ensures |r| == |s|
  {
    if |s| == 0 then []
    else
      assert s == s[..|s| - 1] + [s[|s| - 1]];
      Insert(s[|s| - 1], SortDesc(s[..|s| - 1], geq), geq)
  }

  lemma {:induction false} InsertSorted<T(!new)>(x: T, s: seq<T>, geq: (T, T) -> bool)
    requires TotalPreorder(geq)
    requires SortedDesc(s, geq)
    ensures SortedDesc(Insert(x, s, geq), geq)
    decreases |s|
  {
    if |s| > 0 {
      var r := Insert(x, s, geq);
      if geq(s[0], x) {
        var t := Insert(x, s[1..], geq);
        InsertSorted(x, s[1..], geq);
        forall j | 0 < j < |r| ensures geq(r[0], r[j]) {
          assert r[j] == t[j - 1];
          assert r[j] in multiset(t);
          if r[j] != x {
            assert r[j] in multiset(s[1..]);
            var k :| 0 <= k < |s[1..]| && s[1..][k] == r[j];
            assert s[k + 1] == r[j];
          }
        }
      } else {
        forall j | 0 < j < |r| ensures geq(r[0], r[j]) {
          assert r[j] == s[j - 1];
          assert geq(s[0], s[j - 1]) || j == 1;
        }
      }
    }
  }

  /** The sort orders its output descending. */
  lemma {:induction false} SortDescSorted<T(!new)>(s: seq<T>, geq: (T, T) -> bool)
    requires TotalPreorder(geq)
    ensures SortedDesc(SortDesc(s, geq), geq)
    decreases |s|
  {
    if |s| > 0 {
      SortDescSorted(s[..|s| - 1], geq);
      InsertSorted(s[|s| - 1], SortDesc(s[..|s| - 1], geq), geq);
    }
  }

  /** `s.sort(cmp).slice(0, k)`: at most `k` elements, in descending order, drawn
      from `s`, and no element left behind may come before any element kept. */
  lemma TopK<T(!new)>(s: seq<T>, geq: (T, T) -> bool, k: nat)
    requires TotalPreorder(geq)
    ensures |Take(SortDesc(s, geq), k)| == if |s| < k then |s| else k
    ensures SortedDesc(Take(SortDesc(s, geq), k), geq)
    ensures multiset(Take(SortDesc(s, geq), k)) <= multiset(s)
    ensures forall x, y :: x in multiset(s) - multiset(Take(SortDesc(s, geq), k)) && y in Take(SortDesc(s, geq), k)
              ==> geq(y, x)
  {
    var t := SortDesc(s, geq);
    SortDescSorted(s, geq);
    TakeSorted(t, geq, k);
    KeptRankAbove(t, geq, k);
  }

  /** A prefix of a sorted sequence is sorted and comes from it. */
  lemma TakeSorted<T>(t: seq<T>, geq: (T, T) -> bool, k: nat)
    requires SortedDesc(t, geq)
    ensures SortedDesc(Take(t, k), geq)
    ensures multiset(Take(t, k)) <= multiset(t)
  {
    TakeSplit(t, k);
  }

  /** In a sorted sequence, what `slice(0, k)` keeps may come before what it leaves. */
  lemma KeptRankAbove<T>(t: seq<T>, geq: (T, T) -> bool, k: nat)
    requires SortedDesc(t, geq)
    ensures forall x, y :: x in multiset(t) - multiset(Take(t, k)) && y in Take(t, k) ==> geq(y, x)
  {
    var r := Take(t, k);
    var rest := t[|r|..];
    TakeSplit(t, k);
    forall x, y | x in multiset(t) - multiset(r) && y in r ensures geq(y, x) {
      assert x in rest;
      var j :| 0 <= j < |rest| && rest[j] == x;
      var i :| 0 <= i < |r| && r[i] == y;
      assert t[i] == y && t[|r| + j] == x;
    }
  }

  /** The elements of `s` ranked level with `c` (each may come before `c` and
      after it), in their order in `s`. */
  function OfRank<T>(s: seq<T>, geq: (T, T) -> bool, c: T): seq<T>
  {
    if |s| == 0 then []
    else (if geq(s[0], c) && geq(c, s[0]) then [s[0]] else []) + OfRank(s[1..], geq, c)
  }

  lemma {:induction false} OfRankAppend<T>(s: seq<T>, t: seq<T>, geq: (T, T) -> bool, c: T)
    ensures OfRank(s + t, geq, c) == OfRank(s, geq, c) + OfRank(t, geq, c)
    decreases |s|
  {
    if |s| == 0 {
      assert s + t == t;
    } else {
      assert (s + t)[0] == s[0] && (s + t)[1..] == s[1..] + t;
      OfRankAppend(s[1..], t, geq, c);
    }
  }

  /** Inserting `x` into a sorted sequence puts it after every element of its
      rank: the elements level with any `c` keep their order, `x` last. */
  lemma {:induction false} InsertStable<T(!new)>(x: T, s: seq<T>, geq: (T, T) -> bool, c: T)
    requires TotalPreorder(geq)
    requires SortedDesc(s, geq)
    ensures OfRank(Insert(x, s, geq), geq, c) == OfRank(s, geq, c) + OfRank([x], geq, c)
    decreases |s|
  {
    if |s| == 0 {
      InsertIntoEmpty(x, s, geq, c);
    } else if geq(s[0], x) {
      assert SortedDesc(s[1..], geq);
      InsertStable(x, s[1..], geq, c);
      InsertAfterHead(x, s, geq, c);
    } else {
      InsertBeforeAll(x, s, geq, c);
    }
  }

  lemma InsertIntoEmpty<T>(x: T, s: seq<T>, geq: (T, T) -> bool, c: T)
    requires |s| == 0
    ensures OfRank(Insert(x, s, geq), geq, c) == OfRank(s, geq, c) + OfRank([x], geq, c)
  {
    assert Insert(x, s, geq) == [x];
  }

  /** The step of `InsertStable` where `x` goes past the head. */
  lemma InsertAfterHead<T>(x: T, s: seq<T>, geq: (T, T) -> bool, c: T)
    requires |s| > 0 && geq(s[0], x)
    requires OfRank(Insert(x, s[1..], geq), geq, c) == OfRank(s[1..], geq, c) + OfRank([x], geq, c)
    ensures OfRank(Insert(x, s, geq), geq, c) == OfRank(s, geq, c) + OfRank([x], geq, c)
  {
    var h := if geq(s[0], c) && geq(c, s[0]) then [s[0]] else [];
    var i := Insert(x, s[1..], geq);
    assert Insert(x, s, geq) == [s[0]] + i;
    assert ([s[0]] + i)[1..] == i;
    var a, xs := OfRank(s[1..], geq, c), OfRank([x], geq, c);
    assert OfRank(Insert(x, s, geq), geq, c) == h + (a + xs);
    assert OfRank(s, geq, c) == h + a;
    AppendAssoc(h, a, xs);
  }

  /** A sequence is what `slice(0, k)` keeps followed by the rest. */
  lemma TakeSplit<T>(t: seq<T>, k: nat)
    ensures t == Take(t, k) + t[|Take(t, k)|..]
    ensures multiset(t) == multiset(Take(t, k)) + multiset(t[|Take(t, k)|..])
  {
    assert t == Take(t, k) + t[|Take(t, k)|..];
  }

  lemma AppendAssoc<T>(a: seq<T>, b: seq<T>, c: seq<T>)
    ensures a + (b + c) == (a + b) + c
  {
  }

  lemma SnocSplit<T>(s: seq<T>)
    requires |s| > 0
    ensures s[..|s| - 1] + [s[|s| - 1]] == s
  {
  }

  /** The step of `InsertStable` where `x` goes first: nothing in `s` is level
      with `x`, so only `x` itself can be of rank `c`. */
  lemma InsertBeforeAll<T(!new)>(x: T, s: seq<T>, geq: (T, T) -> bool, c: T)
    requires TotalPreorder(geq)
    requires SortedDesc(s, geq)
    requires |s| > 0 && !geq(s[0], x)
    ensures OfRank(Insert(x, s, geq), geq, c) == OfRank(s, geq, c) + OfRank([x], geq, c)
  {
    assert Insert(x, s, geq) == [x] + s;
    OfRankAppend([x], s, geq, c);
    if geq(x, c) && geq(c, x) {
      NoneOfRank(s, geq, c, s[0]);
    } else {
      assert OfRank([x], geq, c) == [];
    }
  }

  /** When the head `h` of a sorted run ranks strictly below `c`, no element does. */
  lemma {:induction false} NoneOfRank<T(!new)>(s: seq<T>, geq: (T, T) -> bool, c: T, h: T)
    requires TotalPreorder(geq)
    requires !geq(h, c)
    requires forall j :: 0 <= j < |s| ==> geq(h, s[j])
    ensures OfRank(s, geq, c) == []
    decreases |s|
  {
    if |s| > 0 {
      NoneOfRank(s[1..], geq, c, h);
    }
  }

  /** The sort is stable: for every rank, the elements of that rank come out in
      their input order. */
  lemma {:induction false} SortStable<T(!new)>(s: seq<T>, geq: (T, T) -> bool, c: T)
    requires TotalPreorder(geq)
    ensures OfRank(SortDesc(s, geq), geq, c) == OfRank(s, geq, c)
    decreases |s|
  {
    if |s| > 0 {
      var init := s[..|s| - 1];
      var x := s[|s| - 1];
      SortStable(init, geq, c);
      SortDescSorted(init, geq);
      InsertStable(x, SortDesc(init, geq), geq, c);
      SortStep(s, geq, c);
    }
  }

  /** The step of `SortStable`: the last element goes in after its rank. */
  lemma SortStep<T>(s: seq<T>, geq: (T, T) -> bool, c: T)
    requires |s| > 0
    requires OfRank(SortDesc(s[..|s| - 1], geq), geq, c) == OfRank(s[..|s| - 1], geq, c)
    requires OfRank(Insert(s[|s| - 1], SortDesc(s[..|s| - 1], geq), geq), geq, c)
      == OfRank(SortDesc(s[..|s| - 1], geq), geq, c) + OfRank([s[|s| - 1]], geq, c)
    ensures OfRank(SortDesc(s, geq), geq, c) == OfRank(s, geq, c)
  {
    var init := s[..|s| - 1];
    var x := s[|s| - 1];
    assert SortDesc(s, geq) == Insert(x, SortDesc(init, geq), geq);
    SnocSplit(s);
    OfRankAppend(init, [x], geq, c);
    assert OfRank(s, geq, c) == OfRank(init, geq, c) + OfRank([x], geq, c);
  }

  /** After sort-then-slice, the kept elements of each rank are the earliest
      elements of that rank in the input, in input order. */
  lemma TopKStable<T(!new)>(s: seq<T>, geq: (T, T) -> bool, k: nat, c: T)
    requires TotalPreorder(geq)
    ensures OfRank(Take(SortDesc(s, geq), k), geq, c) <= OfRank(s, geq, c)
  {
    var t := SortDesc(s, geq);
    var r := Take(t, k);
    TakeSplit(t, k);
    OfRankAppend(r, t[|r|..], geq, c);
    SortStable(s, geq, c);
  }

  /** Code-point lexicographic order on strings, `a <= b`. */
  predicate StrLeq(a: string, b: string)
  {
    if |a| == 0 then true
    else if |b| == 0 then false
    else if a[0] != b[0] then a[0] < b[0]
    else StrLeq(a[1..], b[1..])
  }

  lemma {:induction false} StrLeqTotal(a: string, b: string)
    ensures StrLeq(a, b) || StrLeq(b, a)
    decreases |a|
  {
    if |a| > 0 && |b| > 0 && a[0] == b[0] {
      StrLeqTotal(a[1..], b[1..]);
    }
  }

  lemma {:induction false} StrLeqTransitive(a: string, b: string, c: string)
    requires StrLeq(a, b) && StrLeq(b, c)
    ensures StrLeq(a, c)
    decreases |a|
  {
    if |a| > 0 && |b| > 0 && |c| > 0 && a[0] == b[0] && b[0] == c[0] {
      StrLeqTransitive(a[1..], b[1..], c[1..]);
    }
  }
}
