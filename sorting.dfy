/** `events.sort_by_key(|a| a.from_datetime)` of `get_all_events`: a stable
    sort by start time. The specification is insertion sort written as a
    function, which is the unique stable sort; the implementation sorts an
    array in place. */
module Sorting {
  import opened Types

  /** `a` may stand before `b`: it does not start later. */
  predicate InOrder(a: Event, b: Event) {
    AtOrBefore(a.fromDatetime, b.fromDatetime)
  }

  predicate SortedByFrom(s: seq<Event>) {
    forall i, j | 0 <= i < j < |s| :: InOrder(s[i], s[j])
  }

  /** `x` inserted after every element that does not start later than it. */
  function Insert(s: seq<Event>, x: Event): seq<Event>
    decreases |s|
  {
    if s == [] then [x]
    else if InOrder(s[|s| - 1], x) then s + [x]
    else Insert(s[..|s| - 1], x) + [s[|s| - 1]]
  }

  /** The stable sort of `s` by start time. */
  function SortByFrom(s: seq<Event>): seq<Event>
    decreases |s|
  {
    if s == [] then [] else Insert(SortByFrom(s[..|s| - 1]), s[|s| - 1])
  }

  /** The events of `s` that start at `k`, in their order in `s`. */
  function StartingAt(s: seq<Event>, k: DateTime): seq<Event>
    decreases |s|
  {
    if s == [] then []
    else StartingAt(s[..|s| - 1], k) + (if s[|s| - 1].fromDatetime == k then [s[|s| - 1]] else [])
  }

  lemma {:induction false} InsertPermutes(s: seq<Event>, x: Event)
    ensures multiset(Insert(s, x)) == multiset(s) + multiset{x}
    decreases |s|
  {
    if s != [] && !InOrder(s[|s| - 1], x) {
      var n := |s| - 1;
      InsertPermutes(s[..n], x);
      assert s == s[..n] + [s[n]];
    }
  }

  lemma {:induction false} InsertSorted(s: seq<Event>, x: Event)
    requires SortedByFrom(s)
    ensures SortedByFrom(Insert(s, x))
    decreases |s|
  {
    if s == [] {
    } else if InOrder(s[|s| - 1], x) {
      var r := s + [x];
      forall i, j | 0 <= i < j < |r| ensures InOrder(r[i], r[j]) {
        if j == |s| && i < |s| - 1 {
          AtOrBeforeTransitive(s[i].fromDatetime, s[|s| - 1].fromDatetime, x.fromDatetime);
        }
      }
    } else {
      var n := |s| - 1;
      var last := s[n];
      var init := s[..n];
      InsertSorted(init, x);
      InsertPermutes(init, x);
      var r := Insert(init, x);
      AtOrBeforeTotal(x.fromDatetime, last.fromDatetime);
      forall i | 0 <= i < |r| ensures InOrder(r[i], last) {
        assert r[i] in multiset(r);
        if r[i] != x {
          assert r[i] in multiset(init);
          var k :| 0 <= k < n && init[k] == r[i];
          assert s[k] == r[i];
        }
      }
      var out := r + [last];
      forall i, j | 0 <= i < j < |out| ensures InOrder(out[i], out[j]) {
        if j < |r| {
          assert out[i] == r[i] && out[j] == r[j];
        }
      }
    }
  }

  lemma MultisetSnoc(s: seq<Event>)
    requires s != []
    ensures multiset(s) == multiset(s[..|s| - 1]) + multiset{s[|s| - 1]}
  {
    assert s == s[..|s| - 1] + [s[|s| - 1]];
  }

  /** The sort returns its input rearranged... */
  lemma {:induction false} SortByFromPermutes(s: seq<Event>)
    ensures multiset(SortByFrom(s)) == multiset(s)
    ensures |SortByFrom(s)| == |s|
    decreases |s|
  {
    if s != [] {
      var n := |s| - 1;
      SortByFromPermutes(s[..n]);
      InsertPermutes(SortByFrom(s[..n]), s[n]);
      MultisetSnoc(s);
    }
  }

  /** ...in non-decreasing order of start time. */
  lemma {:induction false} SortByFromSorted(s: seq<Event>)
    ensures SortedByFrom(SortByFrom(s))
    decreases |s|
  {
    if s != [] {
      var n := |s| - 1;
      SortByFromSorted(s[..n]);
      InsertSorted(SortByFrom(s[..n]), s[n]);
    }
  }

  lemma {:induction false} StartingAtAppend(a: seq<Event>, b: seq<Event>, k: DateTime)
    ensures StartingAt(a + b, k) == StartingAt(a, k) + StartingAt(b, k)
    decreases |b|
  {
    if b == [] {
      assert a + b == a;
    } else {
      var n := |b| - 1;
      assert (a + b)[..|a + b| - 1] == a + b[..n];
      StartingAtAppend(a, b[..n], k);
    }
  }

  /** An event that starts strictly before another: at most one of them starts at `k`. */
  lemma StartsApart(x: Event, last: Event, k: DateTime)
    requires !InOrder(last, x)
    ensures StartingAt([x], k) == [] || StartingAt([last], k) == []
  {
    assert [x][..0] == [] && [last][..0] == [];
    if x.fromDatetime == k && last.fromDatetime == k {
      AtOrBeforeTotal(k, k);
    }
  }

  lemma SwapAroundEmpty(a: seq<Event>, p: seq<Event>, q: seq<Event>)
    requires p == [] || q == []
    ensures a + p + q == a + q + p
  {
  }

  lemma {:induction false} InsertStable(s: seq<Event>, x: Event, k: DateTime)
    ensures StartingAt(Insert(s, x), k) == StartingAt(s, k) + StartingAt([x], k)
    decreases |s|
  {
    if s == [] {
    } else if InOrder(s[|s| - 1], x) {
      StartingAtAppend(s, [x], k);
    } else {
      var n := |s| - 1;
      var last, init := s[n], s[..n];
      var r := Insert(init, x);
      assert Insert(s, x) == r + [last];
      InsertStable(init, x, k);
      StartingAtAppend(r, [last], k);
      assert s == init + [last];
      StartingAtAppend(init, [last], k);
      StartsApart(x, last, k);
      SwapAroundEmpty(StartingAt(init, k), StartingAt([x], k), StartingAt([last], k));
    }
  }

  /** Stability: the events that start at the same time keep their relative order. */
  lemma {:induction false} SortByFromStable(s: seq<Event>, k: DateTime)
    ensures StartingAt(SortByFrom(s), k) == StartingAt(s, k)
    decreases |s|
  {
    if s != [] {
      var n := |s| - 1;
      SortByFromStable(s[..n], k);
      InsertStable(SortByFrom(s[..n]), s[n], k);
      assert s == s[..n] + [s[n]];
      StartingAtAppend(s[..n], [s[n]], k);
    }
  }

  /** `Insert` puts `x` at the position `j` where it starts no earlier than
      its left neighbour and strictly before everything to its right. */
  lemma {:induction false} InsertAt(s: seq<Event>, x: Event, j: nat)
    requires j <= |s|
    requires j == 0 || InOrder(s[j - 1], x)
    requires forall k | j <= k < |s| :: !InOrder(s[k], x)
    ensures Insert(s, x) == s[..j] + [x] + s[j..]
    decreases |s|
  {
    if j == |s| {
      assert s[..j] == s && s[j..] == [];
    } else {
      var n := |s| - 1;
      assert !InOrder(s[n], x);
      InsertAt(s[..n], x, j);
      assert s[..n][..j] == s[..j];
      assert s[..n][j..] + [s[n]] == s[j..];
    }
  }

  /** The shifting loop of one insertion pass: everything in `a[j..i]` that
      starts later than `x` moves one place right, opening a gap at `j`. */
  method ShiftRight(a: array<Event>, i: nat, x: Event) returns (j: nat)
    requires i < a.Length
    modifies a
    ensures j <= i
    ensures forall k | 0 <= k < j :: a[k] == old(a[k])
    ensures forall k | j < k <= i :: a[k] == old(a[k - 1])
    ensures forall k | i < k < a.Length :: a[k] == old(a[k])
    ensures j == 0 || InOrder(old(a[j - 1]), x)
    ensures forall k | j <= k < i :: !InOrder(old(a[k]), x)
  {
    j := i;
    while j > 0 && !InOrder(a[j - 1], x)
      invariant 0 <= j <= i
      invariant forall k | 0 <= k < j :: a[k] == old(a[k])
      invariant forall k | j < k <= i :: a[k] == old(a[k - 1])
      invariant forall k | i < k < a.Length :: a[k] == old(a[k])
      invariant forall k | j <= k < i :: !InOrder(old(a[k]), x)
    {
      a[j] := a[j - 1];
      j := j - 1;
    }
  }

  /** One pass of the sort: `a[i]` moved into the sorted prefix `a[..i]`. */
  method InsertInto(a: array<Event>, i: nat)
    requires i < a.Length
    modifies a
    ensures a[..i + 1] == Insert(old(a[..i]), old(a[i]))
    ensures a[i + 1..] == old(a[i + 1..])
  {
    ghost var orig := a[..];
    ghost var sorted := a[..i];
    var x := a[i];
    var j := ShiftRight(a, i, x);
    a[j] := x;
    InsertAt(sorted, x, j);
    ghost var want := sorted[..j] + [x] + sorted[j..];
    forall k | 0 <= k <= i ensures a[k] == want[k] {
      if k > j {
        assert want[k] == sorted[k - 1] == orig[k - 1];
      } else if k < j {
        assert want[k] == sorted[k];
      }
    }
    assert a[..i + 1] == want;
    assert a[i + 1..] == orig[i + 1..];
  }

  lemma SortStep(orig: seq<Event>, i: nat)
    requires i < |orig|
    ensures SortByFrom(orig[..i + 1]) == Insert(SortByFrom(orig[..i]), orig[i])
  {
    assert orig[..i + 1][..i] == orig[..i];
  }

  lemma SliceOfSuffix(s: seq<Event>, i: nat)
    requires i < |s|
    ensures s[i..][0] == s[i] && s[i..][1..] == s[i + 1..]
  {
  }

  /** `sort_by_key` on the vector of events, in place. */
  method SortInPlace(a: array<Event>)
    modifies a
    ensures a[..] == SortByFrom(old(a[..]))
  {
    ghost var orig := a[..];
    var i := 0;
    while i < a.Length
      invariant 0 <= i <= a.Length
      invariant a[..i] == SortByFrom(orig[..i])
      invariant a[i..] == orig[i..]
    {
      InsertInto(a, i);
      SortStep(orig, i);
      assert a[i + 1..] == orig[i + 1..] by { SliceOfSuffix(orig, i); }
      i := i + 1;
    }
    assert a[..] == a[..a.Length] && orig == orig[..a.Length];
  }
}
