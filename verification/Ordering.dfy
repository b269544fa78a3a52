/** The order of the data event list: by data id, then by sequence, ties in arrival order. */
module Ordering {
  import opened Events
  import opened Seqs

  predicate Before(a: Event, b: Event) {
    a.dataId < b.dataId || (a.dataId == b.dataId && a.sequence < b.sequence)
  }

  predicate SameKey(a: Event, b: Event) {
    a.dataId == b.dataId && a.sequence == b.sequence
  }

  ghost predicate Sorted(s: seq<Event>) {
    forall i, j | 0 <= i < j < |s| :: !Before(s[j], s[i])
  }

  ghost predicate StrictlySorted(s: seq<Event>) {
    forall i, j | 0 <= i < j < |s| :: Before(s[i], s[j])
  }

  ghost predicate DistinctKeys(s: seq<Event>) {
    && (forall x, y | x in s && y in s && SameKey(x, y) :: x == y)
    && (forall x | x in s :: multiset(s)[x] == 1)
  }

  /** `e` goes before the first event that must stay after it. */
  function Insert(s: seq<Event>, e: Event): seq<Event> {
    if s == [] || Before(e, s[0]) then [e] + s else [s[0]] + Insert(s[1..], e)
  }

  function InsertAll(s: seq<Event>, arrivals: seq<Event>): seq<Event>
    decreases |arrivals|
  {
    if arrivals == [] then s else InsertAll(Insert(s, arrivals[0]), arrivals[1..])
  }

  /** The list an empty buffer holds after these arrivals. */
  function Build(arrivals: seq<Event>): seq<Event> {
    InsertAll([], arrivals)
  }

  /** The events with the key of `k`, in order. */
  ghost function WithKey(s: seq<Event>, k: Event): seq<Event> {
    if s == [] then [] else (if SameKey(s[0], k) then [s[0]] else []) + WithKey(s[1..], k)
  }

  lemma {:induction false} WithKeyConcat(a: seq<Event>, b: seq<Event>, k: Event)
    ensures WithKey(a + b, k) == WithKey(a, k) + WithKey(b, k)
  {
    if a == [] {
      LeftUnit(a, b);
      LeftUnit(WithKey(a, k), WithKey(b, k));
    } else {
      WithKeyConcat(a[1..], b, k);
      TailOfConcat(a, b);
      Assoc(if SameKey(a[0], k) then [a[0]] else [], WithKey(a[1..], k), WithKey(b, k));
    }
  }

  lemma {:induction false} WithKeyEmpty(s: seq<Event>, k: Event)
    requires forall x | x in s :: !SameKey(x, k)
    ensures WithKey(s, k) == []
  {
    if s != [] {
      assert s[0] in s;
      WithKeyEmpty(s[1..], k);
    }
  }

  lemma {:induction false} WithKeyMember(s: seq<Event>, i: nat)
    requires i < |s|
    ensures s[i] in WithKey(s, s[i])
  {
    if i > 0 {
      WithKeyMember(s[1..], i - 1);
    }
  }

  lemma {:induction false} WithKeySubset(s: seq<Event>, k: Event, x: Event)
    requires x in WithKey(s, k)
    ensures x in s && SameKey(x, k)
  {
    if x !in WithKey(s[1..], k) {
      assert x == s[0];
    } else {
      WithKeySubset(s[1..], k, x);
    }
  }

  lemma {:induction false} InsertSplit(s: seq<Event>, e: Event, k: nat)
    requires k <= |s|
    requires forall i | 0 <= i < k :: !Before(e, s[i])
    requires k < |s| ==> Before(e, s[k])
    ensures Insert(s, e) == Inserted(s, k, e)
  {
    hide Inserted;
    InsertedCons(s, k, e);
    if k > 0 {
      InsertSplit(s[1..], e, k - 1);
    }
  }

  lemma {:induction false} InsertAddsOne(s: seq<Event>, e: Event)
    ensures multiset(Insert(s, e)) == multiset(s) + multiset{e}
  {
    if s != [] && !Before(e, s[0]) {
      InsertAddsOne(s[1..], e);
      assert s == [s[0]] + s[1..];
      assert multiset(Insert(s, e)) == multiset{s[0]} + multiset(Insert(s[1..], e));
    }
  }

  lemma {:induction false} InsertKeepsOrder(s: seq<Event>, e: Event)
    requires Sorted(s)
    ensures Sorted(Insert(s, e))
  {
    if s != [] && !Before(e, s[0]) {
      var t := Insert(s[1..], e);
      InsertKeepsOrder(s[1..], e);
      InsertAddsOne(s[1..], e);
      forall i | 0 <= i < |t| ensures !Before(t[i], s[0]) {
        assert t[i] in multiset(t);
        assert t[i] in s[1..] || t[i] == e;
      }
    }
  }

  /** A new event goes behind every event with its key. */
  lemma {:induction false} InsertIsStable(s: seq<Event>, e: Event, k: Event)
    requires Sorted(s)
    ensures WithKey(Insert(s, e), k) == WithKey(s, k) + if SameKey(e, k) then [e] else []
  {
    if s == [] || Before(e, s[0]) {
      assert ([e] + s)[1..] == s;
      if SameKey(e, k) {
        WithKeyEmpty(s, k);
      }
    } else {
      InsertIsStable(s[1..], e, k);
      assert ([s[0]] + Insert(s[1..], e))[1..] == Insert(s[1..], e);
    }
  }

  /** The list after any arrivals: sorted, nothing lost or duplicated. */
  lemma {:induction false} InsertAllKeepsOrder(s: seq<Event>, arrivals: seq<Event>)
    requires Sorted(s)
    ensures Sorted(InsertAll(s, arrivals))
    ensures multiset(InsertAll(s, arrivals)) == multiset(s) + multiset(arrivals)
    decreases |arrivals|
  {
    if arrivals != [] {
      InsertKeepsOrder(s, arrivals[0]);
      InsertAddsOne(s, arrivals[0]);
      InsertAllKeepsOrder(Insert(s, arrivals[0]), arrivals[1..]);
      assert arrivals == [arrivals[0]] + arrivals[1..];
    }
  }

  /** Events with one key stay in arrival order. */
  lemma {:induction false} InsertAllIsStable(s: seq<Event>, arrivals: seq<Event>, k: Event)
    requires Sorted(s)
    ensures WithKey(InsertAll(s, arrivals), k) == WithKey(s, k) + WithKey(arrivals, k)
    decreases |arrivals|
  {
    if arrivals != [] {
      var first, later := arrivals[0], arrivals[1..];
      var one := if SameKey(first, k) then [first] else [];
      calc {
        WithKey(InsertAll(s, arrivals), k);
        WithKey(InsertAll(Insert(s, first), later), k);
        { InsertKeepsOrder(s, first); InsertAllIsStable(Insert(s, first), later, k); }
        WithKey(Insert(s, first), k) + WithKey(later, k);
        { InsertIsStable(s, first, k); }
        (WithKey(s, k) + one) + WithKey(later, k);
        WithKey(s, k) + (one + WithKey(later, k));
        WithKey(s, k) + WithKey(arrivals, k);
      }
    }
  }

  lemma BuildIsStable(arrivals: seq<Event>, k: Event)
    ensures WithKey(Build(arrivals), k) == WithKey(arrivals, k)
  {
    InsertAllIsStable([], arrivals, k);
    LeftUnit(WithKey([], k), WithKey(arrivals, k));
  }

  /** A sorted list is determined by the per-key subsequences. */
  lemma {:induction false} SortedDetermined(a: seq<Event>, b: seq<Event>)
    requires Sorted(a) && Sorted(b)
    requires forall k :: WithKey(a, k) == WithKey(b, k)
    ensures a == b
  {
    if b != [] {
      WithKeyMember(b, 0);
      WithKeySubset(a, b[0], b[0]);
    }
    if a != [] {
      WithKeyMember(a, 0);
      WithKeySubset(b, a[0], a[0]);
      assert SameKey(a[0], b[0]);
      assert a[0] == WithKey(a, a[0])[0] == b[0];
      forall k ensures WithKey(a[1..], k) == WithKey(b[1..], k) {
        var n := if SameKey(a[0], k) then 1 else 0;
        assert WithKey(a[1..], k) == WithKey(a, k)[n..];
        assert WithKey(b[1..], k) == WithKey(b, k)[n..];
      }
      SortedDetermined(a[1..], b[1..]);
    }
  }

  lemma DistinctTail(s: seq<Event>)
    requires s != [] && DistinctKeys(s)
    ensures DistinctKeys(s[1..])
    ensures forall x | x in s[1..] :: !SameKey(x, s[0])
  {
    assert s == [s[0]] + s[1..];
    assert forall x | x in s[1..] :: x in multiset(s[1..]) && x in s;
    assert multiset(s)[s[0]] == 1;
  }

  lemma {:induction false} WithKeyOfDistinct(s: seq<Event>, k: Event, x: Event)
    requires DistinctKeys(s) && x in s && SameKey(x, k)
    ensures WithKey(s, k) == [x]
  {
    DistinctTail(s);
    if s[0] == x {
      WithKeyEmpty(s[1..], k);
    } else {
      assert s == [s[0]] + s[1..];
      WithKeyOfDistinct(s[1..], k, x);
    }
  }

  lemma {:induction false} StrictlySortedIsDistinct(s: seq<Event>)
    requires StrictlySorted(s)
    ensures DistinctKeys(s)
  {
    if s != [] {
      StrictlySortedIsDistinct(s[1..]);
      assert s == [s[0]] + s[1..];
    }
  }

  lemma PermutationSameKeys(a: seq<Event>, b: seq<Event>)
    requires DistinctKeys(a) && DistinctKeys(b)
    requires multiset(a) == multiset(b)
    ensures forall k :: WithKey(a, k) == WithKey(b, k)
  {
    assert forall x :: x in a <==> x in multiset(a);
    assert forall x :: x in b <==> x in multiset(b);
    forall k ensures WithKey(a, k) == WithKey(b, k) {
      if x :| x in a && SameKey(x, k) {
        WithKeyOfDistinct(a, k, x);
        WithKeyOfDistinct(b, k, x);
      } else {
        WithKeyEmpty(a, k);
        WithKeyEmpty(b, k);
      }
    }
  }

  /** Every arrival order of distinct chunks builds the same list. */
  lemma ArrivalOrderIrrelevant(a: seq<Event>, b: seq<Event>)
    requires DistinctKeys(a) && multiset(a) == multiset(b)
    ensures Build(a) == Build(b)
  {
    assert DistinctKeys(b) by {
      assert forall x :: x in a <==> x in multiset(a);
      assert forall x :: x in b <==> x in multiset(b);
    }
    InsertAllKeepsOrder([], a);
    InsertAllKeepsOrder([], b);
    PermutationSameKeys(a, b);
    forall k ensures WithKey(Build(a), k) == WithKey(Build(b), k) {
      BuildIsStable(a, k);
      BuildIsStable(b, k);
    }
    SortedDetermined(Build(a), Build(b));
  }

  /** Merging a built buffer is the same as having received its arrivals afterwards. */
  lemma MergeIsLaterArrival(a: seq<Event>, b: seq<Event>)
    ensures InsertAll(Build(a), Build(b)) == Build(a + b)
  {
    InsertAllKeepsOrder([], a);
    InsertAllKeepsOrder([], b);
    InsertAllKeepsOrder([], a + b);
    InsertAllKeepsOrder(Build(a), Build(b));
    hide InsertAll, WithKey, Insert;
    forall k ensures WithKey(InsertAll(Build(a), Build(b)), k) == WithKey(Build(a + b), k) {
      BuildIsStable(a, k);
      BuildIsStable(b, k);
      BuildIsStable(a + b, k);
      InsertAllIsStable(Build(a), Build(b), k);
      WithKeyConcat(a, b, k);
    }
    SortedDetermined(InsertAll(Build(a), Build(b)), Build(a + b));
  }

  /** With distinct chunks the two directions of a merge agree. */
  lemma MergeCommutes(a: seq<Event>, b: seq<Event>)
    requires DistinctKeys(a + b)
    ensures InsertAll(Build(a), Build(b)) == InsertAll(Build(b), Build(a))
  {
    MergeIsLaterArrival(a, b);
    MergeIsLaterArrival(b, a);
    ArrivalOrderIrrelevant(a + b, b + a);
  }

  /** A strictly sorted list is its own build, whatever order its events arrive in. */
  lemma BuildOfSorted(s: seq<Event>, arrivals: seq<Event>)
    requires StrictlySorted(s) && multiset(arrivals) == multiset(s)
    ensures Build(arrivals) == s
  {
    StrictlySortedIsDistinct(s);
    assert DistinctKeys(arrivals) by {
      assert forall x :: x in s <==> x in multiset(s);
      assert forall x :: x in arrivals <==> x in multiset(arrivals);
    }
    InsertAllKeepsOrder([], arrivals);
    PermutationSameKeys(arrivals, s);
    forall k ensures WithKey(Build(arrivals), k) == WithKey(s, k) {
      BuildIsStable(arrivals, k);
    }
    SortedDetermined(Build(arrivals), s);
  }
}
