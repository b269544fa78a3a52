/** Facts about sequences and sets, each proved once so that no other proof has to compare elements. */
module Seqs {

  function Min(a: nat, b: nat): nat {
    if a < b then a else b
  }

  /** `e` at place `k`. */
  function Inserted<T>(s: seq<T>, k: nat, e: T): seq<T>
    requires k <= |s|
  {
    s[..k] + [e] + s[k..]
  }

  lemma InsertedCons<T>(s: seq<T>, k: nat, e: T)
    requires k <= |s|
    ensures Inserted(s, k, e) == if k == 0 then [e] + s else [s[0]] + Inserted(s[1..], k - 1, e)
  {
  }

  lemma LeftUnit<T>(a: seq<T>, b: seq<T>)
    requires a == []
    ensures a + b == b
  {
  }

  lemma RightUnit<T>(a: seq<T>)
    ensures a + [] == a
  {
  }

  lemma Assoc<T>(a: seq<T>, b: seq<T>, c: seq<T>)
    ensures (a + b) + c == a + (b + c)
  {
  }

  lemma TailOfConcat<T>(a: seq<T>, b: seq<T>)
    requires a != []
    ensures (a + b)[0] == a[0] && (a + b)[1..] == a[1..] + b
  {
  }

  lemma TailOfCons<T>(x: T, a: seq<T>)
    ensures ([x] + a)[0] == x && ([x] + a)[1..] == a
  {
  }

  lemma FrontAndRest<T>(a: seq<T>)
    requires a != []
    ensures [a[0]] + a[1..] == a
  {
  }

  lemma DropConcat<T>(a: seq<T>, b: seq<T>, n: nat)
    requires n <= |a|
    ensures (a + b)[n..] == a[n..] + b
  {
  }

  lemma TakeConcat<T>(a: seq<T>, b: seq<T>, n: nat)
    requires |a| <= n <= |a| + |b|
    ensures (a + b)[..n] == a + b[..n - |a|]
  {
  }

  lemma TakeFront<T>(a: seq<T>, b: seq<T>, n: nat)
    requires n <= |a|
    ensures (a + b)[..n] == a[..n]
  {
  }

  lemma TakeAll<T>(a: seq<T>)
    ensures a[..|a|] == a
  {
  }

  lemma DropEnds<T>(a: seq<T>)
    ensures a[0..] == a && a[|a|..] == []
  {
  }

  lemma DropNext<T>(a: seq<T>, i: nat)
    requires i < |a|
    ensures a[i..] != [] && a[i..][0] == a[i] && a[i..][1..] == a[i + 1..]
  {
  }

  lemma SomeMember(s: set<int>)
    ensures s == {} || exists x :: x in s
  {
    if forall x :: x !in s {
      assert s == {};
    }
  }

  /** Places in a sequence of length `n`, in order. */
  ghost predicate Places(at: seq<nat>, n: nat) {
    (forall i | 0 <= i < |at| :: at[i] < n) && forall i, j | 0 <= i < j < |at| :: at[i] < at[j]
  }

  lemma PlacesMore(at: seq<nat>, n: nat)
    requires Places(at, n)
    ensures Places(at, n + 1) && Places(at + [n], n + 1)
    ensures n !in at && forall i: nat :: i in at + [n] <==> i in at || i == n
  {
  }

  /** `r` is what is left of `s` when exactly the members that `keep` says are kept, in order; `at` are their places. */
  ghost predicate Selects<T(!new)>(at: seq<nat>, r: seq<T>, s: seq<T>, keep: T -> bool) {
    && Places(at, |s|) && |r| == |at|
    && (forall i | 0 <= i < |at| :: r[i] == s[at[i]])
    && (forall i: nat | i < |s| :: i in at <==> keep(s[i]))
  }

  ghost predicate IsSelection<T(!new)>(r: seq<T>, s: seq<T>, keep: T -> bool) {
    exists at: seq<nat> :: Selects(at, r, s, keep)
  }

  lemma SelectionOfNone<T(!new)>(keep: T -> bool)
    ensures IsSelection([], [], keep)
  {
    assert Selects([], [], [], keep);
  }

  lemma SelectionMore<T(!new)>(r: seq<T>, s: seq<T>, x: T, keep: T -> bool)
    requires IsSelection(r, s, keep)
    ensures IsSelection(if keep(x) then r + [x] else r, s + [x], keep)
  {
    hide Selects;
    var at: seq<nat> :| Selects(at, r, s, keep);
    if keep(x) {
      SelectsKept(at, r, s, x, keep);
    } else {
      SelectsDropped(at, r, s, x, keep);
    }
  }

  lemma SelectsKept<T(!new)>(at: seq<nat>, r: seq<T>, s: seq<T>, x: T, keep: T -> bool)
    requires Selects(at, r, s, keep) && keep(x)
    ensures Selects(at + [|s|], r + [x], s + [x], keep)
  {
    PlacesMore(at, |s|);
    var t, n := s + [x], |s|;
    assert t[n] == x && forall i | 0 <= i < n :: t[i] == s[i];
  }

  lemma SelectsDropped<T(!new)>(at: seq<nat>, r: seq<T>, s: seq<T>, x: T, keep: T -> bool)
    requires Selects(at, r, s, keep) && !keep(x)
    ensures Selects(at, r, s + [x], keep)
  {
    PlacesMore(at, |s|);
    var t, n := s + [x], |s|;
    assert t[n] == x && forall i | 0 <= i < n :: t[i] == s[i];
  }
}
