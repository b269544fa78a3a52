/** The detail events of a buffer, kept in data id order, and the deletions by data id. */
module Details {
  import opened Seqs

  datatype Detail = Detail(dataId: nat, time: nat)

  /** The data ids `from..to`; the last one counts only when its buffer was read to the end. */
  datatype IdRange = IdRange(from: nat, to: nat, finished: bool) {
    predicate Covers(d: Detail) {
      from <= d.dataId <= to && (finished || d.dataId != to)
    }
  }

  ghost predicate SortedDetails(ds: seq<Detail>) {
    forall i, j | 0 <= i < j < |ds| :: ds[i].dataId <= ds[j].dataId
  }

  /** `d` goes before the first detail with a greater data id. */
  function InsertDetail(ds: seq<Detail>, d: Detail): seq<Detail> {
    if ds == [] || ds[0].dataId > d.dataId then [d] + ds else [ds[0]] + InsertDetail(ds[1..], d)
  }

  function InsertAllDetails(ds: seq<Detail>, more: seq<Detail>): seq<Detail>
    decreases |more|
  {
    if more == [] then ds else InsertAllDetails(InsertDetail(ds, more[0]), more[1..])
  }

  /** The details that `r` does not cover. */
  function Without(ds: seq<Detail>, r: IdRange): seq<Detail> {
    if ds == [] then [] else (if r.Covers(ds[0]) then [] else [ds[0]]) + Without(ds[1..], r)
  }

  lemma {:induction false} InsertDetailSplit(ds: seq<Detail>, d: Detail, k: nat)
    requires k <= |ds|
    requires forall i | 0 <= i < k :: ds[i].dataId <= d.dataId
    requires k < |ds| ==> ds[k].dataId > d.dataId
    ensures InsertDetail(ds, d) == Inserted(ds, k, d)
  {
    hide Inserted;
    InsertedCons(ds, k, d);
    if k > 0 {
      InsertDetailSplit(ds[1..], d, k - 1);
    }
  }

  lemma {:induction false} InsertDetailKeepsOrder(ds: seq<Detail>, d: Detail)
    requires SortedDetails(ds)
    ensures SortedDetails(InsertDetail(ds, d))
    ensures multiset(InsertDetail(ds, d)) == multiset(ds) + multiset{d}
  {
    InsertDetailAddsOne(ds, d);
    if ds != [] && ds[0].dataId <= d.dataId {
      InsertDetailKeepsOrder(ds[1..], d);
      NoneBelow(ds[1..], d, InsertDetail(ds[1..], d), ds[0].dataId);
    }
  }

  lemma {:induction false} InsertDetailAddsOne(ds: seq<Detail>, d: Detail)
    ensures multiset(InsertDetail(ds, d)) == multiset(ds) + multiset{d}
  {
    if ds != [] && ds[0].dataId <= d.dataId {
      InsertDetailAddsOne(ds[1..], d);
      assert ds == [ds[0]] + ds[1..];
    }
  }

  lemma NoneBelow(ds: seq<Detail>, d: Detail, t: seq<Detail>, low: nat)
    requires multiset(t) == multiset(ds) + multiset{d} && low <= d.dataId && forall x | x in ds :: low <= x.dataId
    ensures forall i | 0 <= i < |t| :: low <= t[i].dataId
  {
    forall i | 0 <= i < |t| ensures low <= t[i].dataId {
      assert t[i] in multiset(t);
    }
  }

  lemma {:induction false} WithoutConcat(a: seq<Detail>, b: seq<Detail>, r: IdRange)
    ensures Without(a + b, r) == Without(a, r) + Without(b, r)
  {
    if a == [] {
      LeftUnit(a, b);
      LeftUnit(Without(a, r), Without(b, r));
    } else {
      TailOfConcat(a, b);
      WithoutConcat(a[1..], b, r);
      Assoc(if r.Covers(a[0]) then [] else [a[0]], Without(a[1..], r), Without(b, r));
    }
  }

  lemma {:induction false} WithoutOutside(ds: seq<Detail>, r: IdRange)
    requires forall d | d in ds :: !r.Covers(d)
    ensures Without(ds, r) == ds
  {
    if ds != [] {
      WithoutOutside(ds[1..], r);
    }
  }

  lemma {:induction false} WithoutSorted(ds: seq<Detail>, r: IdRange)
    requires SortedDetails(ds)
    ensures SortedDetails(Without(ds, r))
  {
    if ds != [] {
      WithoutSorted(ds[1..], r);
      WithoutFrom(ds[1..], r, ds[0].dataId);
    }
  }

  lemma {:induction false} WithoutFrom(ds: seq<Detail>, r: IdRange, low: nat)
    requires forall i | 0 <= i < |ds| :: low <= ds[i].dataId
    ensures forall i | 0 <= i < |Without(ds, r)| :: low <= Without(ds, r)[i].dataId
  {
    if ds != [] {
      WithoutFrom(ds[1..], r, low);
    }
  }

  lemma WithoutNext(ds: seq<Detail>, k: nat, r: IdRange)
    requires k < |ds|
    ensures Without(ds[..k + 1], r) == Without(ds[..k], r) + if r.Covers(ds[k]) then [] else [ds[k]]
  {
    assert ds[..k + 1] == ds[..k] + [ds[k]];
    WithoutConcat(ds[..k], [ds[k]], r);
    assert Without([ds[k]], r) == (if r.Covers(ds[k]) then [] else [ds[k]]) + Without([], r);
  }

  /** What stays: exactly the details outside the range, and those at its upper end if that is not finished. */
  ghost predicate Outside(kept: seq<Detail>, ds: seq<Detail>, r: IdRange) {
    IsSelection(kept, ds, (d: Detail) => d.dataId < r.from || d.dataId > r.to || (d.dataId == r.to && !r.finished))
  }

  lemma {:induction false} WithoutIsOutside(ds: seq<Detail>, r: IdRange)
    ensures Outside(Without(ds, r), ds, r)
  {
    hide Without, IsSelection;
    var keep := (d: Detail) => d.dataId < r.from || d.dataId > r.to || (d.dataId == r.to && !r.finished);
    if ds == [] {
      WithoutNone(r);
      SelectionOfNone(keep);
    } else {
      var n := |ds| - 1;
      WithoutIsOutside(ds[..n], r);
      WithoutNext(ds, n, r);
      SelectionMore(Without(ds[..n], r), ds[..n], ds[n], keep);
      RightUnit(Without(ds[..n], r));
      assert ds[..n + 1] == ds && ds[..n] + [ds[n]] == ds;
    }
  }

  lemma WithoutNone(r: IdRange)
    ensures Without([], r) == []
  {
  }

  /** One element taken out at place `i`. */
  function Removed<T>(s: seq<T>, i: nat): seq<T>
    requires i < |s|
  {
    s[..i] + s[i + 1..]
  }

  /** The list when the first `k` details have been dealt with. */
  ghost function Kept(ds: seq<Detail>, k: nat, r: IdRange): seq<Detail>
    requires k <= |ds|
  {
    Without(ds[..k], r) + ds[k..]
  }

  /** How many of the first `k` details stay. */
  ghost function Stayed(ds: seq<Detail>, k: nat, r: IdRange): nat
    requires k <= |ds|
  {
    |Without(ds[..k], r)|
  }

  lemma KeptStart(ds: seq<Detail>, r: IdRange)
    ensures Kept(ds, 0, r) == ds && Stayed(ds, 0, r) == 0
  {
  }

  lemma KeptStep(ds: seq<Detail>, k: nat, r: IdRange)
    requires k < |ds|
    ensures var e := Stayed(ds, k, r);
      && e < |Kept(ds, k, r)| && Kept(ds, k, r)[e] == ds[k]
      && (r.Covers(ds[k]) ==> Stayed(ds, k + 1, r) == e && Kept(ds, k + 1, r) == Removed(Kept(ds, k, r), e))
      && (!r.Covers(ds[k]) ==> Stayed(ds, k + 1, r) == e + 1 && Kept(ds, k + 1, r) == Kept(ds, k, r))
  {
    WithoutNext(ds, k, r);
    hide Without;
    RemovedMiddle(Without(ds[..k], r), ds, k);
  }

  lemma RemovedMiddle<T>(a: seq<T>, b: seq<T>, k: nat)
    requires k < |b|
    ensures |a| < |a + b[k..]| && (a + b[k..])[|a|] == b[k]
    ensures Removed(a + b[k..], |a|) == a + b[k + 1..]
    ensures (a + [b[k]]) + b[k + 1..] == a + b[k..]
  {
  }

  lemma KeptEnd(ds: seq<Detail>, k: nat, r: IdRange)
    requires k <= |ds| && forall i | k <= i < |ds| :: !r.Covers(ds[i])
    ensures Kept(ds, k, r) == Without(ds, r)
  {
    assert ds == ds[..k] + ds[k..];
    WithoutConcat(ds[..k], ds[k..], r);
    WithoutOutside(ds[k..], r);
  }

  lemma KeptFull(ds: seq<Detail>, k: nat, r: IdRange)
    requires k <= |ds|
    ensures |Kept(ds, k, r)| == Stayed(ds, k, r) + |ds| - k
  {
  }

  /** The early-exit deletion of `DeleteDetails` over a sorted list is the plain filter. */
  method DeleteCovered(details: seq<Detail>, r: IdRange) returns (kept: seq<Detail>)
    requires SortedDetails(details)
    ensures kept == Without(details, r) && Outside(kept, details, r)
  {
    hide Without, Removed, Kept, Stayed, Outside;
    WithoutIsOutside(details, r);
    kept := details;
    var e, stop := 0, false;
    ghost var k := 0;
    KeptStart(details, r);
    KeptFull(details, 0, r);
    while e < |kept| && !stop
      invariant 0 <= k <= |details| && e == Stayed(details, k, r) && kept == Kept(details, k, r)
      invariant |kept| == e + |details| - k
      invariant stop ==> k < |details| && !r.finished && details[k].dataId == r.to
      decreases |details| - k, !stop
    {
      KeptStep(details, k, r);
      var dataId := kept[e].dataId;
      if r.from <= dataId <= r.to && !r.finished && dataId == r.to {
        stop := true;
      } else {
        if r.from <= dataId <= r.to {
          kept := Removed(kept, e);
        } else {
          e := e + 1;
        }
        k := k + 1;
        KeptFull(details, k, r);
      }
    }
    KeptEnd(details, k, r);
  }

  /** The details deletion of one removal of read elements: skip to the first covered detail, then
      delete until one is past the range. */
  method DeleteRead(details: seq<Detail>, first: nat, last: nat, unfinished: bool) returns (kept: seq<Detail>)
    requires SortedDetails(details)
    ensures kept == if first == last && unfinished then details else Without(details, IdRange(first, last, true))
  {
    hide Without, Removed, Kept, Stayed;
    var r := IdRange(first, last, true);
    kept := details;
    if first == last && unfinished {
      return;
    }
    var e, startDelete, stop := 0, false, false;
    ghost var k := 0;
    KeptStart(details, r);
    KeptFull(details, 0, r);
    while e < |kept| && !stop
      invariant 0 <= k <= |details| && e == Stayed(details, k, r) && kept == Kept(details, k, r)
      invariant |kept| == e + |details| - k
      invariant startDelete ==> k > 0 && first <= details[k - 1].dataId
      invariant stop ==> k < |details| && details[k].dataId > last
      decreases |details| - k, !stop
    {
      KeptStep(details, k, r);
      var event := kept[e];
      if !startDelete && first <= event.dataId <= last {
        startDelete := true;
      } else if startDelete && event.dataId > last {
        stop := true;
      }
      if !stop {
        if startDelete {
          kept := Removed(kept, e);
        } else {
          e := e + 1;
        }
        k := k + 1;
        KeptFull(details, k, r);
      }
    }
    KeptEnd(details, k, r);
  }
}
