/** The data list as a sequence of elements with identity, positions in it, and what insertion and
    removal do to the cursor behind a position. */
module Lists {
  import opened Events
  import opened Options
  import opened Ordering
  import opened Seqs
  import opened Details

  /** One element of the data list. The id is its identity: two elements may carry equal events and
      still be different elements. */
  datatype Element = Element(id: nat, value: Event)

  datatype Position = Position(element: Option<Element>, index: nat)

  ghost predicate Distinct(l: seq<Element>) {
    forall i, j | 0 <= i < j < |l| :: l[i].id != l[j].id
  }

  function Values(l: seq<Element>): (vs: seq<Event>)
    ensures |vs| == |l|
  {
    seq(|l|, i requires 0 <= i < |l| => l[i].value)
  }

  /** Index of `e` in the list; the length of the list if it is not there. */
  function Place(l: seq<Element>, e: Option<Element>): (i: nat)
    ensures i <= |l|
    ensures i < |l| ==> Some(l[i]) == e
    ensures i == |l| && e.Some? ==> e.value !in l
  {
    if l == [] then 0 else if Some(l[0]) == e then 0 else 1 + Place(l[1..], e)
  }

  /** The elements after `e`; none if `e` is not in the list. */
  function After(l: seq<Element>, e: Option<Element>): seq<Element> {
    var i := Place(l, e);
    if i < |l| then l[i + 1..] else []
  }

  function Next(l: seq<Element>, e: Option<Element>): Option<Element> {
    var rest := After(l, e);
    if rest == [] then None else Some(rest[0])
  }

  lemma AfterAt(l: seq<Element>, i: nat)
    requires Distinct(l) && i < |l|
    ensures Place(l, Some(l[i])) == i
    ensures After(l, Some(l[i])) == l[i + 1..]
  {
    assert l[Place(l, Some(l[i]))].id == l[i].id;
  }

  lemma AfterAbsent(l: seq<Element>, e: Option<Element>)
    requires e.None? || e.value !in l
    ensures Place(l, e) == |l|
    ensures After(l, e) == []
  {
  }

  lemma AfterNext(l: seq<Element>, e: Option<Element>)
    requires Distinct(l) && After(l, e) != []
    ensures var next := After(l, e)[0];
            next in l && After(l, Some(next)) == After(l, e)[1..] && Some(next) != e
  {
    if e.None? || e.value !in l {
      AfterAbsent(l, e);
    } else {
      var i :| 0 <= i < |l| && l[i] == e.value;
      AfterAt(l, i);
      AfterAt(l, i + 1);
    }
  }

  /** Where `p` and, behind it, `q` stand in the list. */
  lemma FindAfter(l: seq<Element>, p: Element, q: Element) returns (i: nat, j: nat)
    requires Distinct(l) && q in After(l, Some(p))
    ensures i < j < |l| && l[i] == p && l[j] == q
    ensures After(l, Some(p)) == l[i + 1..] && After(l, Some(q)) == l[j + 1..]
  {
    i := Place(l, Some(p));
    j :| i < j < |l| && l[j] == q;
    AfterAt(l, j);
  }

  lemma ValuesTail(l: seq<Element>)
    requires l != []
    ensures Values(l[1..]) == Values(l)[1..] && Values(l)[0] == l[0].value
  {
  }

  lemma NextValue(l: seq<Element>, e: Option<Element>)
    ensures Next(l, e).None? <==> Values(After(l, e)) == []
    ensures Next(l, e).Some? ==> Values(After(l, e))[0] == Next(l, e).value.value
  {
  }

  /** The cursor behind a position in the list. */
  function CursorIn(l: seq<Element>, p: Position): Cursor
    requires p.element.Some?
  {
    Cursor(p.element.value.value, p.index, Values(After(l, p.element)))
  }

  /** `q` is at or after `p` in the list. */
  ghost predicate Reaches(l: seq<Element>, p: Position, q: Position)
  {
    p.element.Some? && q.element.Some? &&
    if p.element == q.element then p.index <= q.index else q.element.value in After(l, p.element)
  }

  lemma NextCursor(l: seq<Element>, p: Position)
    requires Distinct(l) && p.element.Some? && p.index <= p.element.value.value.Len()
    ensures var next := Next(l, p.element);
      && |CursorIn(l, p).Unread()| == p.element.value.value.Len() - p.index
                                   + (if next.None? then 0 else |CursorIn(l, Position(next, 0)).Unread()|)
      && (next.Some? ==> |After(l, next)| < |After(l, p.element)|)
  {
    hide Flatten, Values, Place, Distinct;
    var c := CursorIn(l, p);
    c.UnreadParts();
    NextValue(l, p.element);
    if After(l, p.element) != [] {
      AfterNext(l, p.element);
      ValuesTail(After(l, p.element));
      assert CursorIn(l, Position(Next(l, p.element), 0)) == c.Step();
    }
    hide After, Next;
    HereSize(c);
  }

  lemma MoveCursor(l: seq<Element>, p: Position, n: nat)
    requires p.element.Some? && p.index + n < p.element.value.value.Len()
    ensures |CursorIn(l, p).Unread()| == n + |CursorIn(l, Position(p.element, p.index + n)).Unread()|
    ensures CursorIn(l, Position(p.element, p.index + n)).Unread() != []
  {
  }

  /** What is unread at a later position is a suffix of what is unread at an earlier one. */
  lemma ReachedSuffix(l: seq<Element>, p: Position, q: Position)
    requires Distinct(l) && Reaches(l, p, q)
    requires p.index <= p.element.value.value.Len() && q.index <= q.element.value.value.Len()
    ensures |CursorIn(l, q).Unread()| <= |CursorIn(l, p).Unread()|
    ensures IsSuffix(CursorIn(l, q).Unread(), CursorIn(l, p).Unread(), |CursorIn(l, p).Unread()| - |CursorIn(l, q).Unread()|)
  {
    hide Flatten, After, Values, Place, Distinct, Cursor.Unread, Cursor.Here;
    if p.element == q.element {
      var n := q.index - p.index;
      var c, d := CursorIn(l, p), CursorIn(l, q);
      HereSize(c);
      c.UnreadMove(n);
      assert d == c.(index := c.index + n);
    } else {
      ReachedSuffixLater(l, p, q);
    }
  }

  lemma HereSize(c: Cursor)
    requires c.index <= c.event.Len()
    ensures |c.Here()| == c.event.Len() - c.index
  {
  }

  lemma ReachedSuffixLater(l: seq<Element>, p: Position, q: Position)
    requires Distinct(l) && p.element.Some? && q.element.Some? && q.element.value in After(l, p.element)
    requires p.index <= p.element.value.value.Len() && q.index <= q.element.value.value.Len()
    ensures |CursorIn(l, q).Unread()| <= |CursorIn(l, p).Unread()|
    ensures IsSuffix(CursorIn(l, q).Unread(), CursorIn(l, p).Unread(), |CursorIn(l, p).Unread()| - |CursorIn(l, q).Unread()|)
  {
    hide Flatten, After, Values, IsSuffix, Distinct;
    var i, j := FindAfter(l, p.element.value, q.element.value);
    ValuesAround(l, i + 1, j);
    FlattenAround(Values(l[i + 1..j]), q.element.value.value, q.index, Values(l[j + 1..]));
    SuffixOfConcat(CursorIn(l, p).Here(), Flatten(Values(l[i + 1..])), CursorIn(l, q).Unread());
  }

  lemma ValuesAround(l: seq<Element>, i: nat, j: nat)
    requires i <= j < |l|
    ensures Values(l[i..]) == Values(l[i..j]) + [l[j].value] + Values(l[j + 1..])
  {
  }

  lemma SuffixOfConcat(front: seq<Byte>, all: seq<Byte>, tail: seq<Byte>)
    requires |tail| <= |all| && IsSuffix(tail, all, |all| - |tail|)
    ensures IsSuffix(tail, front + all, |front + all| - |tail|)
  {
  }

  lemma ReachesSelf(l: seq<Element>, p: Position)
    ensures p.element.Some? ==> Reaches(l, p, p)
  {
  }

  lemma ReachedForward(l: seq<Element>, p: Position, q: Position, q': Position)
    requires Reaches(l, p, q) && q'.element == q.element && q.index <= q'.index
    ensures Reaches(l, p, q')
  {
  }

  lemma NextReached(l: seq<Element>, p: Position, q: Position)
    requires Distinct(l) && Reaches(l, p, q)
    ensures var next := Next(l, q.element); next.Some? ==> Reaches(l, p, Position(next, 0))
  {
    if Next(l, q.element).Some? {
      AfterNext(l, q.element);
      if p.element.value !in l {
        AfterAbsent(l, p.element);
      } else {
        var i :| 0 <= i < |l| && l[i] == p.element.value;
        AfterAt(l, i);
        var j :| i <= j < |l| && l[j] == q.element.value;
        AfterAt(l, j);
      }
    }
  }


  /** The list without the elements `h..m`. */
  function Cut(l: seq<Element>, h: nat, m: nat): seq<Element>
    requires h <= m <= |l|
  {
    l[..h] + l[m..]
  }

  lemma CutNothing(l: seq<Element>, h: nat)
    requires h < |l|
    ensures Cut(l, h, h) == l
  {
  }

  /** Removing the first element behind the cut `h..m` moves the cut on by one. */
  lemma CutStep(l: seq<Element>, h: nat, m: nat)
    requires Distinct(l) && h <= m < |l|
    ensures var d := Cut(l, h, m);
      && Place(d, Some(l[m])) == h < |d|
      && Removed(d, h) == Cut(l, h, m + 1)
      && Next(d, Some(l[m])) == Next(l, Some(l[m])) == if m + 1 < |l| then Some(l[m + 1]) else None
  {
    var d := Cut(l, h, m);
    AfterAt(l, m);
    assert Distinct(d) && d[h] == l[m];
    AfterAt(d, h);
    assert d[h + 1..] == l[m + 1..];
  }

  /** Behind a cut nothing changes: what is unread from the new head is what was unread at `c`. */
  lemma CutKeepsUnread(l: seq<Element>, h: nat, c: nat, index: nat)
    requires Distinct(l) && h <= c < |l|
    ensures CursorIn(Cut(l, h, c), Position(Some(l[c]), index)) == CursorIn(l, Position(Some(l[c]), index))
    ensures index == l[c].value.Len() ==>
      var next := Next(l, Some(l[c]));
      CursorIn(l, Position(Some(l[c]), index)).Unread()
      == if next.None? then [] else CursorIn(Cut(l, h, c + 1), Position(next, 0)).Unread()
  {
    hide Values, Flatten, After, Place, Cut, Next, Removed, Distinct, Cursor.Unread;
    CutStep(l, h, c);
    AfterAt(l, c);
    AfterInCut(l, h, c, c);
    var cur := CursorIn(l, Position(Some(l[c]), index));
    if index == l[c].value.Len() {
      cur.UnreadParts();
      NextValue(l, Some(l[c]));
      HereSize(cur);
      if c + 1 < |l| {
        AfterInCut(l, h, c + 1, c + 1);
        ValuesTail(l[c + 1..]);
        assert l[c + 1..][1..] == l[c + 2..];
        LeftUnit(cur.Here(), cur.Step().Unread());
        assert cur.Step() == CursorIn(Cut(l, h, c + 1), Position(Some(l[c + 1]), 0));
      }
    }
  }

  lemma AfterInCut(l: seq<Element>, h: nat, m: nat, j: nat)
    requires Distinct(l) && h <= m <= j < |l|
    ensures After(Cut(l, h, m), Some(l[j])) == l[j + 1..]
  {
    var d := Cut(l, h, m);
    assert Distinct(d) && d[h + j - m] == l[j];
    AfterAt(d, h + j - m);
    assert d[h + j - m + 1..] == l[j + 1..];
  }

  lemma LastIsLargest(l: seq<Element>, event: Event)
    requires l != [] && Sorted(Values(l)) && l[|l| - 1].value.dataId < event.dataId
    ensures forall i | 0 <= i < |l| :: !Before(event, l[i].value)
  {
    forall i | 0 <= i < |l| - 1 ensures !Before(event, l[i].value) {
      assert !Before(Values(l)[|l| - 1], Values(l)[i]);
    }
  }

  /** Inserting an element is inserting its event. */
  lemma InsertedElement(l: seq<Element>, k: nat, e: Element)
    requires Distinct(l) && Sorted(Values(l)) && k <= |l|
    requires forall x | x in l :: x.id < e.id
    requires forall i | 0 <= i < k :: !Before(e.value, l[i].value)
    requires k < |l| ==> Before(e.value, l[k].value)
    ensures Distinct(Inserted(l, k, e)) && forall x | x in Inserted(l, k, e) :: x in l || x == e
    ensures Values(Inserted(l, k, e)) == Insert(Values(l), e.value)
    ensures Sorted(Values(Inserted(l, k, e)))
  {
    hide Sorted, Insert;
    InsertSplit(Values(l), e.value, k);
    InsertKeepsOrder(Values(l), e.value);
    assert Values(Inserted(l, k, e)) == Inserted(Values(l), k, e.value);
  }

  /** A cursor after the insertion of `e`: it has `e` still to read exactly if that belongs behind its event. */
  function Extended(c: Cursor, e: Event): Cursor {
    if Before(e, c.event) then c else c.(rest := Insert(c.rest, e))
  }

  lemma CursorAfterInsert(l: seq<Element>, k: nat, e: Element, p: Position)
    requires Distinct(l) && Sorted(Values(l)) && k <= |l| && p.element.Some?
    requires forall x | x in l :: x.id < e.id
    requires forall i | 0 <= i < k :: !Before(e.value, l[i].value)
    requires k < |l| ==> Before(e.value, l[k].value)
    ensures p.element.value in l ==>
      CursorIn(Inserted(l, k, e), p)
      == Extended(CursorIn(l, p), e.value)
  {
    hide Insert, Inserted, Values, After, Place, Distinct, Sorted;
    if p.element.value in l {
      var c := Place(l, p.element);
      AfterAt(l, c);
      InsertPlace(l, k, e, c);
      if k <= c {
        AfterInserted(l, k, e, c);
      } else {
        AfterInserted(l, k, e, c);
        SortedTail(l, c + 1);
        InsertedElement(l[c + 1..], k - c - 1, e);
      }
    }
  }

  lemma InsertPlace(l: seq<Element>, k: nat, e: Element, c: nat)
    requires Sorted(Values(l)) && k <= |l| && c < |l|
    requires forall i | 0 <= i < k :: !Before(e.value, l[i].value)
    requires k < |l| ==> Before(e.value, l[k].value)
    ensures k <= c <==> Before(e.value, l[c].value)
  {
    assert Values(l)[c] == l[c].value;
    if k < c {
      assert !Before(Values(l)[c], Values(l)[k]);
    }
  }

  lemma AfterInserted(l: seq<Element>, k: nat, e: Element, c: nat)
    requires Distinct(l) && k <= |l| && c < |l| && forall x | x in l :: x.id < e.id
    ensures After(Inserted(l, k, e), Some(l[c])) == if k <= c then l[c + 1..] else Inserted(l[c + 1..], k - c - 1, e)
  {
    hide After, Place, Inserted, Distinct;
    InsertedDistinct(l, k, e);
    InsertedTail(l, k, e, c);
    AfterAt(Inserted(l, k, e), if k <= c then c + 1 else c);
  }

  lemma InsertedDistinct(l: seq<Element>, k: nat, e: Element)
    requires Distinct(l) && k <= |l| && forall x | x in l :: x.id < e.id
    ensures Distinct(Inserted(l, k, e)) && |Inserted(l, k, e)| == |l| + 1
  {
  }

  lemma InsertedTail<T>(l: seq<T>, k: nat, e: T, c: nat)
    requires k <= |l| && c < |l|
    ensures |Inserted(l, k, e)| == |l| + 1
    ensures Inserted(l, k, e)[if k <= c then c + 1 else c] == l[c]
    ensures Inserted(l, k, e)[(if k <= c then c + 1 else c) + 1..]
         == if k <= c then l[c + 1..] else Inserted(l[c + 1..], k - c - 1, e)
  {
    if k <= c {
      assert Inserted(l, k, e)[c + 2..] == l[c + 1..];
    } else {
      assert Inserted(l, k, e)[c + 1..] == Inserted(l[c + 1..], k - c - 1, e);
    }
  }

  lemma SortedTail(l: seq<Element>, n: nat)
    requires n <= |l| && Distinct(l) && Sorted(Values(l))
    ensures Distinct(l[n..]) && Sorted(Values(l[n..]))
  {
    assert forall i | 0 <= i < |l| - n :: Values(l[n..])[i] == Values(l)[n + i];
  }

  lemma RemovedSize<T>(s: seq<T>)
    ensures forall i: nat | i < |s| :: |Removed(s, i)| == |s| - 1
  {
  }

  lemma NextInList(l: seq<Element>, e: Option<Element>)
    ensures Next(l, e).Some? ==> Next(l, e).value in l
    ensures Place(l, e) == |l| ==> Next(l, e).None?
  {
  }

  /** The details left after a removal up to `current`: those of the read data ids go, unless they are
      one data id that is not read to the end. */
  function ReadDetails(details: seq<Detail>, first: nat, current: Position): seq<Detail>
    requires current.element.Some?
  {
    var cur := current.element.value.value;
    if first == cur.dataId && cur.Len() != current.index then details
    else Without(details, IdRange(first, cur.dataId, true))
  }

  /** A cursor that started at `c0` has handed out the pieces `done` and still owes `left` of `n` bytes. */
  ghost predicate Progress(validated: bool, c0: Cursor, c: Cursor, n: nat, left: nat, done: seq<seq<Byte>>) {
    && left <= n && n - left <= |c0.Readable(validated)|
    && c.Readable(validated) == c0.Readable(validated)[n - left..]
    && c.Stop(validated) == c0.Stop(validated)
    && c0.Pieces(validated, n) == done + c.Pieces(validated, left)
  }

  lemma ProgressStart(validated: bool, c: Cursor, n: nat)
    ensures Progress(validated, c, c, n, n, [])
  {
    hide Cursor.Readable, Cursor.Stop, Cursor.Pieces;
  }

  lemma ProgressEnd(validated: bool, c0: Cursor, c: Cursor, n: nat, left: nat, done: seq<seq<Byte>>)
    requires Progress(validated, c0, c, n, left, done)
    ensures c.Stop(validated) == c0.Stop(validated)
    ensures left == 0 ==> n <= |c0.Readable(validated)| && c.Readable(validated) == c0.Readable(validated)[n..]
    ensures left == 0 ==> c0.Pieces(validated, n) == done
    ensures left > 0 && c.Readable(validated) == [] ==> |c0.Readable(validated)| < n
  {
    hide Cursor.Readable, Cursor.Stop;
    assert c.Pieces(validated, 0) == [];
  }

  lemma SpliceNothing(dest: seq<Byte>, piece: seq<Byte>)
    requires piece == []
    ensures Splice(dest, 0, piece) == dest
  {
  }

  lemma OverwriteNothing(dest: seq<Byte>)
    ensures Overwrite(dest, []) == dest
  {
  }

  lemma ProgressStep(validated: bool, c0: Cursor, c: Cursor, n: nat, left: nat, done: seq<seq<Byte>>, m: nat)
    returns (done': seq<seq<Byte>>)
    requires Progress(validated, c0, c, n, left, done) && left > 0
    requires c.CanRead(validated) && m == Min(left, |c.NextPiece(validated)|)
    ensures m <= |c.Readable(validated)|
    ensures done' == if m == 0 then done else done + [c.Readable(validated)[..m]]
    ensures Progress(validated, c0, c.Taken(m), n, left - m, done')
    ensures m == 0 ==> |c.Taken(m).rest| < |c.rest|
  {
    hide Cursor.Readable, Cursor.Stop, Cursor.Pieces;
    c.TakeAdvances(validated, m);
    c.PiecesTaken(validated, left, m);
    done' := if m == 0 then done else done + [c.Readable(validated)[..m]];
  }

  lemma FlattenAround(before: seq<Event>, e: Event, index: nat, later: seq<Event>)
    requires index <= e.Len()
    ensures var all, tail := Flatten(before + [e] + later), e.data[index..] + Flatten(later);
            |tail| <= |all| && IsSuffix(tail, all, |all| - |tail|)
  {
    FlattenConcat(before + [e], later);
    FlattenLast(before, e);
    hide Flatten;
    var front := Flatten(before) + e.data[..index];
    assert Flatten(before + [e] + later) == front + (e.data[index..] + Flatten(later));
  }

  ghost predicate IsSuffix(v: seq<Byte>, u: seq<Byte>, k: nat) {
    k <= |u| && v == u[k..]
  }

  ghost predicate SamePrefix(s: seq<Byte>, r: seq<Byte>, n: nat) {
    n <= |s| && n <= |r| && s[..n] == r[..n]
  }

  lemma PeekStart(p: seq<Byte>, r: seq<Byte>)
    ensures SamePrefix(p, r, 0) && IsSuffix(r, r, 0)
  {
  }

  lemma SuffixSize(v: seq<Byte>, r: seq<Byte>, n: nat)
    requires IsSuffix(v, r, n)
    ensures n + |v| == |r|
  {
  }

  /** The next bytes are copied behind those that are there. */
  lemma PeekStep(was: seq<Byte>, p: seq<Byte>, r: seq<Byte>, n: nat, count: nat, v: seq<Byte>, rest: seq<Byte>)
    requires SamePrefix(was, r, n) && IsSuffix(v, r, n) && count <= |v| && n + count <= |was|
    requires p == Splice(was, n, v[..count]) && rest == v[count..]
    ensures n + count <= |r| && SamePrefix(p, r, n + count) && IsSuffix(rest, r, n + count)
  {
  }

  lemma PeekEnd(p: seq<Byte>, r: seq<Byte>, n: nat)
    requires SamePrefix(p, r, n) && n == |p| <= |r|
    ensures p == r[..n]
  {
  }

  /** The events a slice from `start` to `end` holds: those before the element of `end`, and that one cut
      off at the index of `end`. */
  ghost function SliceValues(l: seq<Element>, start: Position, end: Position): seq<Event>
    requires Reaches(l, start, end) && end.index <= end.element.value.value.Len()
  {
    var last := Limited(end.element.value.value, 0, end.index);
    if start.element == end.element then [last]
    else [start.element.value.value] + Values(Between(l, start.element, end.element)) + [last]
  }

  /** The elements strictly between `p` and `q`. */
  ghost function Between(l: seq<Element>, p: Option<Element>, q: Option<Element>): seq<Element> {
    var i, j := Place(l, p), Place(l, q);
    if i < j <= |l| then l[i + 1..j] else []
  }

  /** A slice reads as the bytes between its two ends: followed by what is unread at the end, they are
      what is unread at the start. */
  lemma SliceBytes(l: seq<Element>, start: Position, end: Position)
    requires Distinct(l) && Reaches(l, start, end)
    requires start.index <= start.element.value.value.Len() && end.index <= end.element.value.value.Len()
    ensures var vs := SliceValues(l, start, end);
      && vs != []
      && CursorIn(l, start).Unread() == Cursor(vs[0], start.index, vs[1..]).Unread() + CursorIn(l, end).Unread()
  {
    hide Flatten, Values, Place, Distinct;
    var vs := SliceValues(l, start, end);
    var e := end.element.value.value;
    var last := Limited(e, 0, end.index);
    var later := Flatten(Values(After(l, end.element)));
    if start.element == end.element {
      assert vs[1..] == [];
      FlattenNone();
      SplitEvent(e, start.index, end.index, later);
    } else {
      var i, j := FindAfter(l, start.element.value, end.element.value);
      AfterAt(l, i);
      AfterAt(l, j);
      var mid := Values(l[i + 1..j]);
      hide After;
      ValuesAround(l, i + 1, j);
      assert vs[1..] == mid + [last];
      FlattenLast(mid, last);
      FlattenLast(mid, e);
      FlattenConcat(mid + [e], Values(l[j + 1..]));
      var first := start.element.value.value.data[start.index..];
      SplitLast(first, Flatten(mid), e.data, end.index, later);
    }
  }

  lemma FlattenNone()
    ensures Flatten([]) == []
  {
  }

  lemma SplitEvent(e: Event, a: nat, b: nat, later: seq<Byte>)
    requires a <= b <= e.Len()
    ensures e.data[a..] + later == Limited(e, 0, b).data[a..] + [] + (e.data[b..] + later)
  {
  }

  lemma SplitLast(first: seq<Byte>, mid: seq<Byte>, data: seq<Byte>, b: nat, later: seq<Byte>)
    requires b <= |data|
    ensures first + ((mid + data) + later) == (first + (mid + data[0..b])) + (data[b..] + later)
  {
    assert data == data[0..b] + data[b..];
  }

  /** The bytes of the slice from a position to the one `k` bytes ahead are the next `k` bytes. */
  lemma SliceToOffset(l: seq<Element>, start: Position, end: Position, k: nat)
    requires Distinct(l) && Reaches(l, start, end)
    requires start.index <= start.element.value.value.Len() && end.index <= end.element.value.value.Len()
    requires IsSuffix(CursorIn(l, end).Unread(), CursorIn(l, start).Unread(), k)
    ensures var vs := SliceValues(l, start, end);
      vs != [] && Cursor(vs[0], start.index, vs[1..]).Readable(true) == CursorIn(l, start).Unread()[..k]
  {
    hide CursorIn, SliceValues, Cursor.Unread, Cursor.Readable;
    SliceBytes(l, start, end);
    var vs := SliceValues(l, start, end);
    Cursor(vs[0], start.index, vs[1..]).ValidatedReadsAll();
    FrontOfSuffix(CursorIn(l, start).Unread(), Cursor(vs[0], start.index, vs[1..]).Unread(), CursorIn(l, end).Unread(), k);
  }

  lemma FrontOfSuffix(u: seq<Byte>, front: seq<Byte>, tail: seq<Byte>, k: nat)
    requires u == front + tail && IsSuffix(tail, u, k)
    ensures front == u[..k]
  {
  }

  /** A list whose elements are numbered by place. */
  ghost predicate Numbered(l: seq<Element>) {
    forall i | 0 <= i < |l| :: l[i].id == i
  }

  lemma NumberedList(l: seq<Element>)
    requires Numbered(l)
    ensures Distinct(l) && forall e | e in l :: e.id < |l|
    ensures l != [] ==> Values(After(l, Some(l[0]))) == Values(l)[1..] && Values(l)[0] == l[0].value
  {
    if l != [] {
      AfterAt(l, 0);
    }
  }

  lemma PushValue(l: seq<Element>, e: Element)
    ensures Values(l + [e]) == Values(l) + [e.value]
  {
  }

  lemma ValuesStep(l: seq<Element>, i: nat, m: nat)
    requires i <= m < |l|
    ensures Values(l[i..m + 1]) == Values(l[i..m]) + [l[m].value]
  {
  }

  /** The events of a slice with two different ends, found at places `i` and `j`. */
  lemma SliceValuesAt(l: seq<Element>, start: Position, end: Position, i: nat, j: nat)
    requires Distinct(l) && i < j < |l| && start.element == Some(l[i]) && end.element == Some(l[j])
    requires end.index <= end.element.value.value.Len()
    ensures Reaches(l, start, end)
    ensures SliceValues(l, start, end) == Values(l[i..j]) + [Limited(end.element.value.value, 0, end.index)]
  {
    hide Values, Distinct, Place, After;
    AfterAt(l, i);
    AfterAt(l, j);
    ValuesFront(l, i, j);
    assert l[j] == l[i + 1..][j - i - 1];
    DistinctAt(l, i, j);
  }

  lemma DistinctAt(l: seq<Element>, i: nat, j: nat)
    requires Distinct(l) && i < j < |l|
    ensures l[i] != l[j]
  {
  }

  lemma ValuesFront(l: seq<Element>, i: nat, j: nat)
    requires i < j <= |l|
    ensures Values(l[i..j]) == [l[i].value] + Values(l[i + 1..j])
  {
  }

  lemma SliceEnds(l: seq<Element>, start: Position, end: Position) returns (i: nat, j: nat)
    requires Distinct(l) && Reaches(l, start, end) && start.element != end.element
    requires end.index <= end.element.value.value.Len()
    ensures i < j < |l| && start.element == Some(l[i]) && end.element == Some(l[j])
    ensures SliceValues(l, start, end) == Values(l[i..j]) + [Limited(end.element.value.value, 0, end.index)]
  {
    i, j := FindAfter(l, start.element.value, end.element.value);
    SliceValuesAt(l, start, end, i, j);
  }

  lemma SliceValuesSame(l: seq<Element>, start: Position, end: Position)
    requires Reaches(l, start, end) && start.element == end.element
    requires end.index <= end.element.value.value.Len()
    ensures Values([]) == [] && end.element.Some?
    ensures SliceValues(l, start, end) == Values([]) + [Limited(end.element.value.value, 0, end.index)]
  {
  }

  lemma ValuesNone(l: seq<Element>, i: nat)
    requires i < |l|
    ensures Values([]) == Values(l[i..i])
  {
  }

  lemma NextAt(l: seq<Element>, m: nat)
    requires Distinct(l) && m < |l|
    ensures Next(l, Some(l[m])) == if m + 1 < |l| then Some(l[m + 1]) else None
    ensures Place(l, Some(l[m])) == m
  {
    AfterAt(l, m);
  }

  lemma ValueAt(l: seq<Element>, i: nat)
    requires i < |l|
    ensures Values(l)[i] == l[i].value
  {
  }
}
