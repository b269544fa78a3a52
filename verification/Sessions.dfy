/** A buffer in use: events arrive, a reader prepares, reads and removes, in any order. */
module Sessions {
  import opened Events
  import opened Options
  import opened Ordering
  import opened Details
  import opened Lists
  import opened Seqs
  import opened Buffers
  import opened Reassembly

  /** The head, if it stands on an element, stands on the first. */
  ghost predicate AtFront(l: seq<Element>, head: Option<Position>) {
    head.Some? && head.value.element.Some? ==>
      l != [] && head.value.element == Some(l[0]) && head.value.index <= l[0].value.Len()
  }

  /** The bytes of the first event before the head. */
  ghost function BeforeHead(l: seq<Element>, head: Option<Position>): seq<Byte>
    requires AtFront(l, head)
  {
    if head.Some? && head.value.element.Some? then l[0].value.data[..head.value.index] else []
  }

  /** The bytes from the head on; all of them when it stands nowhere. */
  ghost function From(l: seq<Element>, head: Option<Position>): seq<Byte> {
    if head.Some? && head.value.element.Some? then CursorIn(l, head.value).Unread() else Flatten(Values(l))
  }

  lemma FrontParts(l: seq<Element>, head: Option<Position>)
    requires Distinct(l) && AtFront(l, head)
    ensures BeforeHead(l, head) + From(l, head) == Flatten(Values(l))
  {
    if head.Some? && head.value.element.Some? {
      AfterAt(l, 0);
      var e, i := l[0].value, head.value.index;
      assert Values(l) == [e] + Values(l[1..]);
      FlattenConcat([e], Values(l[1..]));
      assert Flatten([e]) == e.data;
      assert e.data[..i] + e.data[i..] == e.data;
      Assoc(e.data[..i], e.data[i..], Flatten(Values(l[1..])));
    } else {
      LeftUnit([], Flatten(Values(l)));
    }
  }

  class Session {
    const b: Buffer
    ghost var arrivals: seq<Event>
    ghost var removed: seq<Event>

    /** The events that were removed and those in the list are the arrivals in order, and nothing lies before the head. */
    ghost predicate Valid()
      reads this, b
    {
      && b.Valid() && b.Ordered() && (b.current.Some? ==> b.HasCurrent())
      && AtFront(b.dataEvents, b.head)
      && Build(arrivals) == removed + Values(b.dataEvents)
    }

    /** The reader stands on an event of the list, and the head on its first. */
    ghost predicate Reading()
      reads this, b
    {
      && b.head.Some? && b.head.value.element.Some? && b.HasCurrent()
      && b.current.value.element.value in b.dataEvents && b.current.value.index <= b.current.value.element.value.value.Len()
    }

    /** The bytes taken out: those of the removed events, and those before the head. */
    ghost function Taken(): seq<Byte>
      requires Valid()
      reads this, b
    {
      Flatten(removed) + BeforeHead(b.dataEvents, b.head)
    }

    /** The bytes still to come. */
    ghost function ToCome(): seq<Byte>
      reads this, b
    {
      From(b.dataEvents, b.head)
    }

    /** Conservation: what was taken out and what is to come are together the bytes of all arrivals, in order. */
    lemma Conserved()
      requires Valid()
      ensures Taken() + ToCome() == Flatten(Build(arrivals))
    {
      hide Flatten, AtFront, BeforeHead, From, InsertAll;
      FrontParts(b.dataEvents, b.head);
      FlattenConcat(removed, Values(b.dataEvents));
      Assoc(Flatten(removed), BeforeHead(b.dataEvents, b.head), ToCome());
    }

    constructor ()
      ensures Valid() && fresh(b) && arrivals == [] && Taken() == []
    {
      b := new Buffer();
      arrivals, removed := [], [];
    }

    /** An event that belongs behind everything removed, and behind the head. */
    ghost predicate LandsAhead(e: Event)
      reads this, b
    {
      && (forall x | x in removed :: !Before(e, x))
      && (b.head.Some? && b.head.value.element.Some? ==> !Before(e, b.head.value.element.value.value))
    }

    method Append(e: Event)
      requires Valid() && LandsAhead(e)
      modifies this, b
      ensures Valid() && arrivals == old(arrivals) + [e] && removed == old(removed) && Taken() == old(Taken())
    {
      hide Insert, Inserted, InsertAll, Values, CursorIn, After, Place, Sorted, Distinct;
      ghost var l, x := b.dataEvents, Element(b.nextId, e);
      b.AppendDataEvent(e);
      ghost var k: nat :| k <= |l| && b.dataEvents == Inserted(l, k, x);
      if b.head.Some? && b.head.value.element.Some? {
        FrontStays(l, k, x, b.head.value);
      }
      InsertAllLast([], arrivals, e);
      InsertBehind(removed, Values(l), e);
      arrivals := arrivals + [e];
    }

    /** A preparation takes nothing out. One that resets the positions goes back to the beginning of the first event. */
    method Prepare() returns (ready: bool)
      requires Valid()
      modifies b
      ensures Valid() && (ready <==> b.dataEvents != []) && (ready ==> Reading() && b.current == b.head)
      ensures Taken() == if ready && old(b.shouldResetPosition) then Flatten(removed) else old(Taken())
    {
      hide Flatten, InsertAll, Values;
      ready := b.PrepareForReading();
      RightUnit(Flatten(removed));
      if ready {
        assert b.dataEvents[0].value.data[..0] == [];
      }
    }

    method Read(p: array<Byte>) returns (n: nat, err: ReadError)
      requires Valid() && Reading()
      modifies b`current, p
      ensures Valid() && Reading() && Taken() == old(Taken()) && ToCome() == old(ToCome())
      ensures p.Length > 0 && err == NoError ==>
        n <= p.Length && p[..n] + b.At().Readable(b.validated) == old(b.At()).Readable(b.validated)
      ensures p.Length > 0 && err != NoError ==> err == old(b.At()).Stop(b.validated) && old(b.At()).Readable(b.validated) == []
    {
      hide Flatten, InsertAll, Values, Cursor.Readable, Cursor.Stop, Splice, After, Place, BeforeHead, From;
      ghost var c := b.At();
      n, err := b.Read(p, 0, p.Length);
      if p.Length > 0 && err == NoError {
        ReadFront(p[..], c.Readable(b.validated), n);
        TakenInside(c, b.validated, n);
      }
      NextInList(b.dataEvents, old(b.current).value.element);
    }

    /** A removal takes out exactly what lies between the head and the reader. */
    method Remove(includeDetails: bool)
      requires Valid() && Reading()
      modifies this, b
      ensures Valid() && arrivals == old(arrivals) && old(removed) <= removed && ToCome() == old(b.At()).Unread()
    {
      hide Flatten, InsertAll, Values, After, Place, Cut, Cursor.Unread, CursorIn, Sorted, SortedDetails, ReadDetails;
      ghost var l, c := b.dataEvents, Place(b.dataEvents, b.current.value.element);
      ghost var details := b.detailEvents;
      ghost var head := b.head.value.element.value.value.dataId;
      PlaceIn(l, b.current.value.element.value);
      NextAt(l, c);
      FirstPlace(l);
      var stop := b.RemoveReadElements(includeDetails);
      ReadDetailsSorted(details, head, b.current.value);
      ghost var m := if l[c].value.Len() == b.current.value.index then c + 1 else c;
      CutFront(l, m);
      SortedTail(l, m);
      removed := removed + Values(l[..m]);
      NothingLeft(b.dataEvents);
      assert m < |l| ==> b.dataEvents[0] == l[m];
    }
  }

  /** An insertion that does not belong before the first element leaves it the first. */
  lemma FrontStays(l: seq<Element>, k: nat, x: Element, head: Position)
    requires Distinct(l) && l != [] && k <= |l| && (forall y | y in l :: y.id < x.id)
    requires head.element == Some(l[0]) && !Before(x.value, l[0].value)
    requires CursorIn(Inserted(l, k, x), head) == Extended(CursorIn(l, head), x.value)
    ensures Inserted(l, k, x) != [] && Inserted(l, k, x)[0] == l[0]
  {
    SeenBehind(l, k, x, head);
    AfterInserted(l, k, x, 0);
    assert x !in l[1..];
  }

  /** An event that belongs before none of the first ones goes behind them. */
  lemma {:induction false} InsertBehind(front: seq<Event>, s: seq<Event>, e: Event)
    requires forall x | x in front :: !Before(e, x)
    ensures Insert(front + s, e) == front + Insert(s, e)
  {
    if front == [] {
      LeftUnit(front, s);
      LeftUnit(front, Insert(s, e));
    } else {
      TailOfConcat(front, s);
      InsertBehind(front[1..], s, e);
      FrontAndRest(front);
      Assoc([front[0]], front[1..], Insert(s, e));
    }
  }

  lemma TakenInside(c: Cursor, validated: bool, n: nat)
    requires c.CanRead(validated) && c.index <= c.event.Len() && n <= |c.NextPiece(validated)|
    ensures c.Taken(n).index <= c.Taken(n).event.Len()
  {
  }

  lemma PlaceIn(l: seq<Element>, e: Element)
    requires Distinct(l) && e in l
    ensures Place(l, Some(e)) < |l| && l[Place(l, Some(e))] == e
  {
  }

  lemma FirstPlace(l: seq<Element>)
    requires Distinct(l) && l != []
    ensures Place(l, Some(l[0])) == 0
  {
    NextAt(l, 0);
  }

  lemma CutFront(l: seq<Element>, m: nat)
    requires m <= |l|
    ensures Cut(l, 0, m) == l[m..] && Values(l) == Values(l[..m]) + Values(l[m..])
  {
  }

  lemma NothingLeft(l: seq<Element>)
    ensures l == [] ==> Flatten(Values(l)) == []
  {
  }

  lemma ReadDetailsSorted(details: seq<Detail>, first: nat, current: Position)
    requires SortedDetails(details) && current.element.Some?
    ensures SortedDetails(ReadDetails(details, first, current))
  {
    WithoutSorted(details, IdRange(first, current.element.value.value.dataId, true));
  }
}
