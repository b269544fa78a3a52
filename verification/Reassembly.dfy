/** The buffer from end to end: receive chunks, prepare, read until there is nothing more. */
module Reassembly {
  import opened Events
  import opened Options
  import opened Ordering
  import opened Lists
  import opened Seqs
  import opened Chunks
  import opened Buffers

  /** A new buffer that received these events. */
  method Receive(arrivals: seq<Event>) returns (b: Buffer)
    ensures fresh(b) && b.Valid() && b.Ordered() && !b.validated && b.current.None? && b.head.None?
    ensures Values(b.dataEvents) == Build(arrivals)
  {
    hide Values, Insert, InsertAll, Sorted;
    b := new Buffer();
    BuildNothing(arrivals);
    for i := 0 to |arrivals|
      invariant fresh(b) && b.Valid() && b.Ordered() && !b.validated && b.current.None? && b.head.None?
      invariant Values(b.dataEvents) == Build(arrivals[..i])
    {
      b.AppendDataEvent(arrivals[i]);
      BuildNext(arrivals, i);
    }
    TakeAll(arrivals);
  }

  lemma BuildNothing(arrivals: seq<Event>)
    ensures Build(arrivals[..0]) == [] && Values([]) == []
  {
  }

  lemma BuildNext(arrivals: seq<Event>, i: nat)
    requires i < |arrivals|
    ensures Build(arrivals[..i + 1]) == Insert(Build(arrivals[..i]), arrivals[i])
  {
    hide Insert;
    assert arrivals[..i + 1] == arrivals[..i] + [arrivals[i]];
    InsertAllLast([], arrivals[..i], arrivals[i]);
  }

  lemma {:induction false} InsertAllLast(s: seq<Event>, arrivals: seq<Event>, e: Event)
    ensures InsertAll(s, arrivals + [e]) == Insert(InsertAll(s, arrivals), e)
    decreases |arrivals|
  {
    hide Insert;
    if arrivals == [] {
      assert [e][1..] == [] && arrivals + [e] == [e];
    } else {
      assert (arrivals + [e])[1..] == arrivals[1..] + [e];
      InsertAllLast(Insert(s, arrivals[0]), arrivals[1..], e);
    }
  }

  /** Reads until an error: every byte that can be read, and why there are no more. */
  method ReadAll(b: Buffer) returns (data: seq<Byte>, err: ReadError)
    requires b.Valid() && b.HasCurrent()
    modifies b`current
    ensures b.Valid()
    ensures data == old(b.At()).Readable(b.validated) && err == old(b.At()).Stop(b.validated)
  {
    hide Cursor.Readable, Cursor.Stop, Cursor.NextPiece, Cursor.CanRead, Values, After, Splice;
    var p := new Byte[1024];
    ghost var c := b.At();
    ghost var all := c.Readable(b.validated);
    data, err := [], NoError;
    LeftUnit([], all);
    while err == NoError
      invariant b.Valid() && b.HasCurrent() && fresh(p) && p.Length == 1024
      invariant data + b.At().Readable(b.validated) == all && b.At().Stop(b.validated) == c.Stop(b.validated)
      invariant err != NoError ==> err == c.Stop(b.validated) && b.At().Readable(b.validated) == []
      decreases err == NoError, |b.At().Readable(b.validated)|, |b.At().rest|
    {
      ghost var at := b.At();
      var n;
      n, err := b.Read(p, 0, p.Length);
      if err == NoError {
        ReadFront(p[..], at.Readable(b.validated), n);
        EmptyStep(at, b.validated, n);
        Assoc(data, p[..n], b.At().Readable(b.validated));
        data := data + p[..n];
      }
    }
    RightUnit(data);
  }

  lemma ReadFront(p: seq<Byte>, readable: seq<Byte>, n: nat)
    requires n <= |p| && n <= |readable| && exists was: seq<Byte> :: |was| == |p| && p == Splice(was, 0, readable[..n])
    ensures p[..n] + readable[n..] == readable
  {
  }

  /** A read that gives nothing moves on to the next event. */
  lemma EmptyStep(c: Cursor, validated: bool, n: nat)
    requires c.CanRead(validated) && n == Min(1024, |c.NextPiece(validated)|)
    ensures n == 0 ==> c.rest != [] && |c.Taken(0).rest| < |c.rest|
  {
  }

  /** All chunks of any writes, in any order of arrival: what is read is all that was sent, and an early stop of the kernel is
      detected exactly when some write was over the limit. */
  method Reassemble(ghost writes: seq<Write>, arrivals: seq<Event>) returns (data: seq<Byte>, err: ReadError, cut: bool)
    requires ValidWrites(writes) && writes != [] && multiset(arrivals) == multiset(Sent(writes))
    ensures data == Flatten(Sent(writes)) && err == EOF
    ensures cut <==> exists w :: w in writes && |w.bytes| > SEND_LIMIT
  {
    hide Flatten, Sent, Cursor.Readable, Cursor.Stop, InsertAll, Values, After, NotSentAfter;
    ReadBack(writes, arrivals);
    var b := Receive(arrivals);
    FrontOf(b);
    var last := b.DetectNotSendingLastPosition();
    cut := last.Some?;
    CutIff(b, writes);
    var ready := b.PrepareForReading();
    data, err := ReadAll(b);
  }

  lemma FrontOf(b: Buffer)
    requires b.Valid() && Values(b.dataEvents) != []
    ensures b.dataEvents != []
    ensures CursorIn(b.dataEvents, Position(Some(b.dataEvents[0]), 0)) == Cursor(Values(b.dataEvents)[0], 0, Values(b.dataEvents)[1..])
  {
    AfterAt(b.dataEvents, 0);
  }

  lemma CutIff(b: Buffer, writes: seq<Write>)
    requires ValidWrites(writes) && Values(b.dataEvents) == Sent(writes)
    ensures (exists e :: e in b.dataEvents && NotSentAfter(e.value)) <==> exists w :: w in writes && |w.bytes| > SEND_LIMIT
  {
    hide Sent, NotSentAfter;
    NotSentIffOverLimit(writes);
    forall e | e in b.dataEvents ensures e.value in Sent(writes) {
      var i :| 0 <= i < |b.dataEvents| && b.dataEvents[i] == e;
      assert Values(b.dataEvents)[i] == e.value;
    }
    forall v | v in Sent(writes) ensures exists e :: e in b.dataEvents && e.value == v {
      var i :| 0 <= i < |Sent(writes)| && Sent(writes)[i] == v;
      assert b.dataEvents[i].value == v;
    }
  }

  /** The element is the one the reader stands on, or behind it. */
  ghost predicate InFront(b: Buffer, x: Element)
    requires b.HasCurrent()
    reads b
  {
    b.current.value.element == Some(x) || x in After(b.dataEvents, b.current.value.element)
  }

  /** When a preparation brings a reader to the front of the list: a reset is asked for, or there is no head. */
  ghost predicate StartsOver(b: Buffer, event: Event)
    reads b
  {
    || b.shouldResetPosition || b.dataEvents == [] || b.head.None? || b.head.value.element.None?
    || (b.HasCurrent() && event.dataId < b.current.value.element.value.value.dataId)
  }

  /** Which arrivals the next pass reads. An appended event is in front of the reader after the next preparation if and only
      if that starts over, or the head is in the list and the event does not belong before it. */
  method AppendThenPrepare(b: Buffer, event: Event)
    requires b.Valid() && b.Ordered() && (b.current.Some? ==> b.HasCurrent())
    modifies b
    ensures b.Valid() && b.Ordered() && b.HasCurrent()
    ensures InFront(b, Element(old(b.nextId), event)) <==>
      || old(StartsOver(b, event))
      || (old(b.head).value.element.value in old(b.dataEvents) && !Before(event, old(b.head).value.element.value.value))
  {
    hide Values, Insert, Inserted, After, Place, CursorIn, Sorted, Distinct;
    ghost var l, x := b.dataEvents, Element(b.nextId, event);
    ghost var over := StartsOver(b, event);
    ghost var head := b.head;
    b.AppendDataEvent(event);
    ghost var k: nat :| k <= |l| && b.dataEvents == Inserted(l, k, x);
    InsertedHas(l, k, x);
    var ready := b.PrepareForReading();
    if over {
      FrontSeesAll(b.dataEvents, x);
    } else if head.value.element.value in l {
      SeenBehind(l, k, x, head.value);
    } else {
      SeenByNobody(l, k, x, head.value.element.value);
    }
  }

  lemma InsertedHas(l: seq<Element>, k: nat, x: Element)
    requires k <= |l|
    ensures Inserted(l, k, x) != [] && x in Inserted(l, k, x)
  {
    assert Inserted(l, k, x)[k] == x;
  }

  lemma FrontSeesAll(l: seq<Element>, x: Element)
    requires Distinct(l) && x in l
    ensures l[0] == x || x in After(l, Some(l[0]))
  {
    AfterAt(l, 0);
  }

  lemma SeenBehind(l: seq<Element>, k: nat, x: Element, head: Position)
    requires Distinct(l) && k <= |l| && (forall y | y in l :: y.id < x.id) && head.element.Some? && head.element.value in l
    requires CursorIn(Inserted(l, k, x), head) == Extended(CursorIn(l, head), x.value)
    ensures head.element.value != x
    ensures x in After(Inserted(l, k, x), head.element) <==> !Before(x.value, head.element.value.value)
  {
    hide Insert, Place;
    var c :| 0 <= c < |l| && l[c] == head.element.value;
    AfterAt(l, c);
    AfterInserted(l, k, x, c);
    InsertAddsOne(CursorIn(l, head).rest, x.value);
    SizeOf(Insert(CursorIn(l, head).rest, x.value), CursorIn(l, head).rest, x.value);
    if k > c {
      InsertedHas(l[c + 1..], k - c - 1, x);
    }
  }

  lemma SizeOf(t: seq<Event>, s: seq<Event>, e: Event)
    requires multiset(t) == multiset(s) + multiset{e}
    ensures |t| == |s| + 1
  {
    assert |multiset(t)| == |t| && |multiset(s)| == |s|;
  }

  lemma SeenByNobody(l: seq<Element>, k: nat, x: Element, head: Element)
    requires k <= |l| && head !in l && head.id < x.id
    ensures head != x && After(Inserted(l, k, x), Some(head)) == []
  {
    AfterAbsent(Inserted(l, k, x), Some(head));
  }

  /** Arrival order does not matter only while nothing is read. A chunk that arrives when a later chunk of its write is
      already the head asks for no reset and is not read, also after another preparation, until the positions are reset, as
      each pass of an analyzer begins with; then both are read, if they follow each other. */
  method LateChunkMissed(x: Event, y: Event) returns (b: Buffer, data: seq<Byte>, again: seq<Byte>)
    requires x.dataId == y.dataId && x.sequence < y.sequence
    ensures b.Valid() && Values(b.dataEvents) == [x, y] && data == y.data
    ensures again == x.data + if x.sequence + 1 == y.sequence then y.data else []
  {
    hide Values, Cursor.Readable, InsertAll, After;
    b := Receive([y]);
    BuildTwo(x, y);
    FrontOf(b);
    var ready := b.PrepareForReading();
    ghost var c := b.At();
    b.AppendDataEvent(x);
    ready := b.PrepareForReading();
    assert b.At() == c;
    var err;
    data, err := ReadAll(b);
    ReadOne(y);
    FrontOf(b);
    b.ResetForLoopReading();
    ready := b.PrepareForReading();
    again, err := ReadAll(b);
    ReadTwo(x, y);
  }

  lemma ReadTwo(x: Event, y: Event)
    requires x.dataId == y.dataId && x.sequence < y.sequence
    ensures Cursor(x, 0, [y]).Readable(false) == x.data + if x.sequence + 1 == y.sequence then y.data else []
  {
    var c := Cursor(x, 0, [y]);
    assert c.Here() == x.data && c.Step() == Cursor(y, 0, []);
    ReadOne(y);
  }

  lemma BuildTwo(x: Event, y: Event)
    requires Before(x, y)
    ensures Build([y]) == [y] && Insert([y], x) == [x, y] && Build([x, y]) == [x, y]
  {
    BuildOfSorted([y], [y]);
    BuildOfSorted([x, y], [x, y]);
  }

  lemma ReadOne(y: Event)
    ensures Cursor(y, 0, []).Readable(false) == y.data
  {
  }

  /** Skipping after a partial read: the head takes over the index, and the first `n` bytes of the next event are missed. */
  method SkipMissesBytes(x: Event, y: Event, n: nat) returns (b: Buffer)
    requires Before(x, y) && 0 < n < x.Len()
    ensures b.Valid() && b.head.Some? && b.HeadUnread() == if n <= y.Len() then y.data[n..] else []
  {
    hide Values, After, Place, CursorIn, Cursor.Unread, Cut, ReadDetails;
    b := ReadPartly(x, y, n);
    TwoElements(b.dataEvents, x, y);
    var stop := b.RemoveReadElements(false);
    var finished := b.SkipCurrentElement();
    CursorOnLast(b.dataEvents, y, n);
  }

  /** A buffer of two events of which `n` bytes were read. */
  method ReadPartly(x: Event, y: Event, n: nat) returns (b: Buffer)
    requires Before(x, y) && 0 < n < x.Len()
    ensures fresh(b) && b.Valid() && b.Ordered() && Values(b.dataEvents) == [x, y]
    ensures b.head == Some(Position(Some(b.dataEvents[0]), 0)) && b.current == Some(Position(Some(b.dataEvents[0]), n))
  {
    hide Values, Cursor.Readable, Cursor.Stop, InsertAll, After, Splice, Place;
    BuildTwo(x, y);
    b := Receive([x, y]);
    FrontOf(b);
    var ready := b.PrepareForReading();
    var p := new Byte[n];
    PieceOf(x, [y]);
    var m, err := b.Read(p, 0, n);
    StandsAtFirst(b.dataEvents, b.current.value, x, y, n);
  }

  lemma PieceOf(x: Event, rest: seq<Event>)
    requires x.Len() > 0
    ensures var c := Cursor(x, 0, rest); c.CanRead(false) && c.NextPiece(false) == x.data
    ensures forall n: nat :: Cursor(x, 0, rest).Taken(n) == Cursor(x, n, rest)
  {
    assert Cursor(x, 0, rest).Here() == x.data;
  }

  lemma StandsAtFirst(l: seq<Element>, p: Position, x: Event, y: Event, n: nat)
    requires Distinct(l) && Values(l) == [x, y] && p.element.Some? && CursorIn(l, p) == Cursor(x, n, [y])
    ensures p == Position(Some(l[0]), n)
  {
    hide Values, Place, After, Distinct;
    AfterAt(l, 1);
    assert l[2..] == [];
    if p.element.value !in l {
      AfterAbsent(l, p.element);
    }
  }

  lemma TwoElements(l: seq<Element>, x: Event, y: Event)
    requires Distinct(l) && Values(l) == [x, y]
    ensures |l| == 2 && l[0].value == x && l[1].value == y && Place(l, Some(l[0])) == 0
    ensures Next(l, Some(l[0])) == Some(l[1]) && Cut(l, 0, 0) == l
  {
    hide Values, Place, After, Distinct, Cut;
    ValueAt(l, 0);
    ValueAt(l, 1);
    NextAt(l, 0);
    CutNothing(l, 0);
  }

  lemma CursorOnLast(l: seq<Element>, y: Event, n: nat)
    requires Distinct(l) && |l| == 2 && l[1].value == y
    ensures CursorIn(l, Position(Some(l[1]), n)).Unread() == if n <= y.Len() then y.data[n..] else []
  {
    AfterAt(l, 1);
  }
}
