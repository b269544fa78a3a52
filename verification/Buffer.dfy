/** The reassembly buffer: an ordered list of data events, an ordered list of details, and two
    positions in the data list. A position names a list element, so it keeps its place when events
    are inserted before it and has no successor once its element is taken out of the list. */
module Buffers {
  import opened Events
  import opened Options
  import opened Ordering
  import opened Details
  import opened Lists
  import opened Seqs
  import Chunks

  class Buffer {
    var dataEvents: seq<Element>
    var nextId: nat
    var detailEvents: seq<Detail>
    var validated: bool
    var shouldResetPosition: bool
    var head: Option<Position>
    var current: Option<Position>
    var latestExpiredDataId: nat
    const originalBuffer: Buffer?
    var endPosition: Option<Position>

    ghost predicate Valid()
      reads this
    {
      && Distinct(dataEvents)
      && (forall e | e in dataEvents :: e.id < nextId)
      && (head.Some? && head.value.element.Some? ==> head.value.element.value.id < nextId)
      && (current.Some? && current.value.element.Some? ==> current.value.element.value.id < nextId)
    }

    /** The lists of a buffer that only ever received appended events. */
    ghost predicate Ordered()
      reads this
    {
      Sorted(Values(dataEvents)) && SortedDetails(detailEvents)
    }

    /** The reading position stands on an event. */
    ghost predicate HasCurrent()
      reads this
    {
      current.Some? && current.value.element.Some?
    }

    ghost function CursorAt(p: Position): Cursor
      requires p.element.Some?
      reads this
    {
      CursorIn(dataEvents, p)
    }

    ghost function At(): Cursor
      requires HasCurrent()
      reads this
    {
      CursorAt(current.value)
    }

    /** What is unread from the head on. */
    ghost function HeadUnread(): seq<Byte>
      requires head.Some?
      reads this
    {
      if head.value.element.None? then [] else CursorAt(head.value).Unread()
    }

    constructor ()
      ensures Valid() && Ordered() && dataEvents == [] && detailEvents == [] && !validated && !shouldResetPosition
      ensures head.None? && current.None? && latestExpiredDataId == 0 && originalBuffer == null && endPosition.None?
    {
      dataEvents, nextId, detailEvents, validated, shouldResetPosition := [], 0, [], false, false;
      head, current, latestExpiredDataId, originalBuffer, endPosition := None, None, 0, null, None;
    }

    constructor View(dataEvents: seq<Element>, nextId: nat, validated: bool, start: Position, original: Buffer?,
                     end: Option<Position>)
      requires Distinct(dataEvents) && forall e | e in dataEvents :: e.id < nextId
      requires start.element.Some? ==> start.element.value.id < nextId
      ensures Valid() && this.dataEvents == dataEvents && this.validated == validated && detailEvents == []
      ensures head == current == Some(start) && originalBuffer == original && endPosition == end
      ensures !shouldResetPosition && latestExpiredDataId == 0
    {
      this.dataEvents, this.nextId, this.detailEvents, this.validated := dataEvents, nextId, [], validated;
      shouldResetPosition := false;
      head, current, latestExpiredDataId, originalBuffer, endPosition := Some(start), Some(start), 0, original, end;
    }

    /** Reads into `p[lo..hi]`: the next piece of the readable run, or the reason there is none. */
    method Read(p: array<Byte>, lo: nat, hi: nat) returns (n: nat, err: ReadError)
      requires Valid() && lo <= hi <= p.Length
      modifies this`current, p
      ensures Valid()
      ensures lo == hi ==> n == 0 && err == NoError
      ensures lo < hi && !old(HasCurrent()) ==> n == 0 && err == EOF
      ensures lo < hi && old(HasCurrent()) ==>
        var c := old(At());
        && (err == NoError <==> c.CanRead(validated))
        && (err == NoError ==>
              && HasCurrent() && n == Min(hi - lo, |c.NextPiece(validated)|) && n <= |c.Readable(validated)|
              && At() == c.Taken(n)
              && p[..] == Splice(old(p[..]), lo, c.Readable(validated)[..n])
              && At().Readable(validated) == c.Readable(validated)[n..]
              && At().Stop(validated) == c.Stop(validated))
        && (err != NoError ==> n == 0 && err == c.Stop(validated) && c.Readable(validated) == [])
      ensures err != NoError || lo == hi ==> current == old(current) && p[..] == old(p[..])
      ensures old(HasCurrent()) ==>
        && HasCurrent()
        && (current.value.element == old(current).value.element || current.value.element == Next(dataEvents, old(current).value.element))
    {
      hide Cursor.Readable, Cursor.Stop, Splice, Place, After, Values, Next;
      n, err := 0, NoError;
      if lo < hi {
        if current.None? || current.value.element.None? {
          err := EOF;
        } else {
          ghost var c := At();
          c.ReadableParts(validated);
          var element := current.value.element;
          n := ReadFromCurrent(p, lo, hi);
          if n == 0 {
            NextValue(dataEvents, element);
            var next := Next(dataEvents, element);
            if next.None? {
              err := EOF;
            } else if !Follows(validated, element.value.value, current.value.index, next.value.value) {
              err := NotComplete;
            } else {
              n := Read0(next.value, p, lo, hi);
            }
          }
          if err == NoError {
            c.TakeAdvances(validated, n);
          }
        }
      }
    }

    /** Fills `p` with the next bytes and leaves the reading position where it was. */
    method Peek(p: array<Byte>) returns (n: nat, err: ReadError)
      requires Valid() && current.Some?
      modifies this`current, p
      ensures current == old(current)
      ensures !HasCurrent() && p.Length > 0 ==> err == EOF
      ensures HasCurrent() ==> (err == NoError <==> p.Length <= |At().Readable(validated)|)
      ensures HasCurrent() && err == NoError ==> n == p.Length && p[..] == At().Readable(validated)[..n]
      ensures err != NoError ==> n == 0 && (HasCurrent() ==> err == At().Stop(validated))
    {
      hide Cursor.Readable, Cursor.Stop, Splice, Place, After, Values, Next, Follows, IsSuffix, SamePrefix;
      var tmpPosition := current;
      ghost var live := HasCurrent();
      ghost var r := if live then At().Readable(validated) else [];
      ghost var stop := if live then At().Stop(validated) else EOF;
      ghost var c := if live then Some(At()) else None;
      n, err := 0, NoError;
      PeekStart(p[..], r);
      while n < p.Length && err == NoError
        invariant Valid() && n <= |r| && n <= p.Length && SamePrefix(p[..], r, n)
        invariant HasCurrent() == live == c.Some?
        invariant live ==> c.value == At() && IsSuffix(c.value.Readable(validated), r, n) && c.value.Stop(validated) == stop
        invariant err != NoError ==> err == stop && n == |r| < p.Length
        decreases err == NoError, p.Length - n, if live then |c.value.rest| else 0
      {
        ghost var was := p[..];
        var count, readErr := Read(p, n, p.Length);
        if readErr != NoError {
          err := readErr;
          if live { SuffixSize(c.value.Readable(validated), r, n); }
        } else {
          PeekStep(was, p[..], r, n, count, c.value.Readable(validated), At().Readable(validated));
          c, n := Some(At()), n + count;
        }
      }
      current := tmpPosition;
      if err == NoError {
        PeekEnd(p[..], r, n);
      } else {
        n := 0;
      }
    }

    /** Reads until `data` is full. Every piece is copied to the start of `data`, so the bytes are right when they come
        in one piece, and otherwise the last place keeps what was there. */
    method ReadUntilBufferFull(data: array<Byte>) returns (err: ReadError)
      requires Valid()
      modifies this`current, data
      ensures Valid()
      ensures !old(HasCurrent()) ==> err == if data.Length > 0 then EOF else NoError
      ensures old(HasCurrent()) ==>
        var c := old(At());
        && HasCurrent()
        && (err == NoError <==> data.Length <= |c.Readable(validated)|)
        && (err == NoError ==>
              && At().Readable(validated) == c.Readable(validated)[data.Length..]
              && At().Stop(validated) == c.Stop(validated)
              && (forall q | q in c.Pieces(validated, data.Length) :: |q| <= data.Length)
              && data[..] == Overwrite(old(data[..]), c.Pieces(validated, data.Length))
              && FilledInOnePiece(c, validated, old(data[..]), data[..]))
        && (err != NoError ==> err == c.Stop(validated) && At().Readable(validated) == [])
    {
      hide Cursor.Readable, Cursor.Stop, Cursor.Pieces, Cursor.NextPiece, Cursor.CanRead, Splice, Overwrite, Progress, After, Values, FilledInOnePiece;
      var reduceLen := data.Length;
      ghost var live := HasCurrent();
      ghost var c0 := if live then Some(At()) else None;
      ghost var c, done: seq<seq<Byte>> := c0, [];
      if live { ProgressStart(validated, c0.value, data.Length); }
      OverwriteNothing(data[..]);
      err := NoError;
      while reduceLen > 0 && err == NoError
        invariant Valid() && 0 <= reduceLen <= data.Length
        invariant HasCurrent() == live == c.Some?
        invariant live ==> c.value == At() && Progress(validated, c0.value, c.value, data.Length, reduceLen, done)
        invariant !live ==> reduceLen == data.Length && err == if err == NoError then NoError else EOF
        invariant forall q | q in done :: |q| <= data.Length
        invariant data[..] == Overwrite(old(data[..]), done)
        invariant err != NoError ==> reduceLen > 0 && (live ==> err == c.value.Stop(validated) && c.value.Readable(validated) == [])
        decreases err == NoError, reduceLen, if live then |c.value.rest| else 0
      {
        ghost var was := data[..];
        var count, readErr := Read(data, 0, reduceLen);
        if readErr != NoError {
          err := readErr;
        } else {
          var done' := ProgressStep(validated, c0.value, c.value, data.Length, reduceLen, done, count);
          if count > 0 {
            OverwriteAppend(old(data[..]), done, c.value.Readable(validated)[..count]);
          } else {
            SpliceNothing(was, c.value.Readable(validated)[..count]);
          }
          done, c, reduceLen := done', Some(At()), reduceLen - count;
        }
      }
      if live {
        ProgressEnd(validated, c0.value, c.value, data.Length, reduceLen, done);
        if err == NoError {
          FillingInPieces(c0.value, validated, old(data[..]), done, data[..]);
        }
      }
    }

    /** The position `offset` bytes ahead, on a byte; none when that many bytes are not left. */
    method OffsetPosition(offset: nat) returns (r: Option<Position>)
      requires Valid() && current.Some?
      requires HasCurrent() ==> current.value.index <= current.value.element.value.value.Len()
      ensures offset == 0 ==> r == current
      ensures offset > 0 && !HasCurrent() ==> r.None?
      ensures offset > 0 && HasCurrent() ==> (r.None? <==> |At().Unread()| <= offset)
      ensures offset > 0 && HasCurrent() && r.Some? ==>
        && Reaches(dataEvents, current.value, r.value) && r.value.index < r.value.element.value.value.Len()
        && IsSuffix(CursorAt(r.value).Unread(), At().Unread(), offset)
    {
      hide Flatten, Place, After, Values, Next, Reaches, Distinct, CursorIn, Cursor.Unread, IsSuffix;
      if offset == 0 {
        return current;
      }
      var curEle, curIndex: nat, left: nat := current.value.element, current.value.index, offset;
      ghost var start := current.value;
      ghost var size := if curEle.None? then 0 else |CursorIn(dataEvents, start).Unread()|;
      ReachesSelf(dataEvents, start);
      while curEle.Some? && curIndex + left >= curEle.value.value.Len()
        invariant curEle.None? ==> size <= offset
        invariant curEle.Some? ==>
          && curIndex <= curEle.value.value.Len() && left <= offset
          && |CursorIn(dataEvents, Position(curEle, curIndex)).Unread()| + offset - left == size
          && Reaches(dataEvents, start, Position(curEle, curIndex))
        decreases if curEle.None? then 0 else 1 + |After(dataEvents, curEle)|
      {
        NextCursor(dataEvents, Position(curEle, curIndex));
        NextReached(dataEvents, start, Position(curEle, curIndex));
        left := left - (curEle.value.value.Len() - curIndex);
        curEle, curIndex := Next(dataEvents, curEle), 0;
      }
      if curEle.None? {
        r := None;
      } else {
        r := Some(Position(curEle, curIndex + left));
        MoveCursor(dataEvents, Position(curEle, curIndex), left);
        ReachedForward(dataEvents, start, Position(curEle, curIndex), r.value);
        ReachedSuffix(dataEvents, start, r.value);
      }
    }

    method ResetForLoopReading()
      modifies this`head, this`current
      ensures head.None? && current.None?
    {
      head, current := None, None;
    }

    /** Puts the reading position on the head; the head is the front of the list when there is none yet
        or when an event was inserted before what was being read. */
    method PrepareForReading() returns (ready: bool)
      requires Valid()
      modifies this`head, this`current, this`shouldResetPosition
      ensures Valid()
      ensures ready <==> dataEvents != []
      ensures !ready ==> unchanged(this)
      ensures ready ==>
        && !shouldResetPosition && HasCurrent() && current == head
        && head == if old(shouldResetPosition) || old(head).None? || old(head).value.element.None?
                   then Some(Position(Some(dataEvents[0]), 0)) else old(head)
      decreases shouldResetPosition
    {
      if |dataEvents| == 0 {
        return false;
      }
      if shouldResetPosition {
        ResetForLoopReading();
        shouldResetPosition := false;
        ready := PrepareForReading();
        return;
      }
      if head.None? || head.value.element.None? {
        head := Some(Position(Some(dataEvents[0]), 0));
        current := head;
      } else {
        current := head;
      }
      return true;
    }

    /** Moves the head behind the event being read. The index of the head is kept: nothing of the next event is missed
        exactly when that index is zero or the event is empty. */
    method SkipCurrentElement() returns (finished: bool)
      requires Valid() && head.Some? && current.Some?
      modifies this`head, this`current
      ensures Valid()
      ensures head == Some(Position(Next(dataEvents, old(current).value.element), old(head).value.index))
      ensures current == Some(old(current).value.(index := 0))
      ensures finished <==> head.value.element.None?
      ensures head.value.element.Some? ==>
        (HeadUnread() == CursorAt(Position(head.value.element, 0)).Unread()
         <==> old(head).value.index == 0 || head.value.element.value.value.Len() == 0)
    {
      hide Cursor.Unread, Values, After;
      var next := Next(dataEvents, current.value.element);
      if next.Some? {
        AfterNext(dataEvents, current.value.element);
        assert next.value in dataEvents;
      }
      head := Some(head.value.(element := next));
      current := Some(current.value.(index := 0));
      if next.Some? {
        CursorAt(head.value).StaleIndexMisses();
      }
      return head.value.element.None?;
    }

    /** Takes what was read out of the list. With the reading position at or after the head, exactly the
        elements from the head up to it go, and with it the one it stands on if that was read to the end. */
    method RemoveReadElements(includeDetails: bool) returns (stop: bool)
      requires Valid() && head.Some? && current.Some? && SortedDetails(detailEvents)
      modifies this`dataEvents, this`detailEvents, this`head
      ensures Valid()
      ensures var l := old(dataEvents);
        var h, c := Place(l, old(head).value.element), Place(l, current.value.element);
        h <= c < |l| ==>
          && !stop
          && (l[c].value.Len() == current.value.index ==>
                dataEvents == Cut(l, h, c + 1) && head == Some(Position(Next(l, Some(l[c])), 0)))
          && (l[c].value.Len() != current.value.index ==> dataEvents == Cut(l, h, c) && head == current)
      ensures var c := Place(old(dataEvents), current.value.element);
        Place(old(dataEvents), old(head).value.element) <= c < |old(dataEvents)|
        && current.value.index <= current.value.element.value.value.Len()
        ==> HeadUnread() == old(At()).Unread()
      ensures detailEvents ==
        if includeDetails && old(head).value.element.Some? && HasCurrent()
        then ReadDetails(old(detailEvents), old(head).value.element.value.value.dataId, current.value)
        else old(detailEvents)
    {
      hide Place, Next, Removed, Cut, Distinct, CursorIn, Without, Cursor.Unread;
      if includeDetails && head.value.element.Some? && current.value.element.Some? {
        var cur := current.value.element.value.value;
        detailEvents := DeleteRead(detailEvents, head.value.element.value.value.dataId, cur.dataId,
                                   cur.Len() != current.value.index);
      }
      ghost var l := dataEvents;
      ghost var h, c := Place(l, head.value.element), Place(l, current.value.element);
      if h <= c < |l| { CutKeepsUnread(l, h, c, current.value.index); }
      stop := RemoveRead();
    }

    method RemoveRead() returns (stop: bool)
      requires Valid() && head.Some? && current.Some?
      modifies this`dataEvents, this`head
      ensures Valid()
      ensures var l := old(dataEvents);
        var h, c := Place(l, old(head).value.element), Place(l, current.value.element);
        h <= c < |l| ==>
          && !stop
          && (l[c].value.Len() == current.value.index ==>
                dataEvents == Cut(l, h, c + 1) && head == Some(Position(Next(l, Some(l[c])), 0)))
          && (l[c].value.Len() != current.value.index ==> dataEvents == Cut(l, h, c) && head == current)
    {
      hide Place, Next, Removed, Cut, Distinct;
      ghost var l := dataEvents;
      ghost var h, c := Place(l, head.value.element), Place(l, current.value.element);
      if h <= c < |l| { CutStep(l, h, c); }
      var next := RemoveUntil(head.value.element, current.value.element);
      if next.Some? { NextInList(dataEvents, next); }
      var stillCurrent := next == head.value.element;
      if !stillCurrent && next.None? {
        return true;
      }
      if next.Some? && next.value.value.Len() == current.value.index {
        var after := RemoveElement(next.value);
        head := Some(Position(after, 0));
      } else {
        head := Some(Position(if stillCurrent then head.value.element else next, current.value.index));
      }
      return false;
    }

    /** Removes elements from `from` on until `target` or the end of the list. */
    method RemoveUntil(from: Option<Element>, target: Option<Element>) returns (next: Option<Element>)
      requires Distinct(dataEvents)
      modifies this`dataEvents
      ensures Distinct(dataEvents) && forall x | x in dataEvents :: x in old(dataEvents)
      ensures next.None? || next == from || next.value in old(dataEvents)
      ensures var l := old(dataEvents);
        var h, c := Place(l, from), Place(l, target);
        h <= c < |l| ==> next == target && dataEvents == Cut(l, h, c)
    {
      hide Place, Next, Removed, Cut, Distinct;
      ghost var l := dataEvents;
      ghost var h, c := Place(l, from), Place(l, target);
      ghost var m := h;
      if h < |l| { CutNothing(l, h); }
      next := from;
      while next.Some? && next != target
        invariant Distinct(dataEvents) && forall x | x in dataEvents :: x in l
        invariant next.None? || next == from || next.value in l
        invariant h <= c < |l| ==> h <= m <= c && dataEvents == Cut(l, h, m) && next == Some(l[m])
        decreases |dataEvents|, next.Some?
      {
        if h <= c < |l| {
          CutStep(l, h, m);
        }
        NextInList(dataEvents, next);
        RemovedSize(dataEvents);
        next := RemoveElement(next.value);
        m := m + 1;
      }
      if h <= c < |l| { AfterAt(l, m); }
    }

    method RemoveElement(e: Element) returns (next: Option<Element>)
      requires Distinct(dataEvents)
      modifies this`dataEvents
      ensures next == Next(old(dataEvents), Some(e))
      ensures Distinct(dataEvents) && forall x | x in dataEvents :: x in old(dataEvents)
      ensures var i := Place(old(dataEvents), Some(e));
        dataEvents == if i < |old(dataEvents)| then Removed(old(dataEvents), i) else old(dataEvents)
    {
      next := Next(dataEvents, Some(e));
      var i := Place(dataEvents, Some(e));
      hide Place, Next;
      if i < |dataEvents| {
        dataEvents := Removed(dataEvents, i);
      }
    }

    /** Inserts the event in order. Readers keep their place: an event that belongs behind the reading
        position joins what is still to be read, one that belongs before it does not, and when its data id
        is below the one being read the next preparation starts again at the front. The head keeps its place too. */
    method AppendDataEvent(event: Event)
      requires Valid() && Ordered() && (current.Some? ==> HasCurrent())
      modifies this`dataEvents, this`nextId, this`shouldResetPosition
      ensures Valid() && Ordered()
      ensures Values(dataEvents) == Insert(Values(old(dataEvents)), event)
      ensures exists k: nat | k <= |old(dataEvents)| ::
                dataEvents == Inserted(old(dataEvents), k, Element(old(nextId), event))
      ensures shouldResetPosition == (old(shouldResetPosition) || old(dataEvents) == []
                                      || (HasCurrent() && event.dataId < current.value.element.value.value.dataId))
      ensures HasCurrent() && current.value.element.value in old(dataEvents) ==> At() == Extended(old(At()), event)
      ensures head.Some? && head.value.element.Some? && head.value.element.value in old(dataEvents) ==>
        CursorAt(head.value) == Extended(old(CursorAt(head.value)), event)
    {
      hide Insert, Inserted, Values, Place, CursorIn, Sorted, Distinct;
      var l, element := dataEvents, Element(nextId, event);
      var k := |l|;
      if |l| == 0 {
        shouldResetPosition := true;
      } else if l[|l| - 1].value.dataId < event.dataId {
        LastIsLargest(l, event);
      } else {
        k := 0;
        while k < |l| && !(l[k].value.dataId > event.dataId
                           || (l[k].value.dataId == event.dataId && l[k].value.sequence > event.sequence))
          invariant 0 <= k <= |l|
          invariant forall i | 0 <= i < k :: !Before(event, l[i].value)
        {
          k := k + 1;
        }
      }
      dataEvents, nextId := Inserted(l, k, element), nextId + 1;
      InsertedElement(l, k, element);
      if current.Some? {
        CursorAfterInsert(l, k, element, current.value);
        if current.value.element.value.value.dataId > event.dataId {
          shouldResetPosition := true;
        }
      }
      if head.Some? && head.value.element.Some? {
        CursorAfterInsert(l, k, element, head.value);
      }
    }

    method AppendDetailEvent(event: Detail)
      requires SortedDetails(detailEvents)
      modifies this`detailEvents
      ensures SortedDetails(detailEvents) && detailEvents == InsertDetail(old(detailEvents), event)
    {
      hide InsertDetail, Inserted;
      var ds, k := detailEvents, |detailEvents|;
      if |ds| > 0 && ds[|ds| - 1].dataId >= event.dataId {
        k := 0;
        while k < |ds| && ds[k].dataId <= event.dataId
          invariant 0 <= k <= |ds|
          invariant forall i | 0 <= i < k :: ds[i].dataId <= event.dataId
        {
          k := k + 1;
        }
      }
      detailEvents := Inserted(ds, k, event);
      InsertDetailSplit(ds, event, k);
      InsertDetailKeepsOrder(ds, event);
    }

    /** Appends everything another buffer holds. */
    method Merge(other: Buffer?)
      requires Valid() && Ordered() && other != this && (current.Some? ==> HasCurrent())
      modifies this`dataEvents, this`nextId, this`detailEvents, this`shouldResetPosition
      ensures Valid() && Ordered()
      ensures other == null ==> unchanged(this)
      ensures other != null ==> Values(dataEvents) == InsertAll(old(Values(dataEvents)), Values(other.dataEvents))
      ensures other != null ==> detailEvents == InsertAllDetails(old(detailEvents), other.detailEvents)
    {
      if other == null {
        return;
      }
      hide Insert, Values, Distinct, Sorted, InsertDetail, SortedDetails, CursorIn;
      ghost var more := Values(other.dataEvents);
      DropEnds(more);
      DropEnds(other.detailEvents);
      for i := 0 to |other.dataEvents|
        invariant Valid() && Ordered() && detailEvents == old(detailEvents)
        invariant InsertAll(Values(dataEvents), more[i..]) == InsertAll(old(Values(dataEvents)), more)
      {
        ValueAt(other.dataEvents, i);
        DropNext(more, i);
        AppendDataEvent(other.dataEvents[i].value);
      }
      for i := 0 to |other.detailEvents|
        invariant Valid() && Ordered() && Values(dataEvents) == InsertAll(old(Values(dataEvents)), more)
        invariant InsertAllDetails(detailEvents, other.detailEvents[i..])
               == InsertAllDetails(old(detailEvents), other.detailEvents)
      {
        DropNext(other.detailEvents, i);
        AppendDetailEvent(other.detailEvents[i]);
      }
    }

    /** The end of the first chunk after which the kernel stopped although the write had more bytes. */
    method DetectNotSendingLastPosition() returns (r: Option<Position>)
      ensures r.None? <==> forall e | e in dataEvents :: !Chunks.NotSentAfter(e.value)
      ensures r.Some? ==> exists i | 0 <= i < |dataEvents| ::
        && r.value == Position(Some(dataEvents[i]), dataEvents[i].value.Len())
        && Chunks.NotSentAfter(dataEvents[i].value)
        && (forall j | 0 <= j < i :: !Chunks.NotSentAfter(dataEvents[j].value))
    {
      for i := 0 to |dataEvents|
        invariant forall j | 0 <= j < i :: !Chunks.NotSentAfter(dataEvents[j].value)
      {
        var buf := dataEvents[i].value;
        if buf.finished && buf.reduced {
          return Some(Position(Some(dataEvents[i]), buf.Len()));
        }
      }
      return None;
    }

    /** The part from `start` to `end` as a buffer of its own, both of its positions at its front. */
    method Slice(validated: bool, start: Position, end: Position) returns (b: Buffer)
      requires Valid() && Reaches(dataEvents, start, end)
      requires start.index <= start.element.value.value.Len() && end.index <= end.element.value.value.Len()
      ensures fresh(b) && b.Valid() && b.validated == validated
      ensures b.originalBuffer == this && b.endPosition == Some(end) && b.detailEvents == []
      ensures Values(b.dataEvents) == SliceValues(dataEvents, start, end) && b.dataEvents != []
      ensures b.head == b.current == Some(Position(Some(b.dataEvents[0]), start.index))
      ensures CursorAt(start).Unread() == b.At().Unread() + CursorAt(end).Unread()
    {
      var events := SliceElements(start, end);
      b := new Buffer.View(events, |events|, validated, Position(Some(events[0]), start.index), this, Some(end));
      SliceBytes(dataEvents, start, end);
      NumberedList(events);
    }

    method SliceElements(start: Position, end: Position) returns (events: seq<Element>)
      requires Valid() && Reaches(dataEvents, start, end) && end.index <= end.element.value.value.Len()
      ensures Numbered(events) && Values(events) == SliceValues(dataEvents, start, end) && events != []
    {
      hide Values, After, Place, Next, Reaches, Distinct, SliceValues;
      events := [];
      var next := start.element;
      ghost var l, i, j, m := dataEvents, 0, 0, 0;
      ghost var apart := start.element != end.element;
      if apart {
        i, j := SliceEnds(l, start, end);
        m := i;
        ValuesNone(l, i);
      } else {
        SliceValuesSame(l, start, end);
      }
      while next != end.element
        invariant Numbered(events)
        invariant !apart ==> next == end.element && events == []
        invariant apart ==> i <= m <= j && next == Some(l[m]) && Values(events) == Values(l[i..m])
        decreases j - m
      {
        if next.None? {
          break;
        }
        NextAt(l, m);
        PushValue(events, Element(|events|, next.value.value));
        ValuesStep(l, i, m);
        events := events + [Element(|events|, next.value.value)];
        next := Next(dataEvents, next);
        m := m + 1;
      }
      var last := Limited(end.element.value.value, 0, end.index);
      PushValue(events, Element(|events|, last));
      events := events + [Element(|events|, last)];
      if apart {
        NextAt(l, m);
        NextAt(l, j);
      }
    }

    /** Drops the expired events at the front of the data list, remembers the last data id dropped, and drops
        the details at the front that belong to it or before, or are expired themselves. */
    method DeleteExpireEvents(expireTime: int) returns (count: nat)
      requires Valid() && SortedDetails(detailEvents)
      modifies this`dataEvents, this`detailEvents, this`latestExpiredDataId
      ensures Valid() && SortedDetails(detailEvents)
      ensures count == |old(dataEvents)| - |dataEvents| + |old(detailEvents)| - |detailEvents|
      ensures exists n: nat | n <= |old(dataEvents)| ::
        && dataEvents == old(dataEvents)[n..] && ExpiredData(old(dataEvents), n, expireTime)
        && latestExpiredDataId == if n == 0 then old(latestExpiredDataId) else old(dataEvents)[n - 1].value.dataId
      ensures exists n: nat | n <= |old(detailEvents)| ::
        detailEvents == old(detailEvents)[n..] && ExpiredDetails(old(detailEvents), n, latestExpiredDataId, expireTime)
      ensures latestExpiredDataId > 0 ==> forall d | d in detailEvents :: d.dataId > latestExpiredDataId
    {
      hide ExpiredData, ExpiredDetails;
      var n := ExpireData(expireTime);
      var k := ExpireDetails(expireTime);
      return n + k;
    }

    method ExpireData(expireTime: int) returns (n: nat)
      requires Valid()
      modifies this`dataEvents, this`latestExpiredDataId
      ensures Valid() && n <= |old(dataEvents)| && dataEvents == old(dataEvents)[n..]
      ensures ExpiredData(old(dataEvents), n, expireTime)
      ensures latestExpiredDataId == if n == 0 then old(latestExpiredDataId) else old(dataEvents)[n - 1].value.dataId
    {
      n := 0;
      while n < |dataEvents| && dataEvents[n].value.startTime < expireTime
        invariant n <= |dataEvents| && dataEvents == old(dataEvents)
        invariant forall i | 0 <= i < n :: dataEvents[i].value.startTime < expireTime
        invariant latestExpiredDataId == if n == 0 then old(latestExpiredDataId) else dataEvents[n - 1].value.dataId
      {
        latestExpiredDataId := dataEvents[n].value.dataId;
        n := n + 1;
      }
      dataEvents := dataEvents[n..];
    }

    method ExpireDetails(expireTime: int) returns (k: nat)
      requires SortedDetails(detailEvents)
      modifies this`detailEvents
      ensures SortedDetails(detailEvents) && k <= |old(detailEvents)| && detailEvents == old(detailEvents)[k..]
      ensures ExpiredDetails(old(detailEvents), k, latestExpiredDataId, expireTime)
      ensures latestExpiredDataId > 0 ==> forall d | d in detailEvents :: d.dataId > latestExpiredDataId
    {
      k := 0;
      while k < |detailEvents| && DetailExpired(detailEvents[k], latestExpiredDataId, expireTime)
        invariant k <= |detailEvents| && detailEvents == old(detailEvents)
        invariant forall i | 0 <= i < k :: DetailExpired(detailEvents[i], latestExpiredDataId, expireTime)
      {
        k := k + 1;
      }
      LaterDetails(detailEvents, k, latestExpiredDataId, expireTime);
      detailEvents := detailEvents[k..];
    }

    method ReadFromCurrent(p: array<Byte>, lo: nat, hi: nat) returns (n: nat)
      requires Valid() && HasCurrent() && lo < hi <= p.Length
      modifies this`current, p
      ensures Valid()
      ensures HasCurrent() && current.value.element == old(current).value.element && n == Min(hi - lo, |old(At()).Here()|)
      ensures At() == old(At()).(index := old(At()).index + n)
      ensures p[..] == Splice(old(p[..]), lo, old(At()).Here()[..n])
      ensures n == 0 ==> current == old(current) && p[..] == old(p[..])
    {
      var Position(element, index) := current.value;
      var event := element.value.value;
      n := 0;
      if index < event.Len() {
        n := Min(hi - lo, event.Len() - index);
        Copy(event.data, index, n, p, lo);
        current := Some(Position(element, index + n));
        assert old(At()).Here()[..n] == event.data[index..index + n];
      } else {
        assert p[..] == p[..lo] + [] + p[lo..];
      }
    }

    method Read0(next: Element, p: array<Byte>, lo: nat, hi: nat) returns (n: nat)
      requires Valid() && HasCurrent() && lo < hi <= p.Length
      requires Some(next) == Next(dataEvents, current.value.element)
      modifies this`current, p
      ensures Valid()
      ensures HasCurrent() && current.value.element == Some(next) && n == Min(hi - lo, next.value.Len())
      ensures old(At()).rest != [] && At() == old(At()).Step().(index := n)
      ensures p[..] == Splice(old(p[..]), lo, old(At()).Step().Here()[..n])
    {
      AfterNext(dataEvents, current.value.element);
      assert next in dataEvents;
      n := Min(hi - lo, next.value.Len());
      Copy(next.value.data, 0, n, p, lo);
      current := Some(Position(Some(next), n));
    }
  }

  method Copy(src: seq<Byte>, from: nat, n: nat, dst: array<Byte>, to: nat)
    requires from + n <= |src| && to + n <= dst.Length
    modifies dst
    ensures dst[..] == Splice(old(dst[..]), to, src[from..from + n])
  {
    for i := 0 to n
      invariant dst[..to] == old(dst[..to])
      invariant dst[to..to + i] == src[from..from + i]
      invariant dst[to + i..] == old(dst[to + i..])
    {
      dst[to + i] := src[from + i];
    }
    assert dst[..] == dst[..to] + dst[to..to + n] + dst[to + n..];
  }

  predicate DetailExpired(d: Detail, latestExpiredDataId: nat, expireTime: int) {
    (latestExpiredDataId > 0 && d.dataId <= latestExpiredDataId) || (d.time > 0 && d.time < expireTime)
  }

  /** Exactly the first `n` events are expired before one that is not. */
  ghost predicate ExpiredData(events: seq<Element>, n: nat, expireTime: int) {
    && n <= |events| && (forall i | 0 <= i < n :: events[i].value.startTime < expireTime)
    && (n < |events| ==> events[n].value.startTime >= expireTime)
  }

  /** Exactly the first `n` details are expired before one that is not. */
  ghost predicate ExpiredDetails(details: seq<Detail>, n: nat, latestExpiredDataId: nat, expireTime: int) {
    && n <= |details|
    && (forall i | 0 <= i < n ::
          (0 < latestExpiredDataId && details[i].dataId <= latestExpiredDataId) || 0 < details[i].time < expireTime)
    && (n < |details| ==>
          && (latestExpiredDataId == 0 || details[n].dataId > latestExpiredDataId)
          && (details[n].time == 0 || details[n].time >= expireTime))
  }

  /** Behind the first detail that stays, in a sorted list, none belongs to the expired data. */
  lemma LaterDetails(details: seq<Detail>, k: nat, latestExpiredDataId: nat, expireTime: int)
    requires SortedDetails(details) && k <= |details|
    requires k < |details| ==> !DetailExpired(details[k], latestExpiredDataId, expireTime)
    ensures SortedDetails(details[k..])
    ensures latestExpiredDataId > 0 ==> forall d | d in details[k..] :: d.dataId > latestExpiredDataId
  {
    assert forall i | k <= i < |details| :: details[k].dataId <= details[i].dataId;
  }

  /** `chain` runs from `buf` through the buffers it was cut from to the one that was not. */
  ghost predicate Chain(buf: Buffer, chain: seq<Buffer>)
    decreases |chain|
  {
    && chain != [] && chain[0] == buf && buf !in chain[1..]
    && if |chain| == 1 then buf.originalBuffer == null
       else buf.originalBuffer != null && Chain(buf.originalBuffer, chain[1..])
  }

  /** Deletes the details of a range of data ids from a buffer and from those it was cut from. */
  method DeleteDetails(r: IdRange, buf: Buffer, ghost chain: seq<Buffer>)
    requires Chain(buf, chain) && forall b | b in chain :: SortedDetails(b.detailEvents)
    modifies chain`detailEvents
    ensures forall b | b in chain :: b.detailEvents == Without(old(b.detailEvents), r) && Outside(b.detailEvents, old(b.detailEvents), r)
    decreases |chain|
  {
    hide Outside, Without;
    if buf.originalBuffer != null {
      assert forall b | b in chain[1..] :: b in chain;
      DeleteDetails(r, buf.originalBuffer, chain[1..]);
    }
    assert forall b | b in chain :: b == buf || b in chain[1..];
    buf.detailEvents := DeleteCovered(buf.detailEvents, r);
  }

  /** What a combination reads as: the unread bytes from the head of each part, in order. */
  ghost function JoinHeads(parts: seq<Buffer?>): seq<Byte>
    reads parts
  {
    if parts == [] then []
    else (if parts[0] == null || parts[0].head.None? then [] else parts[0].HeadUnread()) + JoinHeads(parts[1..])
  }

  /** The head stands at the front of the list, as in every slice. */
  ghost predicate HeadAtFront(b: Buffer)
    reads b
  {
    b.head.Some? ==>
      if b.dataEvents == [] then b.head == Some(Position(None, 0))
      else b.head.value.element == Some(b.dataEvents[0]) && b.head.value.index <= b.dataEvents[0].value.Len()
  }

  /** The last part that is there. */
  ghost predicate LastPart(parts: seq<Buffer?>, i: nat) {
    i < |parts| && parts[i] != null && forall j | i < j < |parts| :: parts[j] == null
  }

  ghost predicate Parts(parts: seq<Buffer?>)
    reads parts
  {
    forall b | b in parts && b != null :: b.Valid() && HeadAtFront(b)
  }

  /** Joins slices into one buffer that reads as their concatenation; a single one is returned itself. */
  method CombineSlices(validated: bool, original: Buffer?, parts: seq<Buffer?>) returns (r: Buffer?)
    requires Parts(parts)
    requires forall i: nat | LastPart(parts, i) :: parts[i].endPosition.Some? || parts[i].current.Some?
    ensures |parts| == 0 ==> r == null
    ensures |parts| == 1 ==> r == parts[0]
    ensures |parts| >= 2 ==>
      && r != null && fresh(r) && r.Valid()
      && r.validated == validated && r.originalBuffer == original && r.detailEvents == []
      && r.head == r.current == Some(Position(if r.dataEvents == [] then None else Some(r.dataEvents[0]), 0))
      && r.HeadUnread() == JoinHeads(parts)
      && (forall i: nat | LastPart(parts, i) ::
            r.endPosition == if parts[i].endPosition.Some? then parts[i].endPosition else parts[i].current)
  {
    hide Parts, Distinct, Values, Numbered, JoinHeads, CursorIn, Flatten;
    if |parts| == 0 {
      return null;
    }
    if |parts| == 1 {
      return parts[0];
    }
    var dataEvents := JoinParts(parts);
    var endPosition := LastEnd(parts);
    NumberedList(dataEvents);
    NumberedFront(dataEvents);
    var front := if dataEvents == [] then None else Some(dataEvents[0]);
    r := new Buffer.View(dataEvents, |dataEvents|, validated, Position(front, 0), original, endPosition);
  }

  /** Reading a numbered list from its front gives all of its bytes. */
  lemma NumberedFront(l: seq<Element>)
    requires Numbered(l)
    ensures Flatten(Values(l)) == if l == [] then [] else CursorIn(l, Position(Some(l[0]), 0)).Unread()
  {
    NumberedList(l);
  }

  method LastEnd(parts: seq<Buffer?>) returns (end: Option<Position>)
    requires forall i: nat | LastPart(parts, i) :: parts[i].endPosition.Some? || parts[i].current.Some?
    ensures forall i: nat | LastPart(parts, i) ::
      end == if parts[i].endPosition.Some? then parts[i].endPosition else parts[i].current
  {
    end := None;
    var k := |parts|;
    while k > 0 && parts[k - 1] == null
      invariant 0 <= k <= |parts| && forall j | k <= j < |parts| :: parts[j] == null
    {
      k := k - 1;
    }
    if k > 0 {
      assert LastPart(parts, k - 1);
      end := if parts[k - 1].endPosition.Some? then parts[k - 1].endPosition else parts[k - 1].current;
    }
  }

  method JoinParts(parts: seq<Buffer?>) returns (dataEvents: seq<Element>)
    requires Parts(parts)
    ensures Numbered(dataEvents) && Flatten(Values(dataEvents)) == JoinHeads(parts)
  {
    dataEvents := [];
    ghost var joined := JoinHeads(parts);
    hide Distinct, CursorIn, Flatten, Limited;
    FlattenNone();
    DropEnds(parts);
    for i := 0 to |parts|
      invariant Numbered(dataEvents)
      invariant joined == Flatten(Values(dataEvents)) + JoinHeads(parts[i..])
    {
      DropNext(parts, i);
      var values := PartValues(parts[i]);
      Assoc(Flatten(Values(dataEvents)), Flatten(values), JoinHeads(parts[i + 1..]));
      FlattenConcat(Values(dataEvents), values);
      dataEvents := PushAll(dataEvents, values);
    }
  }

  method PartValues(b: Buffer?) returns (values: seq<Event>)
    requires b != null ==> b.Valid() && HeadAtFront(b)
    ensures Flatten(values) == if b == null || b.head.None? then [] else b.HeadUnread()
  {
    values := [];
    if b != null && b.head.Some? {
      values := Values(b.dataEvents);
      if b.head.value.index > 0 {
        values := [Limited(values[0], b.head.value.index, values[0].Len())] + values[1..];
      }
      PartBytes(b, values);
    }
  }

  lemma PartBytes(b: Buffer, values: seq<Event>)
    requires b.Valid() && HeadAtFront(b) && b.head.Some?
    requires b.head.value.index == 0 ==> values == Values(b.dataEvents)
    requires b.head.value.index > 0 ==>
      var front := b.dataEvents[0].value;
      values == [Limited(front, b.head.value.index, front.Len())] + Values(b.dataEvents)[1..]
    ensures Flatten(values) == b.HeadUnread()
  {
    if b.dataEvents != [] {
      AfterAt(b.dataEvents, 0);
      ValuesTail(b.dataEvents);
      assert values[1..] == Values(b.dataEvents)[1..];
      assert values[0].data == b.dataEvents[0].value.data[b.head.value.index..];
    }
  }

  method PushAll(events: seq<Element>, values: seq<Event>) returns (r: seq<Element>)
    requires Numbered(events)
    ensures Numbered(r) && Values(r) == Values(events) + values
  {
    r := events;
    for i := 0 to |values|
      invariant Numbered(r) && Values(r) == Values(events) + values[..i]
    {
      PushValue(r, Element(|r|, values[i]));
      r := r + [Element(|r|, values[i])];
    }
  }
}
