/** The socket data events of the reassembly buffer and the cursor that reads through them.

    A cursor is the value behind a buffer position: the event it stands on, the index inside that
    event, and the events after it in the list. What a reader can still get from a cursor is
    `Readable`, the longest run of bytes that never crosses a detected gap.
 */
module Events {
  import opened Seqs

  type Byte = bv8

  /** One data event. `bufferStart` is 0 for a chunk sent by the kernel; for an event narrowed to a
      byte range it is where that range begins. `reduced` marks a chunk after which the write had
      more bytes. */
  datatype Event = Event(dataId: nat, sequence: nat, finished: bool, reduced: bool, startTime: nat,
                         bufferStart: nat, data: seq<Byte>)
  {
    function Len(): nat {
      |data|
    }

    predicate IsStart() {
      sequence == 0
    }
  }

  /** The event narrowed to the bytes `from..size`. */
  function Limited(e: Event, from: nat, size: nat): Event
    requires from <= size <= e.Len()
  {
    e.(bufferStart := from, data := e.data[from..size])
  }

  datatype ReadError = NoError | EOF | NotComplete

  function Flatten(events: seq<Event>): seq<Byte> {
    if events == [] then [] else events[0].data + Flatten(events[1..])
  }

  lemma {:induction false} FlattenConcat(a: seq<Event>, b: seq<Event>)
    ensures Flatten(a + b) == Flatten(a) + Flatten(b)
  {
    if a == [] {
      LeftUnit(a, b);
      LeftUnit(Flatten(a), Flatten(b));
    } else {
      TailOfConcat(a, b);
      FlattenConcat(a[1..], b);
      Assoc(a[0].data, Flatten(a[1..]), Flatten(b));
    }
  }

  lemma FlattenLast(a: seq<Event>, e: Event)
    ensures Flatten(a + [e]) == Flatten(a) + e.data
  {
    FlattenConcat(a, [e]);
    assert Flatten([e]) == e.data + Flatten([]);
  }

  /** Whether a reader that used up `cur`, standing at `index`, may go on with `next`. */
  predicate Follows(validated: bool, cur: Event, index: nat, next: Event) {
    || validated
    || (cur.dataId == next.dataId && cur.sequence + 1 == next.sequence)
    || (next.IsStart() && cur.finished)
    || (cur.dataId == next.dataId && cur.sequence == next.sequence && index <= next.bufferStart)
  }

  /** Two parts of one event: a reader at the end of the first goes on with the second exactly if that does not begin
      before it, or the event is a whole write. */
  lemma PartsFollowIff(e: Event, a: nat, b: nat, c: nat)
    requires a <= e.Len() && b <= c <= e.Len()
    ensures Follows(false, Limited(e, 0, a), a, Limited(e, b, c)) <==> a <= b || (e.IsStart() && e.finished)
  {
  }

  /** An event in two parts reads as the event. */
  lemma PartsReadAsWhole(e: Event, a: nat)
    requires a <= e.Len()
    ensures Cursor(Limited(e, 0, a), 0, [Limited(e, a, e.Len())]).Readable(false) == e.data
  {
    var c := Cursor(Limited(e, 0, a), 0, [Limited(e, a, e.Len())]);
    PartsFollowIff(e, a, a, e.Len());
    assert c.Here() == e.data[0..a] && c.Step() == Cursor(Limited(e, a, e.Len()), 0, []);
    assert c.Step().Here() == e.data[a..] && c.Step().Readable(false) == e.data[a..] + [];
  }

  datatype Cursor = Cursor(event: Event, index: nat, rest: seq<Event>) {

    /** The unread bytes of the event under the cursor. */
    function Here(): seq<Byte> {
      if index <= event.Len() then event.data[index..] else []
    }

    predicate CanStep(validated: bool) {
      rest != [] && Follows(validated, event, if index < event.Len() then event.Len() else index, rest[0])
    }

    function Step(): Cursor
      requires rest != []
    {
      Cursor(rest[0], 0, rest[1..])
    }

    /** Every byte up to the first gap. */
    function Readable(validated: bool): seq<Byte>
      decreases |rest|
    {
      Here() + if CanStep(validated) then Step().Readable(validated) else []
    }

    /** The part of `Readable` behind this event. */
    function Onward(validated: bool): seq<Byte> {
      if CanStep(validated) then Step().Readable(validated) else []
    }

    lemma ReadableParts(validated: bool)
      ensures Readable(validated) == Here() + Onward(validated)
      ensures Stop(validated) == if CanStep(validated) then Step().Stop(validated) else if rest == [] then EOF else NotComplete
    {
    }

    /** Why reading ends after `Readable`: the list ran out, or the next event does not follow. */
    function Stop(validated: bool): (e: ReadError)
      ensures e != NoError
      decreases |rest|
    {
      if CanStep(validated) then Step().Stop(validated)
      else if rest == [] then EOF
      else NotComplete
    }

    /** Every byte from here to the end of the list, gaps or not. */
    function Unread(): seq<Byte> {
      Here() + Flatten(rest)
    }

    /** One read can give something, if only the empty next event. */
    predicate CanRead(validated: bool) {
      Here() != [] || CanStep(validated)
    }

    /** What one read may hand out: the rest of this event, or else all of the next one. */
    function NextPiece(validated: bool): seq<Byte>
      requires CanRead(validated)
    {
      if Here() != [] then Here() else Step().Here()
    }

    /** The cursor after `n` bytes of the next piece. */
    function Taken(n: nat): Cursor
      requires Here() != [] || rest != []
    {
      if Here() != [] then this.(index := index + n) else Step().(index := n)
    }

    lemma MoveInEvent(validated: bool, n: nat)
      requires n <= |Here()|
      ensures |Here()| <= |Readable(validated)| && Readable(validated)[..n] == Here()[..n]
      ensures this.(index := index + n).Readable(validated) == Readable(validated)[n..]
      ensures this.(index := index + n).Stop(validated) == Stop(validated)
    {
      hide Cursor.Readable, Cursor.Stop, Cursor.Here;
      ReadableParts(validated);
      var moved := this.(index := index + n);
      if n == 0 {
        assert moved == this;
      } else {
        moved.ReadableParts(validated);
        HereMoved(validated, n);
        DropConcat(Here(), Onward(validated), n);
      }
    }

    lemma HereMoved(validated: bool, n: nat)
      requires n <= |Here()|
      ensures this.(index := index + n).Here() == Here()[n..]
      ensures n > 0 ==> this.(index := index + n).CanStep(validated) == CanStep(validated)
    {
    }

    /** One read moves along the readable run and does not change where the run ends. */
    lemma TakeAdvances(validated: bool, n: nat)
      requires CanRead(validated) && n <= |NextPiece(validated)|
      ensures n <= |Readable(validated)| && Readable(validated)[..n] == NextPiece(validated)[..n]
      ensures Taken(n).Readable(validated) == Readable(validated)[n..]
      ensures Taken(n).Stop(validated) == Stop(validated)
    {
      hide Cursor.Readable, Cursor.Stop;
      ReadableParts(validated);
      if Here() == [] {
        Step().MoveInEvent(validated, n);
      } else {
        MoveInEvent(validated, n);
      }
    }

    /** The non-empty pieces in which `n` bytes are handed out, at most one piece per event. */
    function Pieces(validated: bool, n: nat): seq<seq<Byte>>
      decreases |rest|
    {
      if n == 0 then []
      else
        var m := if n < |Here()| then n else |Here()|;
        var first := if m == 0 then [] else [Here()[..m]];
        first + if n > m && CanStep(validated) then Step().Pieces(validated, n - m) else []
    }

    lemma UnreadParts()
      ensures Unread() == Here() + if rest == [] then [] else Step().Unread()
    {
    }

    lemma UnreadMove(n: nat)
      requires n <= |Here()|
      ensures |Here()| <= |Unread()| && this.(index := index + n).Unread() == Unread()[n..]
    {
      hide Flatten;
      assert this.(index := index + n).Here() == Here()[n..];
    }

    /** A position that was moved to this event with an index left over from another one misses bytes, unless
        the index is zero or the event is empty. */
    lemma StaleIndexMisses()
      ensures Unread() == this.(index := 0).Unread() <==> index == 0 || event.Len() == 0
    {
      hide Flatten;
      if index > 0 && event.Len() > 0 {
        assert |Here()| < |event.data| && this.(index := 0).Here() == event.data;
      }
    }

    /** One read hands out the first piece. */
    lemma PiecesTaken(validated: bool, n: nat, m: nat)
      requires CanRead(validated) && n > 0
      requires m == if n < |NextPiece(validated)| then n else |NextPiece(validated)|
      ensures Pieces(validated, n)
           == (if m == 0 then [] else [NextPiece(validated)[..m]]) + Taken(m).Pieces(validated, n - m)
    {
      hide Cursor.Here, Follows;
      if Here() == [] {
        var next := Step();
        assert Taken(m) == next.(index := next.index + m) && NextPiece(validated) == next.Here();
        assert Pieces(validated, n) == [] + next.Pieces(validated, n);
        LeftUnit([], next.Pieces(validated, n));
        next.PiecesInEvent(validated, n, m);
      } else {
        assert Taken(m) == this.(index := index + m) && NextPiece(validated) == Here();
        PiecesInEvent(validated, n, m);
      }
    }

    lemma PiecesInEvent(validated: bool, n: nat, m: nat)
      requires n > 0 && m == if n < |Here()| then n else |Here()|
      ensures Pieces(validated, n)
           == (if m == 0 then [] else [Here()[..m]]) + this.(index := index + m).Pieces(validated, n - m)
    {
      hide Cursor.Here, Cursor.CanStep, Cursor.Pieces;
      var moved := this.(index := index + m);
      PiecesParts(validated, n, m);
      if m == 0 {
        LeftUnit([], Pieces(validated, n));
      } else if n > m {
        AfterAllHere(validated);
        moved.PiecesParts(validated, n - m, 0);
        LeftUnit([], Behind(validated, n - m));
      } else {
        PiecesNone(validated);
      }
    }

    /** The pieces of `n` bytes handed out behind this event. */
    function Behind(validated: bool, n: nat): seq<seq<Byte>> {
      if CanStep(validated) then Step().Pieces(validated, n) else []
    }

    lemma PiecesParts(validated: bool, n: nat, m: nat)
      requires n > 0 && m == if n < |Here()| then n else |Here()|
      ensures Pieces(validated, n) == (if m == 0 then [] else [Here()[..m]]) + if n > m then Behind(validated, n - m) else []
    {
    }

    lemma PiecesNone(validated: bool)
      ensures forall i :: this.(index := i).Pieces(validated, 0) == []
    {
    }

    lemma AfterAllHere(validated: bool)
      ensures var moved := this.(index := index + |Here()|); moved.Here() == [] && moved.CanStep(validated) == CanStep(validated)
    {
    }

    /** On a validated buffer nothing is ever a gap. */
    lemma {:induction false} ValidatedReadsAll()
      ensures Readable(true) == Unread()
      ensures Stop(true) == EOF
      decreases |rest|
    {
      if rest != [] {
        Step().ValidatedReadsAll();
      }
    }

    /** Whatever is readable is a prefix of what is there: reading never skips an event. */
    lemma {:induction false} ReadableIsPrefix(validated: bool)
      ensures Readable(validated) <= Unread()
      decreases |rest|
    {
      if CanStep(validated) {
        Step().ReadableIsPrefix(validated);
        assert Unread() == Here() + Step().Unread();
      }
    }

    /** EOF means the run reached the end of the list, so nothing unread is left behind. */
    lemma {:induction false} EofReadsAll(validated: bool)
      requires Stop(validated) == EOF
      ensures Readable(validated) == Unread()
      decreases |rest|
    {
      if CanStep(validated) {
        Step().EofReadsAll(validated);
        assert Unread() == Here() + Step().Unread();
      }
    }

    /** The pieces join to the bytes they are pieces of. */
    lemma {:induction false} PiecesCover(validated: bool, n: nat)
      requires n <= |Readable(validated)|
      ensures Concat(Pieces(validated, n)) == Readable(validated)[..n]
      decreases |rest|
    {
      hide Cursor.Here, Cursor.CanStep, Cursor.Pieces, Cursor.Readable, Cursor.Onward;
      ReadableParts(validated);
      if n == 0 {
        PiecesNone(validated);
      } else {
        var m := if n < |Here()| then n else |Here()|;
        PiecesParts(validated, n, m);
        if n > m {
          BehindParts(validated, n - m);
          Step().PiecesCover(validated, n - m);
          TakeConcat(Here(), Onward(validated), n);
          TakeAll(Here());
          PiecesJoin(Here(), m, Behind(validated, n - m));
        } else {
          TakeFront(Here(), Onward(validated), n);
          PiecesJoin(Here(), m, []);
          RightUnit(Here()[..m]);
        }
      }
    }

    /** With bytes to be read behind this event, there is a next one and they are read from it. */
    lemma BehindParts(validated: bool, n: nat)
      ensures Onward(validated) != [] ==> CanStep(validated) && rest != [] && Onward(validated) == Step().Readable(validated)
      ensures CanStep(validated) ==> rest != [] && Behind(validated, n) == Step().Pieces(validated, n)
    {
    }

    /** The bytes one read can hand out at most: those left of the first event that has any. */
    function FirstPiece(validated: bool): seq<Byte>
      decreases |rest|
    {
      if Here() == [] && CanStep(validated) then Step().FirstPiece(validated) else Here()
    }

    lemma {:induction false} PiecesNotEmpty(validated: bool, n: nat)
      requires n <= |Readable(validated)|
      ensures NoneEmpty(Pieces(validated, n))
      decreases |rest|
    {
      hide Cursor.Here, Cursor.CanStep, Cursor.Pieces, Cursor.Readable, Cursor.Onward, NoneEmpty;
      ReadableParts(validated);
      if n == 0 {
        PiecesNone(validated);
        NoneEmptyParts([], 0, []);
      } else {
        var m := if n < |Here()| then n else |Here()|;
        PiecesParts(validated, n, m);
        if n > m {
          BehindParts(validated, n - m);
          Step().PiecesNotEmpty(validated, n - m);
          NoneEmptyParts(Here(), m, Behind(validated, n - m));
        } else {
          NoneEmptyParts(Here(), m, []);
        }
      }
    }

    /** One piece is enough exactly when the first one is long enough. */
    lemma {:induction false} OnePieceIff(validated: bool, n: nat)
      requires 0 < n <= |Readable(validated)|
      ensures Pieces(validated, n) != []
      ensures |Pieces(validated, n)| == 1 <==> n <= |FirstPiece(validated)|
      decreases |rest|
    {
      hide Cursor.Here, Cursor.CanStep, Cursor.Pieces, Cursor.Readable, Cursor.Onward;
      ReadableParts(validated);
      var m := if n < |Here()| then n else |Here()|;
      PiecesParts(validated, n, m);
      if n > m {
        BehindParts(validated, n - m);
        Step().OnePieceIff(validated, n - m);
      }
    }
  }

  ghost predicate NoneEmpty(pieces: seq<seq<Byte>>) {
    forall p | p in pieces :: p != []
  }

  lemma NoneEmptyParts(here: seq<Byte>, m: nat, later: seq<seq<Byte>>)
    requires m <= |here| && (later == [] || NoneEmpty(later))
    ensures NoneEmpty((if m == 0 then [] else [here[..m]]) + later) && NoneEmpty([])
  {
  }

  lemma PiecesJoin(here: seq<Byte>, m: nat, later: seq<seq<Byte>>)
    requires m <= |here|
    ensures Concat((if m == 0 then [] else [here[..m]]) + later) == here[..m] + Concat(later)
    ensures Concat([]) == []
  {
    if m == 0 {
      LeftUnit([], later);
      LeftUnit(here[..m], Concat(later));
    } else {
      TailOfCons(here[..m], later);
    }
  }

  /** What filling a destination of a given length leaves there: the next bytes if the first piece is long enough; if it is
      not, the last place keeps what was there. */
  ghost predicate FilledInOnePiece(c: Cursor, validated: bool, before: seq<Byte>, after: seq<Byte>)
    requires |before| == |after| <= |c.Readable(validated)|
  {
    && (|after| <= |c.FirstPiece(validated)| ==> after <= c.Readable(validated))
    && (|after| > |c.FirstPiece(validated)| ==> after[|after| - 1] == before[|before| - 1])
  }

  lemma FillingInPieces(c: Cursor, validated: bool, before: seq<Byte>, pieces: seq<seq<Byte>>, after: seq<Byte>)
    requires |before| <= |c.Readable(validated)| && pieces == c.Pieces(validated, |before|)
    requires (forall q | q in pieces :: |q| <= |before|) && after == Overwrite(before, pieces)
    ensures FilledInOnePiece(c, validated, before, after)
  {
    hide *;
    if before != [] {
      PiecesOf(c, validated, |before|, pieces);
      FilledBy(before, pieces, c.Readable(validated), |c.FirstPiece(validated)|);
    }
    FilledIs(c, validated, before, after);
  }

  lemma FilledIs(c: Cursor, validated: bool, before: seq<Byte>, after: seq<Byte>)
    requires |before| == |after| <= |c.Readable(validated)|
    requires before != [] && |before| <= |c.FirstPiece(validated)| ==> after <= c.Readable(validated)
    requires before != [] && |before| > |c.FirstPiece(validated)| ==> after[|before| - 1] == before[|before| - 1]
    ensures FilledInOnePiece(c, validated, before, after)
  {
    hide Cursor.FirstPiece, Cursor.Readable;
  }

  lemma PiecesOf(c: Cursor, validated: bool, n: nat, pieces: seq<seq<Byte>>)
    requires 0 < n <= |c.Readable(validated)| && pieces == c.Pieces(validated, n)
    ensures pieces != [] && (|pieces| == 1 <==> n <= |c.FirstPiece(validated)|) && NoneEmpty(pieces)
    ensures |Concat(pieces)| == n && Concat(pieces) <= c.Readable(validated)
  {
    hide *;
    c.OnePieceIff(validated, n);
    PiecesPrefix(c, validated, n);
    c.PiecesNotEmpty(validated, n);
  }

  lemma FilledBy(before: seq<Byte>, pieces: seq<seq<Byte>>, readable: seq<Byte>, first: nat)
    requires before != [] && pieces != [] && (|pieces| == 1 <==> |before| <= first) && NoneEmpty(pieces)
    requires |Concat(pieces)| == |before| && Concat(pieces) <= readable && forall q | q in pieces :: |q| <= |before|
    ensures |before| <= first ==> Overwrite(before, pieces) <= readable
    ensures |before| > first ==> Overwrite(before, pieces)[|before| - 1] == before[|before| - 1]
  {
    hide Overwrite, Concat, NoneEmpty;
    if |pieces| == 1 {
      OnePieceFills(before, pieces);
    } else {
      PiecesKeepLast(before, pieces);
    }
  }

  lemma PiecesPrefix(c: Cursor, validated: bool, n: nat)
    requires n <= |c.Readable(validated)|
    ensures |Concat(c.Pieces(validated, n))| == n && Concat(c.Pieces(validated, n)) <= c.Readable(validated)
  {
    hide Cursor.Pieces, Cursor.Readable, Concat;
    c.PiecesCover(validated, n);
  }

  lemma OnePieceFills(dest: seq<Byte>, pieces: seq<seq<Byte>>)
    requires |pieces| == 1 && |Concat(pieces)| == |dest| && forall p | p in pieces :: |p| <= |dest|
    ensures Overwrite(dest, pieces) == Concat(pieces)
  {
    assert pieces[1..] == [];
    RightUnit(pieces[0]);
    SpliceAll(dest, pieces[0]);
  }

  lemma PiecesKeepLast(dest: seq<Byte>, pieces: seq<seq<Byte>>)
    requires |pieces| >= 2 && |Concat(pieces)| == |dest| > 0 && NoneEmpty(pieces) && forall p | p in pieces :: |p| <= |dest|
    ensures Overwrite(dest, pieces)[|dest| - 1] == dest[|dest| - 1]
  {
    hide Overwrite, Concat;
    forall p | p in pieces ensures |p| < |dest| {
      var i :| 0 <= i < |pieces| && pieces[i] == p;
      PieceShorterThanWhole(pieces, i);
    }
    OverwriteKeepsLast(dest, pieces);
  }

  lemma SpliceAll(dest: seq<Byte>, piece: seq<Byte>)
    requires |piece| == |dest|
    ensures Splice(dest, 0, piece) == piece
  {
  }

  function Concat(pieces: seq<seq<Byte>>): seq<Byte> {
    if pieces == [] then [] else pieces[0] + Concat(pieces[1..])
  }

  /** `dest` with `piece` copied to place `at`. */
  function Splice(dest: seq<Byte>, at: nat, piece: seq<Byte>): (r: seq<Byte>)
    requires at + |piece| <= |dest|
    ensures |r| == |dest|
  {
    dest[..at] + piece + dest[at + |piece|..]
  }

  /** What is left in a destination when each piece in turn is copied to its start. */
  function Overwrite(dest: seq<Byte>, pieces: seq<seq<Byte>>): (r: seq<Byte>)
    requires forall p | p in pieces :: |p| <= |dest|
    ensures |r| == |dest|
    decreases |pieces|
  {
    if pieces == [] then dest else Overwrite(Splice(dest, 0, pieces[0]), pieces[1..])
  }

  lemma {:induction false} OverwriteAppend(dest: seq<Byte>, pieces: seq<seq<Byte>>, last: seq<Byte>)
    requires forall p | p in pieces :: |p| <= |dest|
    requires |last| <= |dest|
    ensures forall p | p in pieces + [last] :: |p| <= |dest|
    ensures Overwrite(dest, pieces + [last]) == Splice(Overwrite(dest, pieces), 0, last)
    decreases |pieces|
  {
    hide Splice;
    if pieces == [] {
      assert [last][1..] == [];
    } else {
      OverwriteAppend(Splice(dest, 0, pieces[0]), pieces[1..], last);
      assert (pieces + [last])[1..] == pieces[1..] + [last];
    }
  }

  /** No piece reaches the last place, so its old content stays. */
  lemma {:induction false} OverwriteKeepsLast(dest: seq<Byte>, pieces: seq<seq<Byte>>)
    requires dest != []
    requires forall p | p in pieces :: |p| < |dest|
    ensures Overwrite(dest, pieces)[|dest| - 1] == dest[|dest| - 1]
    decreases |pieces|
  {
    if pieces != [] {
      OverwriteKeepsLast(Splice(dest, 0, pieces[0]), pieces[1..]);
    }
  }

  lemma {:induction false} PieceShorterThanWhole(pieces: seq<seq<Byte>>, i: nat)
    requires i < |pieces|
    ensures |pieces[i]| <= |Concat(pieces)|
    ensures |pieces| >= 2 && (forall p | p in pieces :: p != []) ==> |pieces[i]| < |Concat(pieces)|
  {
    if i > 0 {
      assert pieces[0] in pieces;
      PieceShorterThanWhole(pieces[1..], i - 1);
    } else if |pieces| >= 2 {
      assert pieces[1] in pieces;
      assert Concat(pieces[1..]) == pieces[1] + Concat(pieces[2..]) by {
        assert pieces[1..][1..] == pieces[2..];
      }
    }
  }

  lemma PiecesFit(pieces: seq<seq<Byte>>)
    ensures forall p | p in pieces :: |p| <= |Concat(pieces)|
  {
    forall p | p in pieces ensures |p| <= |Concat(pieces)| {
      var i :| 0 <= i < |pieces| && pieces[i] == p;
      PieceShorterThanWhole(pieces, i);
    }
  }

  /** Copying every piece to the start of `dest` leaves the joined bytes there. */
  ghost predicate OverwriteJoins(dest: seq<Byte>, pieces: seq<seq<Byte>>)
    requires |dest| == |Concat(pieces)|
  {
    PiecesFit(pieces);
    Overwrite(dest, pieces) == Concat(pieces)
  }

  /** It does so for each initial content exactly when there is at most one piece. */
  lemma OverwriteJoinsIffOnePiece(pieces: seq<seq<Byte>>)
    requires NoneEmpty(pieces)
    ensures (forall dest: seq<Byte> | |dest| == |Concat(pieces)| :: OverwriteJoins(dest, pieces)) <==> |pieces| <= 1
  {
    if |pieces| == 1 {
      var p := pieces[0];
      assert pieces == [p] && Concat(pieces) == p + Concat([]);
      forall dest: seq<Byte> | |dest| == |Concat(pieces)| ensures OverwriteJoins(dest, pieces) {
        PiecesFit(pieces);
        assert Overwrite(dest, pieces) == Overwrite(Splice(dest, 0, p), []) == Splice(dest, 0, p) == p;
      }
    } else if |pieces| >= 2 {
      var whole := Concat(pieces);
      forall p | p in pieces ensures |p| < |whole| {
        var i :| 0 <= i < |pieces| && pieces[i] == p;
        PieceShorterThanWhole(pieces, i);
      }
      assert pieces[0] in pieces;
      var k := |whole| - 1;
      var dest := whole[k := if whole[k] == 0 then 1 else 0];
      OverwriteKeepsLast(dest, pieces);
      assert !OverwriteJoins(dest, pieces);
    }
  }

  /** Filling a destination of length `n` leaves the next bytes there, whatever it held, if and only if the first piece has
      that many. */
  lemma FillsExactlyIff(c: Cursor, validated: bool, n: nat)
    requires n <= |c.Readable(validated)|
    ensures |Concat(c.Pieces(validated, n))| == n
    ensures (forall dest: seq<Byte> | |dest| == n :: OverwriteJoins(dest, c.Pieces(validated, n))) <==> n <= |c.FirstPiece(validated)|
  {
    hide Cursor.Pieces, Cursor.Readable, Cursor.FirstPiece, Concat, NoneEmpty, OverwriteJoins;
    PiecesPrefix(c, validated, n);
    c.PiecesNotEmpty(validated, n);
    OverwriteJoinsIffOnePiece(c.Pieces(validated, n));
    if n > 0 {
      c.OnePieceIff(validated, n);
    } else {
      c.PiecesNone(validated);
    }
  }
}
