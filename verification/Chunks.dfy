/** How the kernel cuts one write into numbered chunks, and what reading the chunks back gives. */
module Chunks {
  import opened Events
  import opened Ordering
  import opened Seqs

  const MAX_CHUNK := 20480
  const CHUNK_LIMIT := 6
  const SEND_LIMIT := 122880
  const COPY_MASK := 0x800

  /** One write on a connection. `memory` is what the six event buffers held when they were reserved. */
  datatype Write = Write(dataId: nat, startTime: nat, bytes: seq<Byte>, memory: seq<seq<Byte>>)

  ghost predicate ValidWrite(w: Write) {
    |w.memory| == CHUNK_LIMIT && forall i | 0 <= i < CHUNK_LIMIT :: |w.memory[i]| == MAX_CHUNK
  }

  /** The number of chunks sent for `n` bytes. */
  function ChunkCount(n: nat): nat {
    Min(CHUNK_LIMIT, (n + MAX_CHUNK - 1) / MAX_CHUNK)
  }

  /** The bytes of the write that chunk `i` stands for. */
  function Range(bytes: seq<Byte>, i: nat): seq<Byte>
    requires i * MAX_CHUNK <= |bytes|
  {
    bytes[i * MAX_CHUNK..Min(|bytes|, (i + 1) * MAX_CHUNK)]
  }

  /** The event buffer after the copy: the copied length is masked with 0x7ff, the rest is old memory. */
  function Copied(range: seq<Byte>, memory: seq<Byte>): (r: seq<Byte>)
    requires |range| <= |memory|
    ensures |r| == |range|
  {
    var m := |range| % COPY_MASK;
    range[..m] + memory[m..|range|]
  }

  function Chunk(w: Write, i: nat): Event
    requires ValidWrite(w) && i < ChunkCount(|w.bytes|)
  {
    var n := |w.bytes|;
    Event(w.dataId, i, i == ChunkCount(n) - 1, (i + 1) * MAX_CHUNK < n, w.startTime, 0,
          Copied(Range(w.bytes, i), w.memory[i]))
  }

  function ChunksOf(w: Write): (cs: seq<Event>)
    requires ValidWrite(w)
    ensures |cs| == ChunkCount(|w.bytes|)
  {
    seq(ChunkCount(|w.bytes|), i requires 0 <= i < ChunkCount(|w.bytes|) => Chunk(w, i))
  }

  /** The chunk loop of one upload: six rounds, a round with nothing left to send emits nothing. */
  method UploadSocketDataBuf(w: Write) returns (events: seq<Event>)
    requires ValidWrite(w)
    ensures events == ChunksOf(w)
  {
    events := [];
    var size, alreadySend := |w.bytes|, 0;
    for index := 0 to CHUNK_LIMIT
      invariant alreadySend == Min(size, index * MAX_CHUNK)
      invariant |events| == Min(index, ChunkCount(size))
      invariant forall i | 0 <= i < |events| :: events[i] == Chunk(w, i)
    {
      var remaining := size - alreadySend;
      var need, reduced := remaining, false;
      if remaining > MAX_CHUNK {
        need, reduced := MAX_CHUNK, true;
      }
      var finished := need + alreadySend >= size || index == CHUNK_LIMIT - 1;
      if need > 0 {
        var m := need % COPY_MASK;
        var buffer := w.bytes[alreadySend..alreadySend + m] + w.memory[index][m..need];
        assert Range(w.bytes, index) == w.bytes[alreadySend..alreadySend + need];
        assert Range(w.bytes, index)[..m] == w.bytes[alreadySend..alreadySend + m];
        assert buffer == Copied(Range(w.bytes, index), w.memory[index]);
        events := events + [Event(w.dataId, index, finished, reduced, w.startTime, 0, buffer)];
      }
      alreadySend := alreadySend + need;
    }
  }

  /** The chunks of one write: numbered from 0, 1 to 20480 bytes each, exactly the last one finished,
      and their ranges join to the first six chunks' worth of the write. */
  lemma ChunksPartition(w: Write)
    requires ValidWrite(w) && w.bytes != []
    ensures var cs := ChunksOf(w);
      && 1 <= |cs| <= CHUNK_LIMIT
      && (forall i | 0 <= i < |cs| ::
            && cs[i].dataId == w.dataId && cs[i].startTime == w.startTime && cs[i].sequence == i && cs[i].bufferStart == 0
            && 1 <= cs[i].Len() <= MAX_CHUNK
            && (cs[i].finished <==> i == |cs| - 1))
      && |Flatten(cs)| == Min(|w.bytes|, SEND_LIMIT)
      && JoinRanges(w.bytes, |cs|) == w.bytes[..Min(|w.bytes|, SEND_LIMIT)]
  {
    hide Flatten, JoinRanges, Copied;
    var cs := ChunksOf(w);
    JoinedRanges(w, |cs|);
    assert cs[..|cs|] == cs;
  }

  /** The first `k` ranges in a row. */
  function JoinRanges(bytes: seq<Byte>, k: nat): seq<Byte>
    requires k <= ChunkCount(|bytes|)
  {
    if k == 0 then [] else JoinRanges(bytes, k - 1) + Range(bytes, k - 1)
  }

  lemma {:induction false} JoinedRanges(w: Write, k: nat)
    requires ValidWrite(w) && k <= ChunkCount(|w.bytes|)
    ensures JoinRanges(w.bytes, k) == w.bytes[..Min(|w.bytes|, k * MAX_CHUNK)]
    ensures |Flatten(ChunksOf(w)[..k])| == Min(|w.bytes|, k * MAX_CHUNK)
  {
    if k > 0 {
      hide Flatten, Copied, Range;
      JoinedRanges(w, k - 1);
      var cs := ChunksOf(w);
      assert cs[..k] == cs[..k - 1] + [cs[k - 1]];
      FlattenLast(cs[..k - 1], cs[k - 1]);
      RangeNext(w.bytes, k - 1);
    } else {
      assert ChunksOf(w)[..k] == [];
    }
  }

  lemma RangeNext(bytes: seq<Byte>, i: nat)
    requires i * MAX_CHUNK <= |bytes|
    ensures bytes[..Min(|bytes|, i * MAX_CHUNK)] + Range(bytes, i) == bytes[..Min(|bytes|, (i + 1) * MAX_CHUNK)]
    ensures |Range(bytes, i)| == Min(|bytes|, (i + 1) * MAX_CHUNK) - i * MAX_CHUNK
  {
  }

  /** The masked copy gives the range for every old memory exactly when the range is under 2048 bytes. */
  lemma CopyExactIff(range: seq<Byte>)
    requires |range| <= MAX_CHUNK
    ensures (forall memory: seq<Byte> | |memory| == MAX_CHUNK :: Copied(range, memory) == range)
            <==> |range| < COPY_MASK
  {
    if |range| < COPY_MASK {
      assert |range| % COPY_MASK == |range|;
    } else {
      var m := |range| % COPY_MASK;
      var other: Byte := if range[m] == 0 then 1 else 0;
      var memory := seq(MAX_CHUNK, _ => other);
      assert Copied(range, memory)[m] == other;
    }
  }

  /** Everything the kernel sends for these writes, in order. */
  function Sent(writes: seq<Write>): seq<Event>
    requires forall w | w in writes :: ValidWrite(w)
  {
    if writes == [] then [] else ChunksOf(writes[0]) + Sent(writes[1..])
  }

  ghost predicate IncreasingIds(writes: seq<Write>) {
    forall i, j | 0 <= i < j < |writes| :: writes[i].dataId < writes[j].dataId
  }

  ghost predicate ValidWrites(writes: seq<Write>) {
    && (forall w | w in writes :: ValidWrite(w)) && IncreasingIds(writes)
    && forall i | 0 <= i < |writes| :: writes[i].bytes != []
  }

  lemma {:induction false} SentIds(writes: seq<Write>, i: nat)
    requires ValidWrites(writes) && i < |Sent(writes)|
    ensures exists k :: 0 <= k < |writes| && Sent(writes)[i] in ChunksOf(writes[k])
  {
    var first := ChunksOf(writes[0]);
    if i < |first| {
      assert Sent(writes)[i] in first;
    } else {
      SentIds(writes[1..], i - |first|);
      var k :| 0 <= k < |writes| - 1 && Sent(writes[1..])[i - |first|] in ChunksOf(writes[1..][k]);
      assert Sent(writes)[i] in ChunksOf(writes[k + 1]);
    }
  }

  lemma {:induction false} SentStrictlySorted(writes: seq<Write>)
    requires ValidWrites(writes)
    ensures StrictlySorted(Sent(writes))
  {
    hide Copied, Range;
    if writes != [] {
      SentStrictlySorted(writes[1..]);
      var first, later := ChunksOf(writes[0]), Sent(writes[1..]);
      forall j | 0 <= j < |later| ensures later[j].dataId > writes[0].dataId {
        SentIds(writes[1..], j);
      }
    }
  }

  /** Adjacent events that the unvalidated reader accepts one after the other. */
  ghost predicate Linked(events: seq<Event>) {
    forall i | 0 <= i < |events| - 1 :: Follows(false, events[i], events[i].Len(), events[i + 1])
  }

  /** Reading from the front gives the events up to and including the first that has no follower. */
  lemma {:induction false} ReadsUpToFirstBreak(events: seq<Event>, k: nat)
    requires k < |events| && Linked(events[..k + 1])
    requires k + 1 == |events| || !Follows(false, events[k], events[k].Len(), events[k + 1])
    ensures Cursor(events[0], 0, events[1..]).Readable(false) == Flatten(events[..k + 1])
    ensures Cursor(events[0], 0, events[1..]).Stop(false) == if k + 1 == |events| then EOF else NotComplete
  {
    var c := Cursor(events[0], 0, events[1..]);
    if k > 0 {
      var tail := events[1..];
      assert tail[..k] == events[..k + 1][1..];
      ReadsUpToFirstBreak(tail, k - 1);
      assert Follows(false, events[..k + 1][0], events[0].Len(), events[..k + 1][1]);
      assert c.Step() == Cursor(tail[0], 0, tail[1..]);
    } else {
      assert events[..1] == [events[0]];
      assert Flatten([events[0]]) == events[0].data;
    }
  }

  /** Either the next chunk of the same write, or a finished write and the first chunk of a later one. */
  ghost predicate Adjacent(x: Event, y: Event) {
    || (x.dataId == y.dataId && x.sequence + 1 == y.sequence && !x.finished)
    || (x.dataId < y.dataId && x.finished && y.IsStart())
  }

  ghost predicate AllAdjacent(s: seq<Event>) {
    forall i, j | 0 <= i < |s| - 1 && j == i + 1 :: Adjacent(s[i], s[j])
  }

  lemma {:induction false} SentAdjacent(writes: seq<Write>)
    requires ValidWrites(writes)
    ensures AllAdjacent(Sent(writes))
  {
    hide Copied, Range;
    if writes != [] {
      SentAdjacent(writes[1..]);
      var first, later := ChunksOf(writes[0]), Sent(writes[1..]);
      if later != [] {
        assert writes[1..][0] in writes;
        assert later[0] == Chunk(writes[1], 0);
        assert Adjacent(first[|first| - 1], later[0]);
      }
    }
  }

  /** End to end: whatever order the chunks of these writes arrive in, the buffer holds them in the
      order sent and a reader at its front gets all of their bytes, ending at the end of the list. */
  lemma ReadBack(writes: seq<Write>, arrivals: seq<Event>)
    requires ValidWrites(writes) && writes != []
    requires multiset(arrivals) == multiset(Sent(writes))
    ensures Build(arrivals) == Sent(writes) && Build(arrivals) != []
    ensures var front := Cursor(Build(arrivals)[0], 0, Build(arrivals)[1..]);
            front.Readable(false) == Flatten(Sent(writes)) && front.Stop(false) == EOF
  {
    hide Cursor.Readable, Cursor.Stop, Flatten, InsertAll, Sent, Chunk, Copied, Range;
    SentStrictlySorted(writes);
    BuildOfSorted(Sent(writes), arrivals);
    SentAdjacent(writes);
    SentSomething(writes);
    TakeAll(Sent(writes));
    ReadsUpToFirstBreak(Sent(writes), |Sent(writes)| - 1);
  }

  lemma SentSomething(writes: seq<Write>)
    requires ValidWrites(writes) && writes != []
    ensures Sent(writes) != [] && Sent(writes)[0].IsStart()
  {
    assert ChunksOf(writes[0]) != [];
  }

  /** The bytes of all writes in order. */
  function Written(writes: seq<Write>): seq<Byte> {
    if writes == [] then [] else writes[0].bytes + Written(writes[1..])
  }

  /** Where every copy is exact, the bytes read back are the bytes written. */
  lemma {:induction false} ShortWritesReadBackExactly(writes: seq<Write>)
    requires ValidWrites(writes)
    requires forall w | w in writes :: |w.bytes| < COPY_MASK
    ensures Flatten(Sent(writes)) == Written(writes)
  {
    if writes != [] {
      ShortWritesReadBackExactly(writes[1..]);
      var w := writes[0];
      assert w in writes;
      OneShortWrite(w);
      FlattenConcat(ChunksOf(w), Sent(writes[1..]));
    }
  }

  /** The same writes, sent over buffers that held something else. */
  ghost predicate SameWrites(a: seq<Write>, b: seq<Write>) {
    |a| == |b| && forall i | 0 <= i < |a| :: b[i] == a[i].(memory := b[i].memory)
  }

  /** The bytes read back are the bytes written, whatever the event buffers held, if and only if every write is under
      2048 bytes. */
  lemma ReadBackExactlyIff(writes: seq<Write>)
    requires ValidWrites(writes)
    ensures (forall sent | ValidWrites(sent) && SameWrites(writes, sent) :: Flatten(Sent(sent)) == Written(writes))
      <==> forall w | w in writes :: |w.bytes| < COPY_MASK
  {
    hide Flatten, Sent, Written;
    if forall w | w in writes :: |w.bytes| < COPY_MASK {
      forall sent | ValidWrites(sent) && SameWrites(writes, sent) ensures Flatten(Sent(sent)) == Written(writes) {
        ShortWritesReadBackExactly(sent);
        WrittenSame(writes, sent);
      }
    } else {
      var sent := LongWriteGarbled(writes);
    }
  }

  lemma {:induction false} WrittenSame(a: seq<Write>, b: seq<Write>)
    requires SameWrites(a, b)
    ensures Written(a) == Written(b)
  {
    if a != [] {
      WrittenSame(a[1..], b[1..]);
    }
  }

  /** A long write comes out wrong over some memory. */
  lemma {:induction false} LongWriteGarbled(writes: seq<Write>) returns (sent: seq<Write>)
    requires ValidWrites(writes) && exists w :: w in writes && |w.bytes| >= COPY_MASK
    ensures ValidWrites(sent) && SameWrites(writes, sent) && Flatten(Sent(sent)) != Written(writes)
  {
    hide Flatten, Copied, Range, Chunk;
    var w := writes[0];
    if |w.bytes| >= COPY_MASK {
      var w' := Garbled(w);
      sent := [w'] + writes[1..];
      ValidFirst(writes, w');
      assert sent[1..] == writes[1..];
      var i := GarbledByte(w);
      FlattenConcat(ChunksOf(w'), Sent(sent[1..]));
      assert Flatten(Sent(sent))[i] != Written(writes)[i];
    } else {
      assert writes[1..] == writes[1..|writes|];
      var rest := LongWriteGarbled(writes[1..]);
      sent := [w] + rest;
      ValidRest(writes, rest);
      assert sent[1..] == rest;
      OneShortWrite(w);
      FlattenConcat(ChunksOf(w), Sent(rest));
      SameFront(w.bytes, Flatten(Sent(rest)), Written(writes[1..]));
    }
  }

  lemma SameFront(a: seq<Byte>, b: seq<Byte>, c: seq<Byte>)
    ensures a + b == a + c ==> b == c
  {
    if a + b == a + c {
      assert b == (a + b)[|a|..] && c == (a + c)[|a|..];
    }
  }

  lemma ValidFirst(writes: seq<Write>, w: Write)
    requires ValidWrites(writes) && writes != [] && ValidWrite(w) && w == writes[0].(memory := w.memory)
    ensures ValidWrites([w] + writes[1..]) && SameWrites(writes, [w] + writes[1..])
  {
  }

  lemma ValidRest(writes: seq<Write>, rest: seq<Write>)
    requires ValidWrites(writes) && writes != [] && ValidWrites(rest) && SameWrites(writes[1..], rest)
    ensures ValidWrites([writes[0]] + rest) && SameWrites(writes, [writes[0]] + rest)
  {
  }

  lemma OneShortWrite(w: Write)
    requires ValidWrite(w) && 0 < |w.bytes| < COPY_MASK
    ensures Flatten(ChunksOf(w)) == w.bytes
  {
    hide Flatten;
    assert ChunksOf(w) == [Chunk(w, 0)];
    assert Chunk(w, 0).data == w.bytes;
    FlattenOne(Chunk(w, 0));
  }

  /** The place of the first byte that the masked copy of the first chunk leaves out. */
  function LeftOut(w: Write): (i: nat)
    requires |w.bytes| >= COPY_MASK
    ensures i < Min(|w.bytes|, MAX_CHUNK)
  {
    Min(|w.bytes|, MAX_CHUNK) % COPY_MASK
  }

  function Garbled(w: Write): Write
    requires ValidWrite(w) && |w.bytes| >= COPY_MASK
  {
    w.(memory := w.memory[0 := seq(MAX_CHUNK, _ => if w.bytes[LeftOut(w)] == 0 then 1 else 0)])
  }

  lemma GarbledByte(w: Write) returns (i: nat)
    requires ValidWrite(w) && |w.bytes| >= COPY_MASK
    ensures ValidWrite(Garbled(w)) && i < |w.bytes|
    ensures var bytes := Flatten(ChunksOf(Garbled(w))); i < |bytes| && bytes[i] != w.bytes[i]
  {
    hide Flatten;
    var w' := Garbled(w);
    i := LeftOut(w);
    var cs := ChunksOf(w');
    assert cs == [cs[0]] + cs[1..] && cs[0] == Chunk(w', 0);
    FlattenConcat([cs[0]], cs[1..]);
    FlattenOne(cs[0]);
    assert Copied(Range(w.bytes, 0), w'.memory[0])[i] == w'.memory[0][i];
  }

  lemma FlattenOne(e: Event)
    ensures Flatten([e]) == e.data
  {
  }

  /** No write that `a` or `b` is part of lost a chunk between them. */
  ghost predicate Seamless(sent: seq<Event>, a: nat, b: nat)
    requires a < b < |sent|
  {
    forall m | a < m < b :: sent[m].dataId != sent[a].dataId && sent[m].dataId != sent[b].dataId
  }

  /** Some chunks are lost. Between two neighbours that did arrive, the reader goes on exactly when
      every lost chunk between them belongs to a write of which neither neighbour is part. */
  lemma GapDetection(writes: seq<Write>, a: nat, b: nat)
    requires ValidWrites(writes) && a < b < |Sent(writes)|
    ensures var sent := Sent(writes);
            Follows(false, sent[a], sent[a].Len(), sent[b]) <==> Seamless(sent, a, b)
  {
    var sent := Sent(writes);
    SentStrictlySorted(writes);
    SentAdjacent(writes);
    if b > a + 1 {
      assert Adjacent(sent[a], sent[a + 1]);
      assert Adjacent(sent[b - 1], sent[b]);
      assert Before(sent[a], sent[a + 1]) && Before(sent[a + 1], sent[b]);
      if sent[b].IsStart() && sent[a].finished {
        forall m | a < m < b ensures sent[m].dataId != sent[a].dataId && sent[m].dataId != sent[b].dataId {
          assert m > a + 1 ==> Before(sent[a + 1], sent[m]);
          assert m < b - 1 ==> Before(sent[m], sent[b - 1]);
        }
      }
    }
  }

  /** The chunks that arrived: those of `sent` at the places `at`. */
  function Pick(sent: seq<Event>, at: seq<nat>): seq<Event>
    requires forall i | 0 <= i < |at| :: at[i] < |sent|
  {
    seq(|at|, i requires 0 <= i < |at| => sent[at[i]])
  }

  ghost predicate Increasing(at: seq<nat>) {
    forall i, j | 0 <= i < j < |at| :: at[i] < at[j]
  }

  lemma PickSorted(sent: seq<Event>, at: seq<nat>)
    requires StrictlySorted(sent) && Increasing(at) && forall i | 0 <= i < |at| :: at[i] < |sent|
    ensures StrictlySorted(Pick(sent, at))
  {
  }

  lemma PickLinked(writes: seq<Write>, at: seq<nat>, k: nat)
    requires ValidWrites(writes)
    requires k < |at| && Increasing(at) && forall i | 0 <= i < |at| :: at[i] < |Sent(writes)|
    requires forall i | 0 <= i < k :: Seamless(Sent(writes), at[i], at[i + 1])
    ensures Linked(Pick(Sent(writes), at)[..k + 1])
    ensures var got := Pick(Sent(writes), at); k + 1 < |at| ==>
              (Follows(false, got[k], got[k].Len(), got[k + 1]) <==> Seamless(Sent(writes), at[k], at[k + 1]))
  {
    hide Sent, Seamless, Follows;
    forall i | 0 <= i < |at| - 1
      ensures var sent := Sent(writes);
              Follows(false, sent[at[i]], sent[at[i]].Len(), sent[at[i + 1]]) <==> Seamless(sent, at[i], at[i + 1])
    {
      GapDetection(writes, at[i], at[i + 1]);
    }
  }

  /** Any subset of the chunks of any writes, arriving in any order: a reader at the front gets exactly
      the bytes up to the first gap between two arrivals of which one belongs to the write with the lost chunk, and
      then reports an incomplete event; where there is none it gets every byte that arrived and then the end of file. */
  lemma ReadBackWithLosses(writes: seq<Write>, at: seq<nat>, k: nat, arrivals: seq<Event>)
    requires ValidWrites(writes)
    requires k < |at| && Increasing(at) && forall i | 0 <= i < |at| :: at[i] < |Sent(writes)|
    requires forall i | 0 <= i < k :: Seamless(Sent(writes), at[i], at[i + 1])
    requires k + 1 < |at| ==> !Seamless(Sent(writes), at[k], at[k + 1])
    requires multiset(arrivals) == multiset(Pick(Sent(writes), at))
    ensures var got := Pick(Sent(writes), at);
      && Build(arrivals) == got
      && Cursor(got[0], 0, got[1..]).Readable(false) == Flatten(got[..k + 1])
      && Cursor(got[0], 0, got[1..]).Stop(false) == if k + 1 == |at| then EOF else NotComplete
  {
    hide Cursor.Readable, Cursor.Stop, Flatten, InsertAll, Sent, Seamless, Follows;
    var sent := Sent(writes);
    SentStrictlySorted(writes);
    PickSorted(sent, at);
    BuildOfSorted(Pick(sent, at), arrivals);
    PickLinked(writes, at, k);
    ReadsUpToFirstBreak(Pick(sent, at), k);
  }

  /** The places of the chunks that arrived, at least one. */
  ghost predicate Arrivals(sent: seq<Event>, at: seq<nat>) {
    at != [] && Increasing(at) && forall i | 0 <= i < |at| :: at[i] < |sent|
  }

  ghost predicate AllSeamless(sent: seq<Event>, at: seq<nat>)
    requires Arrivals(sent, at)
  {
    forall i | 0 <= i < |at| - 1 :: Seamless(sent, at[i], at[i + 1])
  }

  /** Each write of which a chunk arrived arrived whole. */
  ghost predicate ArrivedWhole(sent: seq<Event>, at: seq<nat>)
    requires Arrivals(sent, at)
  {
    forall i, m | 0 <= i < |at| && 0 <= m < |sent| && sent[m].dataId == sent[at[i]].dataId :: m in at
  }

  /** What the reader notices of the losses. It reaches the end of file if and only if all neighbours are seamless; and then
      what it read is whole writes if and only if the first arrival begins its write and the last one ends its write:
      chunks lost before the first or behind the last arrival go unnoticed. */
  lemma LossNoticedIff(writes: seq<Write>, at: seq<nat>, arrivals: seq<Event>)
    requires ValidWrites(writes) && Arrivals(Sent(writes), at) && multiset(arrivals) == multiset(Pick(Sent(writes), at))
    ensures var sent, got := Sent(writes), Pick(Sent(writes), at);
      && Build(arrivals) == got
      && (Cursor(got[0], 0, got[1..]).Stop(false) == EOF <==> AllSeamless(sent, at))
      && (ArrivedWhole(sent, at) <==> AllSeamless(sent, at) && got[0].IsStart() && got[|at| - 1].finished)
  {
    hide Cursor.Readable, Cursor.Stop, Flatten, InsertAll, Sent, Seamless;
    if AllSeamless(Sent(writes), at) {
      ReadBackWithLosses(writes, at, |at| - 1, arrivals);
      if Sent(writes)[at[0]].IsStart() && Sent(writes)[at[|at| - 1]].finished {
        SeamlessIsWhole(writes, at);
      }
    } else {
      var k := FirstGap(Sent(writes), at);
      ReadBackWithLosses(writes, at, k, arrivals);
    }
    if ArrivedWhole(Sent(writes), at) {
      WholeIsSeamless(writes, at);
    }
  }

  lemma {:induction false} FirstGap(sent: seq<Event>, at: seq<nat>) returns (k: nat)
    requires Arrivals(sent, at) && !AllSeamless(sent, at)
    ensures k + 1 < |at| && !Seamless(sent, at[k], at[k + 1])
    ensures forall i | 0 <= i < k :: Seamless(sent, at[i], at[i + 1])
    decreases |at|
  {
    hide Seamless;
    var n := |at| - 1;
    if AllSeamless(sent, at[..n]) {
      assert forall i | 0 <= i < n :: at[..n][i] == at[i];
      k := n - 1;
    } else {
      k := FirstGap(sent, at[..n]);
    }
  }

  /** Where a place that did not arrive lies among those that did. */
  lemma {:induction false} PlaceAmong(at: seq<nat>, m: nat) returns (j: nat)
    requires at != [] && Increasing(at) && m !in at && at[0] < m < at[|at| - 1]
    ensures j + 1 < |at| && at[j] < m < at[j + 1]
    decreases |at|
  {
    var n := |at| - 1;
    if at[n - 1] < m {
      j := n - 1;
    } else {
      assert at[n - 1] in at;
      j := PlaceAmong(at[..n], m);
    }
  }

  lemma SeamlessIsWhole(writes: seq<Write>, at: seq<nat>)
    requires ValidWrites(writes) && Arrivals(Sent(writes), at) && AllSeamless(Sent(writes), at)
    requires Sent(writes)[at[0]].IsStart() && Sent(writes)[at[|at| - 1]].finished
    ensures ArrivedWhole(Sent(writes), at)
  {
    hide Sent, Adjacent;
    var sent := Sent(writes);
    forall i, m | 0 <= i < |at| && 0 <= m < |sent| && sent[m].dataId == sent[at[i]].dataId ensures m in at {
      if m !in at {
        if m < at[0] {
          NothingBeforeStart(writes, m, at[0], at[i]);
        } else if m > at[|at| - 1] {
          NothingBehindEnd(writes, at[i], at[|at| - 1], m);
        } else {
          assert at[0] in at && at[|at| - 1] in at;
          var j := PlaceAmong(at, m);
          assert Seamless(sent, at[j], at[j + 1]);
          if i <= j {
            SameBetween(writes, at[i], at[j], m);
          } else {
            SameBetween(writes, m, at[j + 1], at[i]);
          }
        }
      }
    }
  }

  /** Between two chunks of one write there are only chunks of that write. */
  lemma SameBetween(writes: seq<Write>, a: nat, b: nat, c: nat)
    requires ValidWrites(writes) && a <= b <= c < |Sent(writes)| && Sent(writes)[a].dataId == Sent(writes)[c].dataId
    ensures Sent(writes)[b].dataId == Sent(writes)[a].dataId
  {
    hide Sent;
    SentStrictlySorted(writes);
    assert a < b ==> Before(Sent(writes)[a], Sent(writes)[b]);
    assert b < c ==> Before(Sent(writes)[b], Sent(writes)[c]);
  }

  lemma NothingBeforeStart(writes: seq<Write>, m: nat, start: nat, i: nat)
    requires ValidWrites(writes) && m < start <= i < |Sent(writes)| && Sent(writes)[start].IsStart()
    ensures Sent(writes)[m].dataId != Sent(writes)[i].dataId
  {
    hide Sent;
    SentStrictlySorted(writes);
    assert Before(Sent(writes)[m], Sent(writes)[start]);
    if Sent(writes)[m].dataId == Sent(writes)[i].dataId {
      SameBetween(writes, m, start, i);
    }
  }

  lemma NothingBehindEnd(writes: seq<Write>, i: nat, end: nat, m: nat)
    requires ValidWrites(writes) && i <= end < m < |Sent(writes)| && Sent(writes)[end].finished
    ensures Sent(writes)[m].dataId != Sent(writes)[i].dataId
  {
    hide Sent;
    SentAdjacent(writes);
    assert Adjacent(Sent(writes)[end], Sent(writes)[end + 1]);
    if Sent(writes)[m].dataId == Sent(writes)[i].dataId {
      SameBetween(writes, i, end, m);
      SameBetween(writes, i, end + 1, m);
    }
  }

  lemma WholeIsSeamless(writes: seq<Write>, at: seq<nat>)
    requires ValidWrites(writes) && Arrivals(Sent(writes), at) && ArrivedWhole(Sent(writes), at)
    ensures AllSeamless(Sent(writes), at) && Sent(writes)[at[0]].IsStart() && Sent(writes)[at[|at| - 1]].finished
  {
    hide Sent;
    var sent, n := Sent(writes), |at| - 1;
    SentEnds(writes);
    SentAdjacent(writes);
    NotOutside(at);
    if at[0] > 0 {
      assert Adjacent(sent[at[0] - 1], sent[at[0]]);
    }
    if at[n] < |sent| - 1 {
      assert Adjacent(sent[at[n]], sent[at[n] + 1]);
    }
    forall i | 0 <= i < n ensures Seamless(sent, at[i], at[i + 1]) {
      forall m | at[i] < m < at[i + 1] ensures sent[m].dataId != sent[at[i]].dataId && sent[m].dataId != sent[at[i + 1]].dataId {
        NotAmong(at, i, m);
      }
    }
  }

  lemma NotOutside(at: seq<nat>)
    requires Increasing(at) && at != []
    ensures forall m | m < at[0] || m > at[|at| - 1] :: m !in at
  {
  }

  lemma NotAmong(at: seq<nat>, i: nat, m: nat)
    requires Increasing(at) && i + 1 < |at| && at[i] < m < at[i + 1]
    ensures m !in at
  {
    forall j | 0 <= j < |at| ensures at[j] != m {
      assert j < i ==> at[j] < at[i];
      assert j > i + 1 ==> at[j] > at[i + 1];
    }
  }

  /** What is sent begins with the start of a write and ends with the end of one. */
  lemma {:induction false} SentEnds(writes: seq<Write>)
    requires ValidWrites(writes)
    ensures Sent(writes) != [] ==> Sent(writes)[0].IsStart() && Sent(writes)[|Sent(writes)| - 1].finished
  {
    hide Copied, Range;
    if writes != [] {
      SentEnds(writes[1..]);
      assert ChunksOf(writes[0]) != [];
    }
  }

  /** A write of two chunks with either one lost: the reader gets the other and reports the end of file. */
  lemma LostEndUnnoticed(w: Write, i: nat)
    requires ValidWrites([w]) && ChunkCount(|w.bytes|) == 2 && i < 2
    ensures var got := [Chunk(w, i)];
      && Build(got) == got
      && Cursor(got[0], 0, got[1..]).Readable(false) == Flatten(got)
      && Cursor(got[0], 0, got[1..]).Stop(false) == EOF
  {
    hide Cursor.Readable, Cursor.Stop, Flatten, InsertAll, Chunk;
    assert w in [w];
    assert [w][1..] == [] && Sent([]) == [] && Sent([w]) == ChunksOf(w) + Sent([]);
    var got := [Chunk(w, i)];
    assert Pick(Sent([w]), [i]) == got && got[..1] == got;
    ReadBackWithLosses([w], [i], 0, got);
  }

  /** Of three one-chunk writes the middle one is lost: the reader joins the other two and reports the end. */
  lemma LostWriteUnnoticed(x: Write, y: Write, z: Write)
    requires ValidWrites([x, y, z]) && forall w | w in [x, y, z] :: 0 < |w.bytes| <= MAX_CHUNK
    ensures var got := [Chunk(x, 0), Chunk(z, 0)];
      && Build(got) == got
      && Cursor(got[0], 0, got[1..]).Readable(false) == Flatten(got)
      && Cursor(got[0], 0, got[1..]).Stop(false) == EOF
  {
    hide Cursor.Readable, Cursor.Stop, Flatten, InsertAll, Chunk, Sent;
    SentThree(x, y, z);
    var sent := [Chunk(x, 0), Chunk(y, 0), Chunk(z, 0)];
    var got := [Chunk(x, 0), Chunk(z, 0)];
    assert Pick(sent, [0, 2]) == got;
    assert got[..2] == got;
    ReadBackWithLosses([x, y, z], [0, 2], 1, got);
  }

  lemma OneChunk(w: Write)
    requires ValidWrite(w) && 0 < |w.bytes| <= MAX_CHUNK
    ensures ChunkCount(|w.bytes|) == 1 && ChunksOf(w) == [Chunk(w, 0)] && Chunk(w, 0).dataId == w.dataId
  {
  }

  lemma SentThree(x: Write, y: Write, z: Write)
    requires ValidWrites([x, y, z]) && forall w | w in [x, y, z] :: 0 < |w.bytes| <= MAX_CHUNK
    ensures Sent([x, y, z]) == [Chunk(x, 0), Chunk(y, 0), Chunk(z, 0)]
    ensures Chunk(x, 0).dataId < Chunk(y, 0).dataId < Chunk(z, 0).dataId
  {
    hide Chunk, ChunksOf, ChunkCount;
    assert x in [x, y, z] && y in [x, y, z] && z in [x, y, z];
    OneChunk(x);
    OneChunk(y);
    OneChunk(z);
    assert [x, y, z][1..] == [y, z] && [y, z][1..] == [z] && [z][1..] == [];
    assert Sent([z]) == [Chunk(z, 0)] + [];
    assert Sent([y, z]) == [Chunk(y, 0)] + Sent([z]);
  }

  /** The chunk at which user space sees that the kernel stopped early. */
  predicate NotSentAfter(e: Event) {
    e.finished && e.reduced
  }

  /** Such a chunk is among those sent exactly when some write was over the limit of six chunks. */
  lemma {:induction false} NotSentIffOverLimit(writes: seq<Write>)
    requires ValidWrites(writes)
    ensures (exists e :: e in Sent(writes) && NotSentAfter(e)) <==> (exists w :: w in writes && |w.bytes| > SEND_LIMIT)
  {
    hide Copied, Range;
    if writes != [] {
      NotSentIffOverLimit(writes[1..]);
      var w, cs := writes[0], ChunksOf(writes[0]);
      assert writes == [w] + writes[1..];
      assert forall x :: x in writes <==> x == w || x in writes[1..];
      assert forall e :: e in Sent(writes) <==> e in cs || e in Sent(writes[1..]);
      if |w.bytes| > SEND_LIMIT {
        assert cs[5] in cs && NotSentAfter(cs[5]);
      }
    }
  }
}
