/** Sending access logs: a batch per cycle, split into streams, each stream encoded so that node information
    goes with the first message only and connection information with the first message of a connection. */
module Sender {
  import opened Options
  import opened Seqs

  const MAX_LOGS_PER_SEND: nat := 10_000

  type Kernel = nat
  type Protocol = nat

  /** A connection object and the connection information it is sent with. */
  datatype Conn = Conn(id: nat, rpc: string)

  datatype ProtocolLog = ProtocolLog(kernels: seq<Kernel>, protocol: Protocol)
  datatype ConnectionLogs = ConnectionLogs(kernels: seq<Kernel>, protocols: seq<ProtocolLog>) {
    predicate Empty() {
      kernels == [] && protocols == []
    }
  }

  type Batch = map<Conn, ConnectionLogs>
  type Entry = (Conn, ConnectionLogs)

  datatype Message = Message(node: bool, connection: Option<string>, kernels: seq<Kernel>, protocol: Option<Protocol>)

  /** The messages for protocol logs that are not the first of their connection. */
  function Later(protocols: seq<ProtocolLog>): seq<Message> {
    if protocols == [] then []
    else [Message(false, None, protocols[0].kernels, Some(protocols[0].protocol))] + Later(protocols[1..])
  }

  /** All messages of one connection, without node information. */
  function Plain(e: Entry): seq<Message> {
    var (c, logs) := e;
    if logs.kernels != [] then [Message(false, Some(c.rpc), logs.kernels, None)] + Later(logs.protocols)
    else if logs.protocols != [] then
      [Message(false, Some(c.rpc), logs.protocols[0].kernels, Some(logs.protocols[0].protocol))] + Later(logs.protocols[1..])
    else []
  }

  function PlainAll(order: seq<Entry>): seq<Message> {
    if order == [] then [] else Plain(order[0]) + PlainAll(order[1..])
  }

  /** The stream of a batch whose entries come in this order. */
  function Encode(order: seq<Entry>): seq<Message> {
    Marked(PlainAll(order))
  }

  /** The messages with node information on the first. */
  function Marked(plain: seq<Message>): (r: seq<Message>)
    ensures |r| == |plain|
  {
    if plain == [] then [] else [plain[0].(node := true)] + plain[1..]
  }

  /** What the receiver has about one connection. */
  datatype Group = Group(rpc: string, logs: ConnectionLogs)

  function Extend(g: Group, m: Message): Group {
    if m.protocol.None? then g.(logs := g.logs.(kernels := g.logs.kernels + m.kernels))
    else g.(logs := g.logs.(protocols := g.logs.protocols + [ProtocolLog(m.kernels, m.protocol.value)]))
  }

  /** A receiver that remembers the connection it saw last. */
  function Decode(ms: seq<Message>): seq<Group> {
    if ms == [] then []
    else
      var m, before := ms[|ms| - 1], Decode(ms[..|ms| - 1]);
      if m.connection.Some? then before + [Extend(Group(m.connection.value, ConnectionLogs([], [])), m)]
      else if before == [] then []
      else before[..|before| - 1] + [Extend(before[|before| - 1], m)]
  }

  /** What should arrive: the connections that have logs, in order. */
  function Wanted(order: seq<Entry>): seq<Group> {
    if order == [] then []
    else (if order[0].1.Empty() then [] else [Group(order[0].0.rpc, order[0].1)]) + Wanted(order[1..])
  }

  lemma DecodeOne(ms: seq<Message>, m: Message)
    ensures Decode(ms + [m]) ==
      if m.connection.Some? then Decode(ms) + [Extend(Group(m.connection.value, ConnectionLogs([], [])), m)]
      else if Decode(ms) == [] then []
      else Decode(ms)[..|Decode(ms)| - 1] + [Extend(Decode(ms)[|Decode(ms)| - 1], m)]
  {
    assert (ms + [m])[..|ms|] == ms;
  }

  /** Later messages add their protocol logs to the connection last seen. */
  lemma {:induction false} DecodeLater(ms: seq<Message>, groups: seq<Group>, g: Group, ps: seq<ProtocolLog>)
    requires Decode(ms) == groups + [g]
    ensures Decode(ms + Later(ps)) == groups + [g.(logs := g.logs.(protocols := g.logs.protocols + ps))]
    decreases |ps|
  {
    hide Decode;
    if ps == [] {
      RightUnit(ms);
      RightUnit(g.logs.protocols);
    } else {
      var m := Message(false, None, ps[0].kernels, Some(ps[0].protocol));
      DecodeNext(ms, groups, g, m);
      DecodeLater(ms + [m], groups, Extend(g, m), ps[1..]);
      Assoc(ms, [m], Later(ps[1..]));
      Assoc(g.logs.protocols, [ps[0]], ps[1..]);
      FrontAndRest(ps);
    }
  }

  lemma DecodeNext(ms: seq<Message>, groups: seq<Group>, g: Group, m: Message)
    requires Decode(ms) == groups + [g] && m.connection.None?
    ensures Decode(ms + [m]) == groups + [Extend(g, m)]
  {
    hide Decode, Extend;
    DecodeOne(ms, m);
    assert (groups + [g])[..|groups|] == groups;
  }

  lemma DecodePlain(ms: seq<Message>, e: Entry)
    ensures Decode(ms + Plain(e)) == Decode(ms) + if e.1.Empty() then [] else [Group(e.0.rpc, e.1)]
  {
    var (c, logs) := e;
    if logs.Empty() {
      assert ms + [] == ms;
    } else {
      hide Decode, Later;
      var m := Plain(e)[0];
      var ps := if logs.kernels != [] then logs.protocols else logs.protocols[1..];
      assert Plain(e) == [m] + Later(ps);
      var g := Extend(Group(c.rpc, ConnectionLogs([], [])), m);
      FirstMessage(e);
      DecodeOne(ms, m);
      DecodeLater(ms + [m], Decode(ms), g, ps);
      Assoc(ms, [m], Later(ps));
    }
  }

  /** The first message and the protocol logs behind it make up the connection. */
  lemma FirstMessage(e: Entry)
    requires !e.1.Empty()
    ensures var logs := e.1;
      var ps := if logs.kernels != [] then logs.protocols else logs.protocols[1..];
      var g := Extend(Group(e.0.rpc, ConnectionLogs([], [])), Plain(e)[0]);
      g.(logs := g.logs.(protocols := g.logs.protocols + ps)) == Group(e.0.rpc, logs)
  {
    hide Later;
    var logs := e.1;
    LeftUnit([], logs.kernels);
    LeftUnit([], logs.protocols);
    if logs.kernels == [] {
      assert [logs.protocols[0]] + logs.protocols[1..] == logs.protocols;
    }
  }

  lemma {:induction false} DecodeAll(ms: seq<Message>, order: seq<Entry>)
    ensures Decode(ms + PlainAll(order)) == Decode(ms) + Wanted(order)
    decreases |order|
  {
    if order == [] {
      assert ms + [] == ms && Decode(ms) + [] == Decode(ms);
    } else {
      hide Decode, Plain;
      DecodePlain(ms, order[0]);
      DecodeAll(ms + Plain(order[0]), order[1..]);
      Assoc(ms, Plain(order[0]), PlainAll(order[1..]));
      Assoc(Decode(ms), if order[0].1.Empty() then [] else [Group(order[0].0.rpc, order[0].1)], Wanted(order[1..]));
    }
  }

  /** Node information does not matter to the receiver. */
  lemma {:induction false} DecodeIgnoresNode(a: seq<Message>, b: seq<Message>)
    requires |a| == |b| && forall i | 0 <= i < |a| :: a[i].(node := false) == b[i].(node := false)
    ensures Decode(a) == Decode(b)
  {
    if a != [] {
      DecodeIgnoresNode(a[..|a| - 1], b[..|b| - 1]);
    }
  }

  /** Round trip: the receiver gets exactly the connections with logs, each with its logs, in order. */
  lemma RoundTrip(order: seq<Entry>)
    ensures Decode(Encode(order)) == Wanted(order)
  {
    hide Decode, Wanted, PlainAll, Marked;
    MarkedSame(PlainAll(order));
    DecodeIgnoresNode(Encode(order), PlainAll(order));
    DecodeAll([], order);
    LeftUnit([], PlainAll(order));
    LeftUnit([], Wanted(order));
  }

  lemma MarkedSame(plain: seq<Message>)
    ensures forall i | 0 <= i < |plain| :: Marked(plain)[i].(node := false) == plain[i].(node := false)
    ensures Decode([]) == []
  {
  }

  /** Node information is on the first message and on no other. */
  lemma NodeOnFirstOnly(order: seq<Entry>, i: nat)
    requires i < |Encode(order)|
    ensures Encode(order)[i].node <==> i == 0
  {
    PlainHasNoNode(order);
  }

  lemma {:induction false} PlainHasNoNode(order: seq<Entry>)
    ensures forall m | m in PlainAll(order) :: !m.node
  {
    if order != [] {
      PlainHasNoNode(order[1..]);
      LaterHasNoNode(order[0].1.protocols);
      if order[0].1.protocols != [] {
        LaterHasNoNode(order[0].1.protocols[1..]);
      }
    }
  }

  lemma {:induction false} LaterHasNoNode(ps: seq<ProtocolLog>)
    ensures forall m | m in Later(ps) :: !m.node
  {
    if ps != [] {
      LaterHasNoNode(ps[1..]);
    }
  }

  /** Which sends on a stream fail, by number. */
  type Failures = nat -> bool

  /** The messages that get through. */
  function Kept(tried: seq<Message>, fails: Failures): (r: seq<Message>)
    ensures |r| <= |tried|
  {
    if tried == [] then []
    else
      var n := |tried| - 1;
      Kept(tried[..n], fails) + if fails(n) then [] else [tried[n]]
  }

  lemma KeptMore(tried: seq<Message>, m: Message, fails: Failures)
    ensures Kept(tried + [m], fails) == Kept(tried, fails) + if fails(|tried|) then [] else [m]
  {
    assert (tried + [m])[..|tried|] == tried;
  }

  /** All get through if and only if no send fails. */
  lemma {:induction false} KeptAllIff(tried: seq<Message>, fails: Failures)
    ensures Kept(tried, fails) == tried <==> forall k: nat | k < |tried| :: !fails(k)
  {
    if tried != [] {
      var n := |tried| - 1;
      KeptAllIff(tried[..n], fails);
      assert tried == tried[..n] + [tried[n]];
      if !fails(n) {
        SameBeforeLast(Kept(tried[..n], fails), tried[..n], tried[n]);
      }
    }
  }

  lemma SameBeforeLast(a: seq<Message>, b: seq<Message>, m: Message)
    ensures a + [m] == b + [m] <==> a == b
  {
    if a + [m] == b + [m] {
      assert |a| == |b|;
      assert forall i | 0 <= i < |a| :: a[i] == (a + [m])[i] && b[i] == (b + [m])[i];
    }
  }

  class Stream {
    var received: seq<Message>
    var tries: nat
    const fails: Failures

    constructor (fails: Failures)
      ensures received == [] && tries == 0 && this.fails == fails
    {
      received, tries, this.fails := [], 0, fails;
    }

    method Send(m: Message) returns (failed: bool)
      modifies this
      ensures failed <==> fails(old(tries))
      ensures tries == old(tries) + 1 && received == old(received) + if failed then [] else [m]
    {
      failed := fails(tries);
      if !failed {
        received := received + [m];
      }
      tries := tries + 1;
    }

    /** What arrived is what got through of the messages tried. */
    ghost predicate Got(tried: seq<Message>)
      reads this
    {
      received == Kept(tried, fails) && tries == |tried|
    }
  }

  lemma MarkedMore(plain: seq<Message>, m: Message)
    ensures Marked(plain + [m]) == Marked(plain) + [if plain == [] then m.(node := true) else m]
  {
  }

  /** The last message of connection `i` gets through, or it has none. */
  ghost predicate EndsWell(order: seq<Entry>, i: nat, fails: Failures)
    requires i < |order|
  {
    var n := |PlainAll(order[..i + 1])|;
    order[i].1.Empty() || n == 0 || !fails(n - 1)
  }

  /** Sends a batch over a stream: the messages of the encoding are tried in order, up to the first connection whose last
      message fails; an error is reported exactly when there is one. */
  method SendLogs(order: seq<Entry>, stream: Stream) returns (ok: bool, ghost n: nat)
    requires stream.received == [] && stream.tries == 0
    modifies stream
    ensures n <= |order| && stream.Got(Encode(order[..n]))
    ensures forall i | 0 <= i < (if ok then n else n - 1) :: EndsWell(order, i, stream.fails)
    ensures ok ==> n == |order|
    ensures !ok ==> n > 0 && !EndsWell(order, n - 1, stream.fails)
  {
    hide Plain, PlainAll, Marked, Encode, Kept;
    var firstLog := true;
    ghost var plain: seq<Message> := [];
    EncodeStart(stream.fails);
    n := 0;
    for i := 0 to |order|
      invariant n == i && plain == PlainAll(order[..i]) && (firstLog <==> plain == [])
      invariant stream.Got(Marked(plain)) && forall j | 0 <= j < i :: EndsWell(order, j, stream.fails)
    {
      var (connection, logs) := order[i];
      PlainAllNext(order, i);
      if !logs.Empty() {
        var sendError;
        firstLog, sendError, plain := SendConnection(connection, logs, stream, firstLog, plain);
        if sendError {
          EncodeIs(order[..i + 1]);
          return false, i + 1;
        }
      }
      n := i + 1;
    }
    EncodeIs(order[..n]);
    return true, n;
  }

  /** Sends the messages of one connection; the error is that of the last send. */
  method SendConnection(connection: Conn, logs: ConnectionLogs, stream: Stream, first: bool, ghost before: seq<Message>)
    returns (firstLog: bool, sendError: bool, ghost plain: seq<Message>)
    requires !logs.Empty() && (first <==> before == []) && stream.Got(Marked(before))
    modifies stream
    ensures plain == before + Plain((connection, logs)) && !firstLog && plain != []
    ensures stream.Got(Marked(plain)) && (sendError <==> stream.fails(|plain| - 1))
  {
    hide Plain, Marked, Kept;
    firstLog, sendError, plain := first, false, before;
    var firstConnection := true;
    PlainEmpty(connection);
    if |logs.kernels| > 0 {
      var m := Message(false, Some(connection.rpc), logs.kernels, None);
      sendError := stream.Send(m.(node := firstLog));
      MarkedMore(plain, m);
      KeptMore(Marked(plain), m.(node := firstLog), stream.fails);
      PlainKernels(connection, logs.kernels);
      plain, firstLog, firstConnection := plain + [m], false, false;
    }
    for j := 0 to |logs.protocols|
      invariant plain == before + Plain((connection, ConnectionLogs(logs.kernels, logs.protocols[..j])))
      invariant firstConnection <==> logs.kernels == [] && j == 0
      invariant firstLog <==> plain == []
      invariant stream.Got(Marked(plain))
      invariant !firstConnection ==> plain != [] && (sendError <==> stream.fails(|plain| - 1))
    {
      var p := logs.protocols[j];
      var m := Message(false, if firstConnection then Some(connection.rpc) else None, p.kernels, Some(p.protocol));
      sendError := stream.Send(m.(node := firstLog));
      MarkedMore(plain, m);
      KeptMore(Marked(plain), m.(node := firstLog), stream.fails);
      PlainNext(connection, logs, j);
      plain, firstLog, firstConnection := plain + [m], false, false;
    }
    assert logs.protocols[..|logs.protocols|] == logs.protocols;
  }

  /** A stream on which every send after a failed one fails too. */
  ghost predicate StaysFailed(fails: Failures) {
    forall j: nat, k: nat | j <= k && fails(j) :: fails(k)
  }

  /** On such a stream no error is reported if and only if all messages of the batch got through. */
  lemma ErrorIffLost(order: seq<Entry>, fails: Failures)
    requires StaysFailed(fails)
    ensures (forall i | 0 <= i < |order| :: EndsWell(order, i, fails)) <==> Kept(Encode(order), fails) == Encode(order)
  {
    hide PlainAll, Kept, Encode;
    EncodeIs(order);
    KeptAllIff(Encode(order), fails);
    forall i | 0 <= i < |order| ensures Kept(Encode(order), fails) == Encode(order) ==> EndsWell(order, i, fails) {
      PlainAllConcat(order[..i + 1], order[i + 1..]);
      assert order == order[..i + 1] + order[i + 1..];
    }
    if Encode(order) != [] {
      var i := LastWithLogs(order);
      assert EndsWell(order, i, fails) <==> !fails(|Encode(order)| - 1);
    }
  }

  /** Every loss is sure to be reported, for every batch, if and only if the stream stays failed once it fails. */
  lemma LossReportedIff(fails: Failures)
    ensures (forall order: seq<Entry> ::
               (forall i | 0 <= i < |order| :: EndsWell(order, i, fails)) ==> Kept(Encode(order), fails) == Encode(order))
      <==> StaysFailed(fails)
  {
    hide EndsWell, Kept, Encode;
    if StaysFailed(fails) {
      forall order: seq<Entry> | forall i | 0 <= i < |order| :: EndsWell(order, i, fails)
        ensures Kept(Encode(order), fails) == Encode(order)
      {
        ErrorIffLost(order, fails);
      }
    } else {
      var j: nat, k: nat :| j <= k && fails(j) && !fails(k);
      LossUnreported(fails, j, k);
    }
  }

  /** `n` protocol logs of one connection. */
  function Repeated(n: nat): (ps: seq<ProtocolLog>)
    ensures |ps| == n
  {
    seq(n, _ => ProtocolLog([], 0))
  }

  /** A failed send that is followed by one that is not: the batch of one connection that ends with the latter. */
  lemma LossUnreported(fails: Failures, j: nat, k: nat)
    requires j <= k && fails(j) && !fails(k)
    ensures var order := [(Conn(0, ""), ConnectionLogs([], Repeated(k + 1)))];
      EndsWell(order, 0, fails) && Kept(Encode(order), fails) != Encode(order)
  {
    hide Kept, Encode;
    var e := (Conn(0, ""), ConnectionLogs([], Repeated(k + 1)));
    var order := [e];
    LaterSize(e.1.protocols[1..]);
    assert order[1..] == [] && order[..1] == order && PlainAll(order) == Plain(e) + PlainAll([]);
    EncodeIs(order);
    KeptAllIff(Encode(order), fails);
  }

  lemma {:induction false} LaterSize(ps: seq<ProtocolLog>)
    ensures |Later(ps)| == |ps|
  {
    if ps != [] {
      LaterSize(ps[1..]);
    }
  }

  /** The last connection with logs sends the last message. */
  lemma {:induction false} LastWithLogs(order: seq<Entry>) returns (i: nat)
    requires PlainAll(order) != []
    ensures i < |order| && !order[i].1.Empty() && PlainAll(order[..i + 1]) == PlainAll(order)
    decreases |order|
  {
    hide Plain;
    assert order != [];
    var n := |order| - 1;
    PlainAllNext(order, n);
    TakeAll(order);
    if order[n].1.Empty() {
      RightUnit(PlainAll(order[..n]));
      i := LastWithLogs(order[..n]);
      assert order[..n][..i + 1] == order[..i + 1];
    } else {
      i := n;
    }
  }

  /** On another stream an error can be overwritten: the first message of a connection is lost, the second gets through, no
      error is reported, and the receiver has nothing of the connection. */
  lemma ErrorOverwritten(c: Conn)
    ensures var order := [(c, ConnectionLogs([1], [ProtocolLog([2], 3)]))];
      var fails := (k: nat) => k == 0;
      && EndsWell(order, 0, fails)
      && Kept(Encode(order), fails) == [Message(false, None, [2], Some(3))] && Decode(Kept(Encode(order), fails)) == []
  {
    var logs := ConnectionLogs([1], [ProtocolLog([2], 3)]);
    var order := [(c, logs)];
    var a, b := Message(false, Some(c.rpc), [1], None), Message(false, None, [2], Some(3));
    assert logs.protocols[1..] == [] && Later(logs.protocols) == [b] + Later([]) == [b];
    assert Plain(order[0]) == [a] + [b] == [a, b];
    assert order[1..] == [] && order[..1] == order && PlainAll(order) == [a, b] + PlainAll([]) == [a, b];
    var first := a.(node := true);
    assert Encode(order) == [first, b];
    var fails := (k: nat) => k == 0;
    assert [first, b] == [first] + [b] && [first] == [] + [first];
    KeptMore([], first, fails);
    KeptMore([first], b, fails);
    DecodeOne([], b);
  }

  lemma EncodeStart(fails: Failures)
    ensures PlainAll([]) == [] && Marked([]) == [] && Kept([], fails) == []
  {
  }

  lemma EncodeIs(order: seq<Entry>)
    ensures Encode(order) == Marked(PlainAll(order))
  {
  }

  lemma PlainEmpty(c: Conn)
    ensures Plain((c, ConnectionLogs([], []))) == []
  {
  }

  lemma PlainKernels(c: Conn, kernels: seq<Kernel>)
    requires kernels != []
    ensures Plain((c, ConnectionLogs(kernels, []))) == [Message(false, Some(c.rpc), kernels, None)]
  {
  }

  lemma {:induction false} LaterMore(ps: seq<ProtocolLog>, p: ProtocolLog)
    ensures Later(ps + [p]) == Later(ps) + [Message(false, None, p.kernels, Some(p.protocol))]
  {
    if ps == [] {
      assert ([] + [p])[1..] == [];
    } else {
      LaterMore(ps[1..], p);
      TailOfConcat(ps, [p]);
    }
  }

  lemma PlainNext(c: Conn, logs: ConnectionLogs, j: nat)
    requires j < |logs.protocols|
    ensures var p := logs.protocols[j];
      var first := logs.kernels == [] && j == 0;
      Plain((c, ConnectionLogs(logs.kernels, logs.protocols[..j + 1])))
      == Plain((c, ConnectionLogs(logs.kernels, logs.protocols[..j])))
         + [Message(false, if first then Some(c.rpc) else None, p.kernels, Some(p.protocol))]
  {
    var ps, p := logs.protocols[..j], logs.protocols[j];
    assert logs.protocols[..j + 1] == ps + [p];
    if logs.kernels != [] {
      LaterMore(ps, p);
    } else if j > 0 {
      assert (ps + [p])[0] == ps[0] && (ps + [p])[1..] == ps[1..] + [p];
      LaterMore(ps[1..], p);
    }
  }

  lemma {:induction false} PlainAllConcat(a: seq<Entry>, b: seq<Entry>)
    ensures PlainAll(a + b) == PlainAll(a) + PlainAll(b)
  {
    if a == [] {
      LeftUnit(a, b);
      LeftUnit(PlainAll(a), PlainAll(b));
    } else {
      TailOfConcat(a, b);
      PlainAllConcat(a[1..], b);
      Assoc(Plain(a[0]), PlainAll(a[1..]), PlainAll(b));
    }
  }

  lemma PlainAllNext(order: seq<Entry>, i: nat)
    requires i < |order|
    ensures PlainAll(order[..i + 1]) == PlainAll(order[..i]) + Plain(order[i])
    ensures order[i].1.Empty() ==> Plain(order[i]) == []
  {
    assert order[..i + 1] == order[..i] + [order[i]];
    PlainAllConcat(order[..i], [order[i]]);
    assert PlainAll([order[i]]) == Plain(order[i]) + PlainAll([]);
  }

  /** The parts hold each connection of the batch exactly once with its logs, all of them full except perhaps the
      last, which is not empty. */
  ghost predicate SplitOf(parts: seq<Batch>, logs: Batch, max: nat)
    requires max > 0
  {
    && |parts| == (|logs| + max - 1) / max
    && (forall i | 0 <= i < |parts| - 1 :: |parts[i]| == max)
    && (parts != [] ==> 0 < |parts[|parts| - 1]| <= max)
    && (forall i, c | 0 <= i < |parts| && c in parts[i] :: c in logs && parts[i][c] == logs[c])
    && (forall c | c in logs :: exists i :: 0 <= i < |parts| && c in parts[i])
    && (forall i, j | 0 <= i < j < |parts| :: parts[i].Keys !! parts[j].Keys)
  }

  /** Splits a batch into parts of at most `max` connections. */
  method SplitBatchLogs(logs: Batch, max: nat) returns (parts: seq<Batch>)
    requires max > 0
    ensures SplitOf(parts, logs, max)
  {
    hide Progress, SplitOf;
    parts := [];
    var todo, currentCount := logs.Keys, 0;
    SplitStart(logs, max);
    while todo != {}
      invariant Progress(parts, logs, todo, max, currentCount)
      decreases todo
    {
      var c :| c in todo;
      RoomStep(parts, logs, todo, max, currentCount, c);
      if currentCount % max == 0 {
        parts, currentCount := parts + [map[]], 0;
      }
      PutStep(parts, logs, todo, max, currentCount, c);
      parts := Put(parts, c, logs[c]);
      currentCount, todo := currentCount + 1, todo - {c};
    }
    SplitEnd(parts, logs, max, currentCount);
  }

  /** What the loop keeps: the connections outside `todo` are spread over `parts`, `count` in the last. */
  ghost predicate Progress(parts: seq<Batch>, logs: Batch, todo: set<Conn>, max: nat, count: nat) {
    && todo <= logs.Keys
    && Partition(parts, logs, logs.Keys - todo)
    && Sized(parts, max, |logs| - |todo|)
    && count == if parts == [] then 0 else |parts[|parts| - 1]|
  }

  lemma SplitStart(logs: Batch, max: nat)
    ensures Progress([], logs, logs.Keys, max, 0)
  {
    assert logs.Keys - logs.Keys == {};
  }

  /** As `Progress`, with room for one more in the last part. */
  ghost predicate Ready(parts: seq<Batch>, logs: Batch, todo: set<Conn>, max: nat, count: nat) {
    && todo <= logs.Keys
    && Partition(parts, logs, logs.Keys - todo)
    && Open(parts, max, |logs| - |todo|)
    && parts != [] && count == |parts[|parts| - 1]|
  }

  /** When the last part is full, or there is none, a new part makes room. */
  lemma RoomStep(parts: seq<Batch>, logs: Batch, todo: set<Conn>, max: nat, count: nat, c: Conn)
    requires max > 0 && Progress(parts, logs, todo, max, count) && c in todo
    ensures c in logs
    ensures count % max == 0 ==> Ready(parts + [map[]], logs, todo, max, 0)
    ensures count % max != 0 ==> Ready(parts, logs, todo, max, count)
  {
    hide Partition, Open;
    SmallMod(count, max);
    if count == 0 || count == max {
      OpenPart(parts, logs, logs.Keys - todo, max, |logs| - |todo|);
    } else {
      NoOpenPart(parts, max, |logs| - |todo|);
    }
  }

  /** `c` goes to the last part, which has room. */
  lemma PutStep(parts: seq<Batch>, logs: Batch, todo: set<Conn>, max: nat, count: nat, c: Conn)
    requires Ready(parts, logs, todo, max, count) && c in todo
    ensures parts != [] && c in logs
    ensures Progress(Put(parts, c, logs[c]), logs, todo - {c}, max, count + 1)
  {
    hide Partition, Sized, Open, Put, Progress, Ready;
    ReadyParts(parts, logs, todo, max, count, c);
    PutInto(parts, logs, todo, max, count, c, logs.Keys - todo, |logs| - |todo|);
  }

  lemma ReadyParts(parts: seq<Batch>, logs: Batch, todo: set<Conn>, max: nat, count: nat, c: Conn)
    requires Ready(parts, logs, todo, max, count) && c in todo
    ensures parts != [] && c in logs && todo <= logs.Keys && count == |parts[|parts| - 1]|
    ensures Partition(parts, logs, logs.Keys - todo) && Open(parts, max, |logs| - |todo|)
  {
    hide Partition, Open;
  }

  lemma PutInto(parts: seq<Batch>, logs: Batch, todo: set<Conn>, max: nat, count: nat, c: Conn, done: set<Conn>, n: int)
    requires parts != [] && c in todo && todo <= logs.Keys && count == |parts[|parts| - 1]|
    requires done == logs.Keys - todo && n == |logs| - |todo| && Partition(parts, logs, done) && Open(parts, max, n)
    ensures Progress(Put(parts, c, logs[c]), logs, todo - {c}, max, count + 1)
  {
    hide Partition, Sized, Open, Put, Progress;
    TakenOne(logs.Keys, todo, c);
    PutSized(parts, logs, done, max, n, c);
    PutPartition(parts, logs, done, c);
    ProgressIs(Put(parts, c, logs[c]), logs, todo - {c}, max, count + 1, done + {c}, n + 1);
  }

  lemma ProgressIs(parts: seq<Batch>, logs: Batch, todo: set<Conn>, max: nat, count: nat, done: set<Conn>, n: int)
    requires todo <= logs.Keys && done == logs.Keys - todo && n == |logs| - |todo|
    requires Partition(parts, logs, done) && Sized(parts, max, n)
    requires parts != [] && count == |parts[|parts| - 1]|
    ensures Progress(parts, logs, todo, max, count)
  {
    hide Partition, Sized;
  }

  lemma TakenOne(all: set<Conn>, todo: set<Conn>, c: Conn)
    requires c in todo && todo <= all
    ensures all - (todo - {c}) == all - todo + {c} && |todo - {c}| == |todo| - 1
  {
  }

  function Put(parts: seq<Batch>, c: Conn, log: ConnectionLogs): (r: seq<Batch>)
    requires parts != []
  {
    var last := |parts| - 1;
    parts[last := parts[last][c := log]]
  }

  /** The parts hold exactly the entries of `done`, each once. */
  ghost predicate Partition(parts: seq<Batch>, logs: Batch, done: set<Conn>) {
    && (forall i, c | 0 <= i < |parts| && c in parts[i] :: c in done && c in logs && parts[i][c] == logs[c])
    && (forall c | c in done :: exists i :: 0 <= i < |parts| && c in parts[i])
    && (forall i, j | 0 <= i < j < |parts| :: parts[i].Keys !! parts[j].Keys)
  }

  /** `n` connections in parts that are full except perhaps the last. */
  ghost predicate Sized(parts: seq<Batch>, max: nat, n: int) {
    && (forall i | 0 <= i < |parts| - 1 :: |parts[i]| == max)
    && (parts != [] ==> 1 <= |parts[|parts| - 1]| <= max)
    && n == if parts == [] then 0 else max * (|parts| - 1) + |parts[|parts| - 1]|
  }

  /** Like `Sized`, with room in the last part. */
  ghost predicate Open(parts: seq<Batch>, max: nat, n: int) {
    && parts != [] && (forall i | 0 <= i < |parts| - 1 :: |parts[i]| == max)
    && |parts[|parts| - 1]| < max && n == max * (|parts| - 1) + |parts[|parts| - 1]|
  }

  lemma OpenPart(parts: seq<Batch>, logs: Batch, done: set<Conn>, max: nat, n: int)
    requires max > 0 && Partition(parts, logs, done) && Sized(parts, max, n)
    requires parts != [] ==> |parts[|parts| - 1]| == max
    ensures Partition(parts + [map[]], logs, done) && Open(parts + [map[]], max, n)
  {
    hide Partition, Open, Sized;
    NoneAdded(parts, logs, done);
    RoomAdded(parts, parts + [map[]], max, n);
  }

  lemma RoomAdded(parts: seq<Batch>, more: seq<Batch>, max: nat, n: int)
    requires max > 0 && Sized(parts, max, n) && (parts != [] ==> |parts[|parts| - 1]| == max)
    requires |more| == |parts| + 1 && |more[|parts|]| == 0 && forall i | 0 <= i < |parts| :: more[i] == parts[i]
    ensures Open(more, max, n)
  {
    assert max * |parts| == max * (|parts| - 1) + max;
  }

  lemma NoneAdded(parts: seq<Batch>, logs: Batch, done: set<Conn>)
    requires Partition(parts, logs, done)
    ensures Partition(parts + [map[]], logs, done)
  {
    var more := parts + [map[]];
    forall c | c in done ensures exists i :: 0 <= i < |more| && c in more[i] {
      var i :| 0 <= i < |parts| && c in parts[i];
      assert c in more[i];
    }
  }

  lemma NoOpenPart(parts: seq<Batch>, max: nat, n: int)
    requires Sized(parts, max, n) && parts != [] && |parts[|parts| - 1]| < max
    ensures Open(parts, max, n)
  {
  }

  lemma SmallMod(n: nat, max: nat)
    requires 0 < max && n <= max
    ensures n % max == 0 <==> n == 0 || n == max
  {
  }

  lemma PutSized(parts: seq<Batch>, logs: Batch, done: set<Conn>, max: nat, n: int, c: Conn)
    requires Partition(parts, logs, done) && parts != [] && Open(parts, max, n) && c in logs && c !in done
    ensures Sized(Put(parts, c, logs[c]), max, n + 1)
    ensures |Put(parts, c, logs[c])| == |parts|
    ensures |Put(parts, c, logs[c])[|parts| - 1]| == |parts[|parts| - 1]| + 1
  {
    assert c !in parts[|parts| - 1];
  }

  lemma PutPartition(parts: seq<Batch>, logs: Batch, done: set<Conn>, c: Conn)
    requires Partition(parts, logs, done) && parts != [] && c in logs && c !in done
    ensures Partition(Put(parts, c, logs[c]), logs, done + {c})
  {
    var last, parts' := |parts| - 1, Put(parts, c, logs[c]);
    forall d | d in done + {c} ensures exists i :: 0 <= i < |parts'| && d in parts'[i] {
      if d == c {
        assert d in parts'[last];
      } else {
        var i :| 0 <= i < |parts| && d in parts[i];
        assert d in parts'[i];
      }
    }
    assert forall i | 0 <= i < |parts| :: c !in parts[i];
  }

  lemma SplitEnd(parts: seq<Batch>, logs: Batch, max: nat, count: nat)
    requires max > 0 && Progress(parts, logs, {}, max, count)
    ensures SplitOf(parts, logs, max)
  {
    assert logs.Keys - {} == logs.Keys;
    CeilDiv(|logs|, max, |parts|, if parts == [] then 0 else |parts[|parts| - 1]|);
  }

  lemma CeilDiv(n: nat, max: nat, k: nat, last: nat)
    requires max > 0 && (k == 0 ==> n == 0) && (k > 0 ==> 1 <= last <= max && n == max * (k - 1) + last)
    ensures k == (n + max - 1) / max
  {
    if k > 0 {
      assert n + max - 1 == max * k + (last - 1);
      DivUnique(n + max - 1, max, k, last - 1);
    } else {
      DivUnique(max - 1, max, 0, max - 1);
    }
  }

  lemma DivUnique(a: nat, d: nat, q: nat, r: nat)
    requires d > 0 && a == d * q + r && r < d
    ensures a / d == q
  {
    Away(d, a / d - q);
    assert d * (a / d) + a % d == a;
    assert d * (a / d - q) == d * (a / d) - d * q;
  }

  lemma Away(d: nat, x: int)
    ensures x == 0 || d * x >= d || d * x + d <= 0
  {
    if x > 0 {
      assert d * x == d * (x - 1) + d;
    } else if x < 0 {
      assert d * x == -(d * (-x - 1)) - d;
    }
  }

  /** The entries of a batch, each once, in the order in which the map happens to be ranged over. */
  ghost predicate Orders(order: seq<Entry>, batch: Batch) {
    && (forall i | 0 <= i < |order| :: order[i].0 in batch && order[i].1 == batch[order[i].0])
    && (forall i, j | 0 <= i < j < |order| :: order[i].0 != order[j].0)
    && (forall c | c in batch :: exists i :: 0 <= i < |order| && order[i].0 == c)
  }

  method Range(batch: Batch) returns (order: seq<Entry>)
    ensures Orders(order, batch)
  {
    order := [];
    var todo := batch.Keys;
    while todo != {}
      invariant todo <= batch.Keys
      invariant forall i | 0 <= i < |order| :: order[i].0 in batch.Keys - todo && order[i].1 == batch[order[i].0]
      invariant forall i, j | 0 <= i < j < |order| :: order[i].0 != order[j].0
      invariant forall c | c in batch.Keys - todo :: exists i :: 0 <= i < |order| && order[i].0 == c
      decreases todo
    {
      var c :| c in todo;
      ghost var before, done := order, batch.Keys - todo;
      order, todo := order + [(c, batch[c])], todo - {c};
      assert order[|before|].0 == c && forall i | 0 <= i < |before| :: order[i] == before[i];
      assert forall d | d in batch.Keys - todo :: d == c || d in done;
    }
    assert batch.Keys - todo == batch.Keys;
  }

  /** A stream that carried the whole batch: the receiver ends up with each of its connections that has logs. */
  ghost predicate Carries(received: seq<Message>, batch: Batch) {
    exists order: seq<Entry> :: Orders(order, batch) && received == Encode(order) && Decode(received) == Wanted(order)
  }

  /** What a stream received of a batch that was sent without an error. */
  ghost predicate SentAs(received: seq<Message>, batch: Batch, fails: Failures) {
    exists order: seq<Entry> :: Orders(order, batch) && received == Kept(Encode(order), fails)
      && forall i | 0 <= i < |order| :: EndsWell(order, i, fails)
  }

  /** A batch of which, in some order, the last message of a connection fails. */
  ghost predicate Fails(batch: Batch, fails: Failures) {
    exists order: seq<Entry>, i: nat :: Orders(order, batch) && i < |order| && !EndsWell(order, i, fails)
  }

  /** If the stream stays failed once it fails, a batch sent without an error is carried whole. */
  lemma SentIsCarried(received: seq<Message>, batch: Batch, fails: Failures)
    requires SentAs(received, batch, fails) && StaysFailed(fails)
    ensures Carries(received, batch)
  {
    hide Kept, Encode, Decode, Wanted, EndsWell, Orders;
    var order: seq<Entry> :| Orders(order, batch) && received == Kept(Encode(order), fails)
      && forall i | 0 <= i < |order| :: EndsWell(order, i, fails);
    ErrorIffLost(order, fails);
    RoundTrip(order);
  }

  /** What a carried batch means for one of its connections. */
  lemma CarriedConnection(received: seq<Message>, batch: Batch, c: Conn)
    requires Carries(received, batch) && c in batch
    ensures batch[c].Empty() || Group(c.rpc, batch[c]) in Decode(received)
  {
    hide Encode, Decode, Wanted;
    var order: seq<Entry> :| Orders(order, batch) && received == Encode(order) && Decode(received) == Wanted(order);
    var i :| 0 <= i < |order| && order[i].0 == c;
    if !batch[c].Empty() {
      WantedHas(order, i);
    }
  }

  lemma {:induction false} WantedHas(order: seq<Entry>, i: nat)
    requires i < |order| && !order[i].1.Empty()
    ensures Group(order[i].0.rpc, order[i].1) in Wanted(order)
  {
    if i > 0 {
      WantedHas(order[1..], i - 1);
    }
  }

  /** The sender: parts waiting to be sent, and whether the sending loop has been told. */
  class GRPCSender {
    var logs: seq<Batch>
    var notify: bool

    constructor ()
      ensures logs == [] && !notify
    {
      logs, notify := [], false;
    }

    /** Splits a batch and queues the parts behind those waiting. */
    method AddBatch(batch: Batch) returns (parts: seq<Batch>)
      modifies this
      ensures logs == old(logs) + parts && notify
      ensures SplitOf(parts, batch, 10_000)
    {
      hide SplitOf;
      parts := SplitBatchLogs(batch, MAX_LOGS_PER_SEND);
      logs, notify := logs + parts, true;
    }

    method PopLogs() returns (part: Option<Batch>)
      modifies `logs
      ensures old(logs) == [] ==> part == None && logs == []
      ensures old(logs) != [] ==> part == Some(old(logs)[0]) && logs == old(logs)[1..]
    {
      if |logs| == 0 {
        return None;
      }
      part := Some(logs[0]);
      logs := logs[1..];
    }

    /** One round of the sending loop, over streams that fail as given or cannot be opened. The parts go out in the
        order they were queued, each on a stream of its own, until there is an error: the part it is for is lost, the rest
        stays queued. */
    method HandleLogs(streams: seq<Option<Failures>>) returns (ok: bool, received: seq<seq<Message>>)
      requires |streams| >= |logs|
      modifies this
      ensures !notify
      ensures |received| + (if ok then 0 else 1) <= |old(logs)|
      ensures forall i | 0 <= i < |received| :: streams[i].Some? && SentAs(received[i], old(logs)[i], streams[i].value)
      ensures logs == old(logs)[|received| + (if ok then 0 else 1)..]
      ensures ok ==> logs == []
      ensures !ok ==> streams[|received|].None? || Fails(old(logs)[|received|], streams[|received|].value)
    {
      hide SentAs, Fails;
      notify, ok, received := false, true, [];
      while ok && |logs| > 0
        invariant !notify && |received| + (if ok then 0 else 1) <= |old(logs)|
        invariant forall i | 0 <= i < |received| :: streams[i].Some? && SentAs(received[i], old(logs)[i], streams[i].value)
        invariant logs == old(logs)[|received| + (if ok then 0 else 1)..]
        invariant !ok ==> streams[|received|].None? || Fails(old(logs)[|received|], streams[|received|].value)
        decreases |logs|
      {
        var messages;
        ok, messages := SendNext(streams[|received|]);
        if ok {
          received := received + [messages];
        }
      }
    }

    /** Takes the first part and sends it, if a stream can be opened. */
    method SendNext(fails: Option<Failures>) returns (ok: bool, received: seq<Message>)
      requires logs != []
      modifies `logs
      ensures logs == old(logs)[1..]
      ensures ok ==> fails.Some? && SentAs(received, old(logs)[0], fails.value)
      ensures !ok ==> fails.None? || Fails(old(logs)[0], fails.value)
    {
      hide Kept, Encode, EndsWell, Orders;
      var part := PopLogs();
      if fails.None? {
        return false, [];
      }
      var order := Range(part.value);
      var stream := new Stream(fails.value);
      ghost var n;
      ok, n := SendLogs(order, stream);
      received := stream.received;
      TakeAll(order);
    }
  }
}
