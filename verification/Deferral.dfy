/** How long a log may be held back for the resolution of its connection, and how long a closed
    connection stays: the rules each single log and each single connection is judged by. */
module Deferral {
  import opened Options

  // Times are in nanoseconds.
  const SECOND := 1_000_000_000
  const DELETE_DELAY := 25 * SECOND
  const DEFER_MARGIN := 15 * SECOND
  const LOG_CACHE_TIME := 10 * SECOND

  /** The resolution grace for a flush period. */
  function ResolutionGraceFor(flushPeriod: int): int {
    var grace := flushPeriod + DEFER_MARGIN;
    var capped := if grace > DELETE_DELAY - flushPeriod then DELETE_DELAY - flushPeriod else grace;
    if capped < 0 then 0 else capped
  }

  /** A grace in force leaves one flush period before the deletion delay; there is one exactly when a
      flush period fits into that delay. */
  lemma GraceFits(flushPeriod: int)
    requires flushPeriod > 0
    ensures ResolutionGraceFor(flushPeriod) > 0 <==> flushPeriod < DELETE_DELAY
    ensures ResolutionGraceFor(flushPeriod) > 0 ==> ResolutionGraceFor(flushPeriod) + flushPeriod <= DELETE_DELAY
    ensures flushPeriod <= 5 * SECOND ==> ResolutionGraceFor(flushPeriod) == flushPeriod + DEFER_MARGIN
    ensures 5 * SECOND <= flushPeriod < DELETE_DELAY ==> ResolutionGraceFor(flushPeriod) + flushPeriod == DELETE_DELAY
  {
  }

  datatype Key = Key(connectionId: nat, randomId: nat)

  /** `Connect` carries whether both addresses of the socket pair could be built. */
  datatype Kind = Connect(addressed: bool) | Close | Other

  /** A log and the event its connection is looked up by; a protocol log may have none. */
  datatype Log = Log(id: nat, event: Option<LogEvent>)
  datatype LogEvent = LogEvent(key: Key, kind: Kind, timestamp: int)

  /** A connection of the manager: whether it is closed, when it may be deleted, until when its logs may be held. */
  datatype Connection = Connection(marked: bool, deleteAfter: Option<int>, deadline: Option<int>)

  type Connections = map<Key, Connection>

  /** What the world answers when one log is built: the clock, whether logs of the process are
      reported, whether a resolver still waits for the connection, whether the log could be rendered. */
  datatype Look = Look(now: int, report: bool, pending: bool, rendered: bool)

  /** `Offered` goes to the batch, `Held` is deferred for resolution, `Waiting` is deferred because its
      connection is not there yet, `Rejected` is dropped. */
  datatype Verdict = Offered(key: Key) | Held(key: Key) | Waiting | Rejected

  /** The connection after one look, and whether its log is to be held back. */
  function Defer(c: Connection, grace: int, look: Look): (Connection, bool) {
    if grace <= 0 then (c, false)
    else if !look.pending then (c, false)
    else if c.deadline.None? then (c.(deadline := Some(look.now + grace)), true)
    else (c, look.now < c.deadline.value)
  }

  /** The connection an event belongs to, after the event has been seen; a connect event makes one. */
  function Find(conns: Connections, e: LogEvent): Option<Connection> {
    if e.key in conns then Some(conns[e.key].(marked := conns[e.key].marked || e.kind.Close?))
    else if e.kind == Connect(true) then Some(Connection(false, None, None))
    else None
  }

  function Judge(conns: Connections, grace: int, log: Log, look: Look): (Connections, Verdict) {
    if log.event.None? || !look.report then (conns, Rejected)
    else
      var e := log.event.value;
      match Find(conns, e)
      case None => (conns, if look.now - e.timestamp > LOG_CACHE_TIME then Rejected else Waiting)
      case Some(c) =>
        var (c', hold) := Defer(c, grace, look);
        (conns[e.key := c'], if hold then Held(e.key) else if look.rendered then Offered(e.key) else Rejected)
  }

  function JudgeAll(conns: Connections, grace: int, logs: seq<Log>, looks: seq<Look>): (Connections, seq<Verdict>)
    requires |logs| == |looks|
    ensures |JudgeAll(conns, grace, logs, looks).1| == |logs|
  {
    if logs == [] then (conns, [])
    else
      var n := |logs| - 1;
      var (before, verdicts) := JudgeAll(conns, grace, logs[..n], looks[..n]);
      var (after, v) := Judge(before, grace, logs[n], looks[n]);
      (after, verdicts + [v])
  }

  datatype Outcome = ToBatch | ToQueue | ToFloor

  function OutcomeOf(v: Verdict): Outcome {
    match v
    case Offered(_) => ToBatch
    case Held(_) => ToQueue
    case Waiting => ToQueue
    case Rejected => ToFloor
  }

  /** The logs with one outcome, in order. */
  function Where(logs: seq<Log>, verdicts: seq<Verdict>, o: Outcome): (r: seq<Log>)
    requires |logs| == |verdicts|
    ensures |r| <= |logs|
  {
    if logs == [] then []
    else
      var n := |logs| - 1;
      Where(logs[..n], verdicts[..n], o) + if OutcomeOf(verdicts[n]) == o then [logs[n]] else []
  }

  /** One drain splits the queue exactly into batched, requeued and dropped logs. */
  lemma {:induction false} DrainSplits(logs: seq<Log>, verdicts: seq<Verdict>)
    requires |logs| == |verdicts|
    ensures multiset(logs) == multiset(Where(logs, verdicts, ToBatch)) + multiset(Where(logs, verdicts, ToQueue))
                              + multiset(Where(logs, verdicts, ToFloor))
  {
    if logs != [] {
      hide Where;
      var n := |logs| - 1;
      DrainSplits(logs[..n], verdicts[..n]);
      assert logs == logs[..n] + [logs[n]];
      WhereLast(logs, verdicts, ToBatch);
      WhereLast(logs, verdicts, ToQueue);
      WhereLast(logs, verdicts, ToFloor);
    } else {
      assert forall o :: Where(logs, verdicts, o) == [];
    }
  }

  lemma WhereLast(logs: seq<Log>, verdicts: seq<Verdict>, o: Outcome)
    requires |logs| == |verdicts| > 0
    ensures var n := |logs| - 1;
      multiset(Where(logs, verdicts, o)) ==
        multiset(Where(logs[..n], verdicts[..n], o)) + if OutcomeOf(verdicts[n]) == o then multiset{logs[n]} else multiset{}
  {
  }

  lemma {:induction false} WhereHas(logs: seq<Log>, verdicts: seq<Verdict>, i: nat)
    requires i < |logs| == |verdicts|
    ensures logs[i] in Where(logs, verdicts, OutcomeOf(verdicts[i]))
  {
    var n := |logs| - 1;
    if i < n {
      WhereHas(logs[..n], verdicts[..n], i);
    }
  }

  /** A connection at the end of a cycle: whether it should go, its deletion time, whether it goes now. */
  function Finish(c: Connection, now: int, gone: bool, mark: bool): (Connection, bool) {
    var should := c.marked || gone;
    var c' := if c.marked || !gone then c else c.(marked := mark);
    if !should then (c', false)
    else
      var d := if c'.deleteAfter.None? then now + DELETE_DELAY else c'.deleteAfter.value;
      (c'.(deleteAfter := Some(d)), now > d)
  }

  /** The connections left at the end of a cycle. `gone` are those whose process or kernel entry is gone;
      `mark` those of them that are marked for good. */
  function FinishAll(conns: Connections, now: int, gone: set<Key>, mark: set<Key>): Connections {
    map k | k in conns && !Finish(conns[k], now, k in gone, k in mark).1 :: Finish(conns[k], now, k in gone, k in mark).0
  }
}
