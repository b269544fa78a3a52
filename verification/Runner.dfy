/** The log queue and the runner that drains it: bounded channels, drop counters, and the loops that
    batch, requeue or drop every queued log and delete the connections whose time has come. */
module Runner {
  import opened Options
  import opened Deferral
  import FlushRun

  /** A bounded channel with non-blocking send and receive. */
  class Channel {
    var items: seq<Log>
    const capacity: nat

    ghost predicate Valid()
      reads this
    {
      |items| <= capacity
    }

    constructor (capacity: nat)
      ensures Valid() && items == [] && this.capacity == capacity
    {
      this.items, this.capacity := [], capacity;
    }

    method TrySend(log: Log) returns (sent: bool)
      requires Valid()
      modifies this`items
      ensures Valid()
      ensures sent <==> old(|items|) < capacity
      ensures items == old(items) + if sent then [log] else []
    {
      sent := |items| < capacity;
      if sent {
        items := items + [log];
      }
    }

    method TryReceive() returns (log: Option<Log>)
      requires Valid()
      modifies this`items
      ensures Valid()
      ensures if old(items) == [] then log.None? && items == [] else log == Some(old(items)[0]) && items == old(items)[1..]
    {
      if items == [] {
        return None;
      }
      log := Some(items[0]);
      items := items[1..];
    }
  }

  class Queue {
    const kernelLogs: Channel
    const protocolLogs: Channel
    const maxFlushCount: nat
    var dropKernelLogCount: nat
    var dropProtocolLogCount: nat

    ghost predicate Valid()
      reads this, kernelLogs, protocolLogs
    {
      && kernelLogs != protocolLogs && kernelLogs.Valid() && protocolLogs.Valid()
      && kernelLogs.capacity == protocolLogs.capacity == maxFlushCount * 3
    }

    constructor (maxFlushCount: nat)
      ensures Valid() && fresh(kernelLogs) && fresh(protocolLogs) && this.maxFlushCount == maxFlushCount
      ensures kernelLogs.items == protocolLogs.items == [] && dropKernelLogCount == dropProtocolLogCount == 0
    {
      this.maxFlushCount, dropKernelLogCount, dropProtocolLogCount := maxFlushCount, 0, 0;
      kernelLogs := new Channel(maxFlushCount * 3);
      protocolLogs := new Channel(maxFlushCount * 3);
    }

    /** Appends, or counts a drop when full; tells whether enough is queued for a flush ahead of time. */
    method AppendKernelLog(log: Log) returns (consume: bool)
      requires Valid()
      modifies kernelLogs`items, this`dropKernelLogCount
      ensures Valid()
      ensures old(|kernelLogs.items|) < kernelLogs.capacity ==>
        && kernelLogs.items == old(kernelLogs.items) + [log] && dropKernelLogCount == old(dropKernelLogCount)
        && (consume <==> |kernelLogs.items| + |protocolLogs.items| >= maxFlushCount)
      ensures old(|kernelLogs.items|) == kernelLogs.capacity ==>
        && kernelLogs.items == old(kernelLogs.items) && dropKernelLogCount == old(dropKernelLogCount) + 1 && !consume
    {
      var sent := kernelLogs.TrySend(log);
      if !sent {
        dropKernelLogCount := dropKernelLogCount + 1;
        return false;
      }
      return |kernelLogs.items| + |protocolLogs.items| >= maxFlushCount;
    }
  }

  class LogRunner {
    var connections: Connections
    const grace: int

    constructor (flushPeriod: int)
      ensures connections == map[] && grace == ResolutionGraceFor(flushPeriod)
    {
      connections, grace := map[], ResolutionGraceFor(flushPeriod);
    }

    method ShouldDeferForResolution(key: Key, look: Look) returns (defer: bool)
      requires key in connections
      modifies this`connections
      ensures var (c, hold) := Defer(old(connections)[key], grace, look);
              connections == old(connections)[key := c] && defer == hold
    {
      var conn := connections[key];
      if grace <= 0 {
        assert connections == connections[key := conn];
        return false;
      }
      if !look.pending {
        assert connections == connections[key := conn];
        return false;
      }
      if conn.deadline.None? {
        connections := connections[key := conn.(deadline := Some(look.now + grace))];
        return true;
      }
      assert connections == connections[key := conn];
      return look.now < conn.deadline.value;
    }

    /** Builds one log: finds or makes its connection, decides whether to hold it back. */
    method BuildLog(log: Log, look: Look) returns (v: Verdict)
      modifies this`connections
      ensures (connections, v) == Judge(old(connections), grace, log, look)
    {
      if log.event.None? || !look.report {
        return Rejected;
      }
      var e := log.event.value;
      if e.key in connections {
        if e.kind.Close? {
          connections := connections[e.key := connections[e.key].(marked := true)];
        }
      } else if e.kind == Connect(true) {
        connections := connections[e.key := Connection(false, None, None)];
      } else {
        return if look.now - e.timestamp > LOG_CACHE_TIME then Rejected else Waiting;
      }
      ghost var found := connections;
      var defer := ShouldDeferForResolution(e.key, look);
      assert found[e.key := connections[e.key]] == old(connections)[e.key := connections[e.key]];
      if defer {
        return Held(e.key);
      }
      return if look.rendered then Offered(e.key) else Rejected;
    }

    /** Drains one channel: with no concurrent appends every log is judged once, in order, what is held or
        waiting goes back in order, and none of it is lost to a full channel. */
    method BuildLogs(channel: Channel, looks: seq<Look>) returns (batch: seq<Log>, ghost verdicts: seq<Verdict>)
      requires channel.Valid() && |looks| == |channel.items|
      modifies this`connections, channel`items
      ensures channel.Valid()
      ensures (connections, verdicts) == JudgeAll(old(connections), grace, old(channel.items), looks)
      ensures batch == Where(old(channel.items), verdicts, ToBatch)
      ensures channel.items == Where(old(channel.items), verdicts, ToQueue)
      ensures multiset(old(channel.items)) ==
        multiset(batch) + multiset(channel.items) + multiset(Where(old(channel.items), verdicts, ToFloor))
    {
      hide Judge, Where, JudgeAll;
      ghost var logs := channel.items;
      DrainNothing(connections, grace, logs, looks);
      var delayAppends, i := [], 0;
      batch, verdicts := [], [];
      while true
        invariant channel.Valid() && 0 <= i <= |logs| && channel.items == logs[i..] && |verdicts| == i
        invariant (connections, verdicts) == JudgeAll(old(connections), grace, logs[..i], looks[..i])
        invariant batch == Where(logs[..i], verdicts, ToBatch)
        invariant delayAppends == Where(logs[..i], verdicts, ToQueue)
        decreases |logs| - i
      {
        var log := channel.TryReceive();
        if log.None? {
          break;
        }
        var v := BuildLog(log.value, looks[i]);
        DrainStep(old(connections), grace, logs, looks, i);
        WhereStep(logs, verdicts, v, i);
        verdicts := verdicts + [v];
        if v.Offered? {
          batch := batch + [log.value];
        } else if v.Held? || v.Waiting? {
          delayAppends := delayAppends + [log.value];
        }
        i := i + 1;
      }
      assert logs[..i] == logs && looks[..i] == looks;
      DrainSplits(logs, verdicts);
      Requeue(channel, delayAppends);
    }

    /** One flush cycle over what is queued. */
    method BuildConnectionLogs(kernels: Channel, protocols: Channel, c: FlushRun.Cycle)
      returns (kernelBatch: seq<Log>, protocolBatch: seq<Log>)
      requires kernels != protocols && kernels.Valid() && protocols.Valid()
      requires c.newKernels == c.newProtocols == []
      requires FlushRun.Fits(FlushRun.State(connections, kernels.items, protocols.items), c)
      modifies this`connections, kernels`items, protocols`items
      ensures kernels.Valid() && protocols.Valid()
      ensures var s := old(FlushRun.State(connections, kernels.items, protocols.items));
        && FlushRun.State(connections, kernels.items, protocols.items) == FlushRun.Run1(s, grace, c)
        && kernelBatch == Where(s.kernels, FlushRun.AfterKernels(s, grace, c).1, ToBatch)
        && protocolBatch == Where(s.protocols, FlushRun.AfterProtocols(s, grace, c).1, ToBatch)
    {
      hide JudgeAll, Where, FinishAll;
      assert kernels.items + c.newKernels == kernels.items && protocols.items + c.newProtocols == protocols.items;
      ghost var verdicts;
      kernelBatch, verdicts := BuildLogs(kernels, c.kernelLooks);
      protocolBatch, verdicts := BuildLogs(protocols, c.protocolLooks);
      OnBuildConnectionLogFinished(c.end, c.gone, c.mark);
    }

    /** Puts logs back, giving up at the first that does not fit. */
    method Requeue(channel: Channel, logs: seq<Log>)
      requires channel.Valid() && channel.items == []
      modifies channel`items
      ensures channel.Valid()
      ensures channel.items == if |logs| <= channel.capacity then logs else logs[..channel.capacity]
    {
      for j := 0 to |logs|
        invariant channel.Valid() && channel.items == logs[..j]
      {
        var sent := channel.TrySend(logs[j]);
        if !sent {
          return;
        }
      }
      assert logs[..|logs|] == logs;
    }

    /** Deletes the connections that should go and whose deletion time has passed. */
    method OnBuildConnectionLogFinished(now: int, gone: set<Key>, mark: set<Key>)
      modifies this`connections
      ensures connections == FinishAll(old(connections), now, gone, mark)
    {
      ghost var conns := connections;
      var deletable: set<Key>, todo := {}, connections.Keys;
      while todo != {}
        invariant todo <= conns.Keys == connections.Keys && deletable <= conns.Keys - todo
        invariant forall k | k in todo :: connections[k] == conns[k]
        invariant forall k | k in conns.Keys - todo ::
          (connections[k], k in deletable) == Finish(conns[k], now, k in gone, k in mark)
        decreases todo
      {
        var key :| key in todo;
        var con := connections[key];
        var shouldDelete := con.marked || key in gone;
        if !con.marked && key in gone && key in mark {
          con := con.(marked := true);
        }
        if shouldDelete && con.deleteAfter.None? {
          con := con.(deleteAfter := Some(now + DELETE_DELAY));
        }
        if shouldDelete && now > con.deleteAfter.value {
          deletable := deletable + {key};
        }
        connections, todo := connections[key := con], todo - {key};
      }
      connections := connections - deletable;
    }
  }

  lemma DrainStep(conns: Connections, grace: int, logs: seq<Log>, looks: seq<Look>, i: nat)
    requires i < |logs| == |looks|
    ensures var (before, verdicts) := JudgeAll(conns, grace, logs[..i], looks[..i]);
      var (after, v) := Judge(before, grace, logs[i], looks[i]);
      JudgeAll(conns, grace, logs[..i + 1], looks[..i + 1]) == (after, verdicts + [v])
  {
    hide Judge;
    assert logs[..i + 1][..i] == logs[..i] && looks[..i + 1][..i] == looks[..i];
  }

  lemma DrainNothing(conns: Connections, grace: int, logs: seq<Log>, looks: seq<Look>)
    requires |logs| == |looks|
    ensures logs[0..] == logs && JudgeAll(conns, grace, logs[..0], looks[..0]) == (conns, [])
    ensures forall o :: Where(logs[..0], [], o) == []
  {
  }

  lemma WhereStep(logs: seq<Log>, verdicts: seq<Verdict>, v: Verdict, i: nat)
    requires |verdicts| == i < |logs|
    ensures forall o :: Where(logs[..i + 1], verdicts + [v], o)
                     == Where(logs[..i], verdicts, o) + if OutcomeOf(v) == o then [logs[i]] else []
  {
    assert logs[..i + 1][..i] == logs[..i] && (verdicts + [v])[..i] == verdicts;
  }
}
