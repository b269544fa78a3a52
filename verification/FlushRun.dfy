/** Whole runs of flush cycles: exactly when a connection is deleted while a log is still held back for it, and
    that no log is held back past the deadline of its connection. */
module FlushRun {
  import opened Options
  import opened Deferral

  /** The state between two cycles: the connections and the two log queues. */
  datatype State = State(conns: Connections, kernels: seq<Log>, protocols: seq<Log>)

  /** One cycle: when it started, went from one queue to the other and ended, what arrived since the last
      one, what the world answered for each log, and which connections are gone at its end. */
  datatype Cycle = Cycle(start: int, middle: int, end: int, newKernels: seq<Log>, newProtocols: seq<Log>,
                         kernelLooks: seq<Look>, protocolLooks: seq<Look>, gone: set<Key>, mark: set<Key>)

  ghost predicate Fits(s: State, c: Cycle) {
    |c.kernelLooks| == |s.kernels| + |c.newKernels| && |c.protocolLooks| == |s.protocols| + |c.newProtocols|
  }

  ghost function AfterKernels(s: State, grace: int, c: Cycle): (Connections, seq<Verdict>)
    requires Fits(s, c)
  {
    JudgeAll(s.conns, grace, s.kernels + c.newKernels, c.kernelLooks)
  }

  ghost function AfterProtocols(s: State, grace: int, c: Cycle): (Connections, seq<Verdict>)
    requires Fits(s, c)
  {
    JudgeAll(AfterKernels(s, grace, c).0, grace, s.protocols + c.newProtocols, c.protocolLooks)
  }

  /** The state after one cycle. */
  ghost function Run1(s: State, grace: int, c: Cycle): State
    requires Fits(s, c)
  {
    State(FinishAll(AfterProtocols(s, grace, c).0, c.end, c.gone, c.mark),
          Where(s.kernels + c.newKernels, AfterKernels(s, grace, c).1, ToQueue),
          Where(s.protocols + c.newProtocols, AfterProtocols(s, grace, c).1, ToQueue))
  }

  /** No deadline lies more than one grace ahead. */
  ghost predicate Sound(conns: Connections, grace: int, now: int) {
    forall k | k in conns && conns[k].deadline.Some? :: conns[k].deadline.value <= now + grace
  }

  /** The last cycle that may hold a log for the connection ends before the connection may be deleted. */
  predicate InTime(c: Connection, period: int) {
    c.deadline.Some? && c.deleteAfter.Some? ==> c.deadline.value + period <= c.deleteAfter.value + 1
  }

  /** What judging logs leaves of a connection: its deletion time, its deadline once there is one, and that it is closed. */
  ghost predicate Stays(c: Connection, d: Connection) {
    d.deleteAfter == c.deleteAfter && (c.deadline.Some? ==> d.deadline == c.deadline) && (c.marked ==> d.marked)
  }

  ghost predicate AllStay(conns: Connections, after: Connections) {
    forall k | k in conns :: k in after && Stays(conns[k], after[k])
  }

  /** The looks of one drain: the clock runs from `from` to `to` and never back. */
  ghost predicate Timed(looks: seq<Look>, from: int, to: int) {
    && (forall i | 0 <= i < |looks| :: from <= looks[i].now <= to)
    && (forall i, j | 0 <= i < j < |looks| :: looks[i].now <= looks[j].now)
  }

  /** A hold means that the clock is before the deadline of the connection. */
  ghost predicate HoldsBefore(conns: Connections, v: Verdict, look: Look) {
    v.Held? ==> v.key in conns && conns[v.key].deadline.Some? && look.now < conns[v.key].deadline.value
  }

  /** One log: connections stay, deadlines are near, and a hold is made before its deadline. */
  lemma JudgeSound(conns: Connections, grace: int, log: Log, look: Look)
    requires Sound(conns, grace, look.now)
    ensures var (after, v) := Judge(conns, grace, log, look);
      && Sound(after, grace, look.now) && AllStay(conns, after) && HoldsBefore(after, v, look)
      && (v.Held? ==> grace > 0 && log.event.Some? && v.key == log.event.value.key)
  {
  }

  lemma SoundLater(conns: Connections, grace: int, now: int, later: int)
    requires Sound(conns, grace, now) && now <= later
    ensures Sound(conns, grace, later)
  {
  }

  lemma StayTwice(a: Connections, b: Connections, c: Connections)
    requires AllStay(a, b) && AllStay(b, c)
    ensures AllStay(a, c)
    ensures forall v, look | HoldsBefore(b, v, look) :: HoldsBefore(c, v, look)
  {
  }

  lemma StaySame(a: Connections)
    ensures AllStay(a, a)
  {
  }

  /** A whole drain: every hold was made before the deadline of its connection, which is still there. */
  lemma {:induction false} DrainSound(conns: Connections, grace: int, logs: seq<Log>, looks: seq<Look>, from: int, to: int)
    requires |logs| == |looks| && from <= to && Sound(conns, grace, from) && Timed(looks, from, to)
    ensures var (after, verdicts) := JudgeAll(conns, grace, logs, looks);
      && Sound(after, grace, to) && AllStay(conns, after)
      && (forall i | 0 <= i < |logs| :: HoldsBefore(after, verdicts[i], looks[i]))
  {
    hide Judge, Sound, AllStay, HoldsBefore;
    if logs == [] {
      SoundLater(conns, grace, from, to);
      StaySame(conns);
    } else {
      var n := |logs| - 1;
      var look := looks[n];
      DrainSound(conns, grace, logs[..n], looks[..n], from, look.now);
      var (before, verdicts) := JudgeAll(conns, grace, logs[..n], looks[..n]);
      var after := Judge(before, grace, logs[n], look).0;
      JudgeSound(before, grace, logs[n], look);
      SoundLater(after, grace, look.now, to);
      StayTwice(conns, before, after);
    }
  }

  lemma {:induction false} DrainKeeps(conns: Connections, grace: int, logs: seq<Log>, looks: seq<Look>)
    requires |logs| == |looks|
    ensures AllStay(conns, JudgeAll(conns, grace, logs, looks).0)
  {
    if logs != [] {
      DrainKeeps(conns, grace, logs[..|logs| - 1], looks[..|logs| - 1]);
    }
  }

  lemma {:induction false} VerdictAt(conns: Connections, grace: int, logs: seq<Log>, looks: seq<Look>, i: nat)
    requires i < |logs| == |looks|
    ensures JudgeAll(conns, grace, logs, looks).1[i]
         == Judge(JudgeAll(conns, grace, logs[..i], looks[..i]).0, grace, logs[i], looks[i]).1
  {
    var n := |logs| - 1;
    if i < n {
      VerdictAt(conns, grace, logs[..n], looks[..n], i);
      assert logs[..n][..i] == logs[..i] && looks[..n][..i] == looks[..i];
    }
  }

  /** One cycle of a run with flush period `period`, not before `now`: it takes at most one period. */
  ghost predicate ValidCycle(s: State, period: int, c: Cycle, now: int) {
    && Fits(s, c)
    && now <= c.start <= c.middle <= c.end <= c.start + period
    && Timed(c.kernelLooks, c.start, c.middle)
    && Timed(c.protocolLooks, c.middle, c.end)
  }

  /** The logs one drain of a cycle looks at, its looks and its verdicts; `kernel` says which queue. */
  ghost function Drained(s: State, c: Cycle, kernel: bool): seq<Log> {
    if kernel then s.kernels + c.newKernels else s.protocols + c.newProtocols
  }

  ghost function Looks(c: Cycle, kernel: bool): seq<Look> {
    if kernel then c.kernelLooks else c.protocolLooks
  }

  ghost function Verdicts(s: State, grace: int, c: Cycle, kernel: bool): seq<Verdict>
    requires Fits(s, c)
    ensures |Verdicts(s, grace, c, kernel)| == |Drained(s, c, kernel)| == |Looks(c, kernel)|
  {
    if kernel then AfterKernels(s, grace, c).1 else AfterProtocols(s, grace, c).1
  }

  ghost function Queued(s: State, kernel: bool): seq<Log> {
    if kernel then s.kernels else s.protocols
  }

  /** Place `x` of one drain of the cycle holds a log for connection `k`. */
  ghost predicate Holds(s: State, period: int, c: Cycle, kernel: bool, x: nat, k: Key) {
    Fits(s, c) && x < |Drained(s, c, kernel)| && Verdicts(s, ResolutionGraceFor(period), c, kernel)[x] == Held(k)
  }

  /** The connections when both queues are drained, before any is deleted. */
  ghost function Judged(s: State, period: int, c: Cycle): Connections
    requires Fits(s, c)
  {
    AfterProtocols(s, ResolutionGraceFor(period), c).0
  }

  /** The two drains of a cycle. */
  lemma CycleJudged(s: State, period: int, c: Cycle, now: int)
    requires ValidCycle(s, period, c, now) && Sound(s.conns, ResolutionGraceFor(period), now)
    ensures var conns := Judged(s, period, c);
      && Sound(conns, ResolutionGraceFor(period), c.end) && AllStay(s.conns, conns)
      && (forall kernel, x: nat, k | Holds(s, period, c, kernel, x, k) ::
            c.start <= Looks(c, kernel)[x].now && HoldsBefore(conns, Held(k), Looks(c, kernel)[x]))
  {
    hide JudgeAll, Sound, AllStay, HoldsBefore;
    var grace := ResolutionGraceFor(period);
    SoundLater(s.conns, grace, now, c.start);
    DrainSound(s.conns, grace, s.kernels + c.newKernels, c.kernelLooks, c.start, c.middle);
    var mid := AfterKernels(s, grace, c).0;
    DrainSound(mid, grace, s.protocols + c.newProtocols, c.protocolLooks, c.middle, c.end);
    StayTwice(s.conns, mid, Judged(s, period, c));
  }

  /** A connection is not deleted at the end of a cycle that held a log for it in time, and stays in time. */
  lemma NotDeletedInTime(c: Connection, period: int, held: int, end: int, gone: bool, mark: bool)
    requires period > 0 && ResolutionGraceFor(period) > 0 && c.deadline.Some? && InTime(c, period)
    requires held < c.deadline.value <= end + ResolutionGraceFor(period) && end <= held + period
    ensures !Finish(c, end, gone, mark).1
    ensures Finish(c, end, gone, mark).0.deadline == c.deadline && InTime(Finish(c, end, gone, mark).0, period)
  {
    GraceFits(period);
  }

  lemma FinishSound(conns: Connections, grace: int, now: int, gone: set<Key>, mark: set<Key>)
    requires Sound(conns, grace, now)
    ensures Sound(FinishAll(conns, now, gone, mark), grace, now)
  {
  }

  /** One cycle keeps deadlines near. */
  lemma CycleSound(s: State, period: int, c: Cycle, now: int)
    requires ValidCycle(s, period, c, now) && Sound(s.conns, ResolutionGraceFor(period), now)
    ensures Sound(Run1(s, ResolutionGraceFor(period), c).conns, ResolutionGraceFor(period), c.end)
  {
    hide JudgeAll, Sound, AllStay, HoldsBefore, Where, FinishAll;
    CycleJudged(s, period, c, now);
    FinishSound(Judged(s, period, c), ResolutionGraceFor(period), c.end, c.gone, c.mark);
  }

  /** A cycle that holds a log for a connection in time does not delete it. */
  lemma HeldInTimeStays(s: State, period: int, c: Cycle, now: int, kernel: bool, x: nat, k: Key)
    requires period > 0 && ValidCycle(s, period, c, now) && Sound(s.conns, ResolutionGraceFor(period), now)
    requires Holds(s, period, c, kernel, x, k) && (k in Judged(s, period, c) ==> InTime(Judged(s, period, c)[k], period))
    ensures var conns := Run1(s, ResolutionGraceFor(period), c).conns;
      && k in conns && k in Judged(s, period, c) && conns[k].deadline == Judged(s, period, c)[k].deadline && conns[k].deadline.Some?
      && InTime(conns[k], period) && c.start <= Looks(c, kernel)[x].now < conns[k].deadline.value
  {
    hide JudgeAll, AllStay, Where;
    var grace := ResolutionGraceFor(period);
    CycleJudged(s, period, c, now);
    HeldHasGrace(s, period, c, kernel, x, k);
    assert HoldsBefore(Judged(s, period, c), Held(k), Looks(c, kernel)[x]);
    NotDeletedInTime(Judged(s, period, c)[k], period, Looks(c, kernel)[x].now, c.end, k in c.gone, k in c.mark);
  }

  lemma HeldHasGrace(s: State, period: int, c: Cycle, kernel: bool, x: nat, k: Key)
    requires Holds(s, period, c, kernel, x, k)
    ensures ResolutionGraceFor(period) > 0
    ensures var log := Drained(s, c, kernel)[x];
      && log.event.Some? && log.event.value.key == k
      && log in Queued(Run1(s, ResolutionGraceFor(period), c), kernel)
  {
    hide JudgeAll, Where;
    var grace := ResolutionGraceFor(period);
    var conns := if kernel then s.conns else AfterKernels(s, grace, c).0;
    VerdictAt(conns, grace, Drained(s, c, kernel), Looks(c, kernel), x);
    WhereHas(Drained(s, c, kernel), Verdicts(s, grace, c, kernel), x);
  }

  /** A run: each cycle begins when the one before has ended, or later. */
  ghost predicate ValidRun(s: State, period: int, cycles: seq<Cycle>, now: int)
    decreases |cycles|
  {
    cycles != [] ==>
      && ValidCycle(s, period, cycles[0], now)
      && ValidRun(Run1(s, ResolutionGraceFor(period), cycles[0]), period, cycles[1..], cycles[0].end)
  }

  /** The cycles start at most one period apart. */
  ghost predicate Spaced(cycles: seq<Cycle>, period: int) {
    forall i | 0 <= i < |cycles| - 1 :: cycles[i + 1].start <= cycles[i].start + period
  }

  /** The state before cycle `i`. */
  ghost function StateAt(s: State, period: int, cycles: seq<Cycle>, now: int, i: nat): State
    requires ValidRun(s, period, cycles, now) && i <= |cycles|
    decreases |cycles|
  {
    if i == 0 then s
    else StateAt(Run1(s, ResolutionGraceFor(period), cycles[0]), period, cycles[1..], cycles[0].end, i - 1)
  }

  /** A log is judged again in each cycle it is queued for. Its connection is there, so it is not sent to
      wait for one; it is dropped only if its process is not reported or it cannot be rendered; and it is
      held again only before the deadline, which stays in time. */
  lemma JudgedAgain(s: State, period: int, c: Cycle, now: int, kernel: bool, log: Log) returns (y: nat)
    requires period > 0 && ValidCycle(s, period, c, now) && Sound(s.conns, ResolutionGraceFor(period), now)
    requires log in Queued(s, kernel) && log.event.Some? && log.event.value.key in s.conns
    requires s.conns[log.event.value.key].deadline.Some? && InTime(s.conns[log.event.value.key], period)
    ensures var k := log.event.value.key;
      var after := Run1(s, ResolutionGraceFor(period), c);
      && y < |Drained(s, c, kernel)| && Drained(s, c, kernel)[y] == log
      && (Settles(Verdicts(s, ResolutionGraceFor(period), c, kernel)[y], Looks(c, kernel)[y], k) || Holds(s, period, c, kernel, y, k))
      && (Holds(s, period, c, kernel, y, k) ==>
            && log in Queued(after, kernel) && k in after.conns && after.conns[k].deadline == s.conns[k].deadline
            && InTime(after.conns[k], period) && c.start < s.conns[k].deadline.value)
  {
    hide JudgeAll, Where, Sound, FinishAll;
    var grace := ResolutionGraceFor(period);
    var logs, looks, k := Drained(s, c, kernel), Looks(c, kernel), log.event.value.key;
    y :| 0 <= y < |Queued(s, kernel)| && Queued(s, kernel)[y] == log;
    var mid := AfterKernels(s, grace, c).0;
    DrainKeeps(s.conns, grace, s.kernels + c.newKernels, c.kernelLooks);
    DrainKeeps(mid, grace, s.protocols + c.newProtocols, c.protocolLooks);
    var conns := if kernel then s.conns else mid;
    DrainKeeps(conns, grace, logs[..y], looks[..y]);
    VerdictAt(conns, grace, logs, looks, y);
    if Holds(s, period, c, kernel, y, k) {
      HeldHasGrace(s, period, c, kernel, y, k);
      HeldInTimeStays(s, period, c, now, kernel, y, k);
    }
  }

  /** Offered to the batch, or dropped for a reason that is not the connection. */
  ghost predicate Settles(v: Verdict, look: Look, k: Key) {
    v == Offered(k) || (v == Rejected && (!look.report || !look.rendered))
  }

  /** A queued log whose connection is there and in time is settled, with its connection still there, no later than
      in the first cycle that starts at or after the deadline. */
  lemma {:induction false} QueuedLogSettles(s: State, period: int, cycles: seq<Cycle>, now: int, j: nat, kernel: bool, log: Log)
    returns (m: nat, y: nat)
    requires period > 0 && ValidRun(s, period, cycles, now) && Sound(s.conns, ResolutionGraceFor(period), now) && j < |cycles|
    requires log in Queued(s, kernel) && log.event.Some? && log.event.value.key in s.conns
    requires var c := s.conns[log.event.value.key];
      c.deadline.Some? && InTime(c, period) && cycles[j].start >= c.deadline.value
    ensures m <= j && SettledIn(StateAt(s, period, cycles, now, m), period, cycles[m], kernel, log, y)
    decreases j
  {
    hide Verdicts, Drained, Queued, Timed, Run1, Sound, Fits, Settles, InTime;
    y := JudgedAgain(s, period, cycles[0], now, kernel, log);
    if Holds(s, period, cycles[0], kernel, y, log.event.value.key) {
      var after := Run1(s, ResolutionGraceFor(period), cycles[0]);
      CycleSound(s, period, cycles[0], now);
      m, y := QueuedLogSettles(after, period, cycles[1..], cycles[0].end, j - 1, kernel, log);
      m := m + 1;
    } else {
      m := 0;
    }
  }

  /** In this cycle the log, at place `y`, finds its connection and is settled. */
  ghost predicate SettledIn(s: State, period: int, c: Cycle, kernel: bool, log: Log, y: nat) {
    && Fits(s, c) && y < |Drained(s, c, kernel)| && Drained(s, c, kernel)[y] == log
    && log.event.Some? && log.event.value.key in s.conns
    && Settles(Verdicts(s, ResolutionGraceFor(period), c, kernel)[y], Looks(c, kernel)[y], log.event.value.key)
  }

  /** A run can be looked at from any of its cycles on. */
  lemma {:induction false} RunSuffix(s: State, period: int, cycles: seq<Cycle>, now: int, i: nat, m: nat) returns (at: int)
    requires ValidRun(s, period, cycles, now) && Sound(s.conns, ResolutionGraceFor(period), now) && i < |cycles| && i <= m <= |cycles|
    ensures var t := StateAt(s, period, cycles, now, i);
      && Sound(t.conns, ResolutionGraceFor(period), at) && ValidRun(t, period, cycles[i..], at)
      && StateAt(s, period, cycles, now, m) == StateAt(t, period, cycles[i..], at, m - i)
    decreases i
  {
    hide Fits, Timed, Run1, Sound;
    if i == 0 {
      at := now;
      assert cycles[0..] == cycles;
    } else {
      CycleSound(s, period, cycles[0], now);
      at := RunSuffix(Run1(s, ResolutionGraceFor(period), cycles[0]), period, cycles[1..], cycles[0].end, i - 1, m - 1);
      assert cycles[1..][i - 1..] == cycles[i..];
    }
  }

  /** Every run: a log held back for resolution in cycle `i`, in time, is offered to the batch (or dropped because its
      process is not reported or it cannot be rendered) before its connection is deleted, at the latest in
      the first cycle `j` that starts at or after the deadline of the connection. */
  lemma HeldLogIsOffered(s: State, period: int, cycles: seq<Cycle>, now: int, i: nat, x: nat, j: nat, kernel: bool, k: Key)
    returns (m: nat, y: nat)
    requires period > 0 && ValidRun(s, period, cycles, now) && Sound(s.conns, ResolutionGraceFor(period), now) && i < j < |cycles|
    requires var t := StateAt(s, period, cycles, now, i);
      && Holds(t, period, cycles[i], kernel, x, k)
      && (k in Judged(t, period, cycles[i]) ==>
            var c := Judged(t, period, cycles[i])[k];
            InTime(c, period) && (c.deadline.Some? ==> cycles[j].start >= c.deadline.value))
    ensures i < m <= j
    ensures SettledIn(StateAt(s, period, cycles, now, m), period, cycles[m], kernel,
                      Drained(StateAt(s, period, cycles, now, i), cycles[i], kernel)[x], y)
  {
    hide Verdicts, Drained, Queued, Timed, Run1, Sound, Fits, SettledIn, InTime, Judged;
    var t := StateAt(s, period, cycles, now, i);
    var at := RunSuffix(s, period, cycles, now, i, i);
    var c, rest := cycles[i..][0], cycles[i..][1..];
    var after := Run1(t, ResolutionGraceFor(period), c);
    CycleSound(t, period, c, at);
    HeldHasGrace(t, period, c, kernel, x, k);
    HeldInTimeStays(t, period, c, at, kernel, x, k);
    var log := Drained(t, c, kernel)[x];
    assert rest[j - i - 1] == cycles[j];
    m, y := QueuedLogSettles(after, period, rest, c.end, j - i - 1, kernel, log);
    assert rest[m] == cycles[i + m + 1];
    var at' := RunSuffix(s, period, cycles, now, i, i + m + 1);
    m := i + m + 1;
  }

  /** The first cycle that deletes the connection holds a log for it. */
  ghost predicate LosesHeld(s: State, period: int, cycles: seq<Cycle>, now: int, k: Key)
    requires ValidRun(s, period, cycles, now)
    decreases |cycles|
  {
    cycles != [] &&
    var after := Run1(s, ResolutionGraceFor(period), cycles[0]);
    if k in Judged(s, period, cycles[0]) && k !in after.conns then exists kernel, x: nat :: Holds(s, period, cycles[0], kernel, x, k)
    else LosesHeld(after, period, cycles[1..], cycles[0].end, k)
  }

  /** The first cycle holds a log for the connection at time `t`. */
  ghost predicate HeldFirst(s: State, period: int, cycles: seq<Cycle>, k: Key, t: int) {
    cycles != [] && exists kernel, x: nat :: Holds(s, period, cycles[0], kernel, x, k) && Looks(cycles[0], kernel)[x].now == t
  }

  /** A connection with a deadline that is in time never loses a held log. */
  lemma {:induction false} InTimeNeverLoses(s: State, period: int, cycles: seq<Cycle>, now: int, k: Key)
    requires period > 0 && ResolutionGraceFor(period) > 0 && ValidRun(s, period, cycles, now)
    requires Sound(s.conns, ResolutionGraceFor(period), now) && k in s.conns && s.conns[k].deadline.Some? && InTime(s.conns[k], period)
    ensures !LosesHeld(s, period, cycles, now, k)
    decreases |cycles|
  {
    if cycles != [] {
      hide JudgeAll, Where, Fits, Timed;
      var c, grace := cycles[0], ResolutionGraceFor(period);
      CycleJudged(s, period, c, now);
      CycleSound(s, period, c, now);
      assert Stays(s.conns[k], Judged(s, period, c)[k]);
      if k in Run1(s, grace, c).conns {
        StaysInTime(Judged(s, period, c)[k], period, c.end, k in c.gone, k in c.mark);
        InTimeNeverLoses(Run1(s, grace, c), period, cycles[1..], c.end, k);
      } else {
        forall kernel, x: nat ensures !Holds(s, period, c, kernel, x, k) {
          if Holds(s, period, c, kernel, x, k) {
            HeldInTimeStays(s, period, c, now, kernel, x, k);
          }
        }
      }
    }
  }

  lemma StaysInTime(c: Connection, period: int, end: int, gone: bool, mark: bool)
    requires period > 0 && ResolutionGraceFor(period) > 0 && InTime(c, period)
    requires c.deadline.Some? && c.deadline.value <= end + ResolutionGraceFor(period)
    ensures Finish(c, end, gone, mark).0.deadline == c.deadline && InTime(Finish(c, end, gone, mark).0, period)
  {
    GraceFits(period);
  }

  /** The deadline of a connection that is held at `t` lies at most one grace after `t`. */
  lemma DeadlineNear(s: State, period: int, c: Cycle, now: int, kernel: bool, x: nat, k: Key)
    requires ValidCycle(s, period, c, now) && Sound(s.conns, ResolutionGraceFor(period), now) && Holds(s, period, c, kernel, x, k)
    ensures var conns := Judged(s, period, c);
      k in conns && conns[k].deadline.Some? && conns[k].deadline.value <= Looks(c, kernel)[x].now + ResolutionGraceFor(period)
  {
    hide JudgeAll;
    var grace := ResolutionGraceFor(period);
    SoundLater(s.conns, grace, now, c.start);
    DrainSound(s.conns, grace, s.kernels + c.newKernels, c.kernelLooks, c.start, c.middle);
    var mid := AfterKernels(s, grace, c).0;
    DrainKeeps(mid, grace, s.protocols + c.newProtocols, c.protocolLooks);
    if kernel {
      HeldNear(s.conns, grace, Drained(s, c, kernel), c.kernelLooks, c.start, c.middle, x, k);
    } else {
      HeldNear(mid, grace, Drained(s, c, kernel), c.protocolLooks, c.middle, c.end, x, k);
    }
  }

  lemma HeldNear(conns: Connections, grace: int, logs: seq<Log>, looks: seq<Look>, from: int, to: int, x: nat, k: Key)
    requires x < |logs| == |looks| && from <= to && Sound(conns, grace, from) && Timed(looks, from, to)
    requires JudgeAll(conns, grace, logs, looks).1[x] == Held(k)
    ensures var after := JudgeAll(conns, grace, logs, looks).0;
      k in after && after[k].deadline.Some? && after[k].deadline.value <= looks[x].now + grace
  {
    hide JudgeAll;
    DrainSound(conns, grace, logs[..x], looks[..x], from, looks[x].now);
    var before := JudgeAll(conns, grace, logs[..x], looks[..x]).0;
    JudgeSound(before, grace, logs[x], looks[x]);
    VerdictAt(conns, grace, logs, looks, x);
    DrainTail(conns, grace, logs, looks, x);
  }

  /** What a drain has after one more log stays until its end. */
  lemma {:induction false} DrainTail(conns: Connections, grace: int, logs: seq<Log>, looks: seq<Look>, i: nat)
    requires i < |logs| == |looks|
    ensures AllStay(Judge(JudgeAll(conns, grace, logs[..i], looks[..i]).0, grace, logs[i], looks[i]).0, JudgeAll(conns, grace, logs, looks).0)
    decreases |logs|
  {
    hide AllStay, Judge;
    var n := |logs| - 1;
    if i < n {
      DrainTail(conns, grace, logs[..n], looks[..n], i);
      assert logs[..n][..i] == logs[..i] && looks[..n][..i] == looks[..i];
      var before := JudgeAll(conns, grace, logs[..n], looks[..n]).0;
      JudgeStays(before, grace, logs[n], looks[n]);
      StayTwice(Judge(JudgeAll(conns, grace, logs[..i], looks[..i]).0, grace, logs[i], looks[i]).0, before,
                Judge(before, grace, logs[n], looks[n]).0);
    } else {
      StaySame(JudgeAll(conns, grace, logs, looks).0);
    }
  }

  lemma JudgeStays(conns: Connections, grace: int, log: Log, look: Look)
    ensures AllStay(conns, Judge(conns, grace, log, look).0)
  {
  }

  /** Looks that find every process unreported. */
  ghost function Quiet(n: nat, now: int): (looks: seq<Look>)
    ensures |looks| == n && forall i | 0 <= i < n :: looks[i] == Look(now, false, false, false)
  {
    seq(n, _ => Look(now, false, false, false))
  }

  /** A drain with such looks drops every log and changes nothing. */
  lemma {:induction false} QuietDrain(conns: Connections, grace: int, logs: seq<Log>, looks: seq<Look>)
    requires |logs| == |looks| && forall i | 0 <= i < |looks| :: !looks[i].report
    ensures var (after, verdicts) := JudgeAll(conns, grace, logs, looks);
      after == conns && Where(logs, verdicts, ToQueue) == []
  {
    if logs != [] {
      var n := |logs| - 1;
      QuietDrain(conns, grace, logs[..n], looks[..n]);
      var (before, verdicts) := JudgeAll(conns, grace, logs[..n], looks[..n]);
      assert (verdicts + [Rejected])[..n] == verdicts;
    }
  }

  /** A cycle at `h` in which only the last kernel log is looked at, and is pending; it ends at `end` with `k` gone. */
  ghost function Holding(s: State, h: int, end: int, log: seq<Log>, k: Key): Cycle
    requires |s.kernels| + |log| > 0
  {
    Cycle(h, h, end, log, [], Quiet(|s.kernels| + |log| - 1, h) + [Look(h, true, true, true)], Quiet(|s.protocols|, h), {k}, {})
  }

  /** What such a cycle does: it holds the log, and deletes the connection if it ends late enough. */
  lemma HoldingCycle(s: State, period: int, h: int, end: int, more: seq<Log>, log: Log, k: Key)
    requires period > 0 && ResolutionGraceFor(period) > 0 && h <= end <= h + period
    requires s.kernels + more != [] && (s.kernels + more)[|s.kernels + more| - 1] == log
    requires log.event.Some? && log.event.value.key == k && k in s.conns
    requires s.conns[k].deleteAfter.Some? && (s.conns[k].deadline.Some? ==> h < s.conns[k].deadline.value)
    ensures var c := Holding(s, h, end, more, k);
      var after := Run1(s, ResolutionGraceFor(period), c);
      && ValidCycle(s, period, c, h)
      && Holds(s, period, c, true, |s.kernels + more| - 1, k) && Looks(c, true)[|s.kernels + more| - 1].now == h
      && after.kernels == [log] && after.protocols == []
      && k in Judged(s, period, c) && (k in after.conns <==> end <= s.conns[k].deleteAfter.value)
      && (k in after.conns ==>
            && after.conns[k].deleteAfter == s.conns[k].deleteAfter
            && after.conns[k].deadline == if s.conns[k].deadline.Some? then s.conns[k].deadline else Some(h + ResolutionGraceFor(period)))
  {
    hide JudgeAll, Where, FinishAll;
    var c, grace := Holding(s, h, end, more, k), ResolutionGraceFor(period);
    LastHeld(s.conns, grace, s.kernels + more, c.kernelLooks, k);
    QuietDrain(AfterKernels(s, grace, c).0, grace, s.protocols + c.newProtocols, c.protocolLooks);
    FinishOne(Judged(s, period, c), end, k);
  }

  lemma FinishOne(conns: Connections, end: int, k: Key)
    requires k in conns && conns[k].deleteAfter.Some?
    ensures var after := FinishAll(conns, end, {k}, {});
      && (k in after <==> end <= conns[k].deleteAfter.value)
      && (k in after ==> after[k].deleteAfter == conns[k].deleteAfter && after[k].deadline == conns[k].deadline)
  {
  }

  lemma LastHeld(conns: Connections, grace: int, logs: seq<Log>, looks: seq<Look>, k: Key)
    requires 0 < |logs| == |looks| && grace > 0
    requires var n := |logs| - 1;
      && (forall i | 0 <= i < n :: !looks[i].report) && looks[n].report && looks[n].pending
      && logs[n].event.Some? && logs[n].event.value.key == k && k in conns
      && (conns[k].deadline.Some? ==> looks[n].now < conns[k].deadline.value)
    ensures var (after, verdicts) := JudgeAll(conns, grace, logs, looks);
      var n := |logs| - 1;
      && verdicts[n] == Held(k) && Where(logs, verdicts, ToQueue) == [logs[n]] && k in after
      && after[k].deleteAfter == conns[k].deleteAfter
      && after[k].deadline == if conns[k].deadline.Some? then conns[k].deadline else Some(looks[n].now + grace)
  {
    var n := |logs| - 1;
    QuietDrain(conns, grace, logs[..n], looks[..n]);
    var (before, verdicts) := JudgeAll(conns, grace, logs[..n], looks[..n]);
    var (after, v) := Judge(before, grace, logs[n], looks[n]);
    assert (verdicts + [v])[..n] == verdicts;
  }

  /** A log held for a connection that is not in time can go on being held until the connection is deleted. */
  lemma {:induction false} LoseLater(s: State, period: int, now: int, log: Log, k: Key) returns (cycles: seq<Cycle>)
    requires period > 0 && ResolutionGraceFor(period) > 0 && s.kernels == [log] && s.protocols == []
    requires log.event.Some? && log.event.value.key == k && k in s.conns
    requires s.conns[k].deadline.Some? && now < s.conns[k].deadline.value && !InTime(s.conns[k], period)
    ensures ValidRun(s, period, cycles, now) && Spaced(cycles, period) && cycles != [] && cycles[0].start <= now + period
    ensures LosesHeld(s, period, cycles, now, k)
    decreases s.conns[k].deadline.value - now
  {
    hide Holding, Run1, Judged, ValidCycle, Holds;
    var deadline, grace := s.conns[k].deadline.value, ResolutionGraceFor(period);
    var last := now + period >= deadline - 1;
    var h := if last then deadline - 1 else now + period;
    var end := if last then h + period else h;
    var c := Holding(s, h, end, [], k);
    RightEnd(s.kernels);
    HoldingCycle(s, period, h, end, [], log, k);
    CycleFrom(s, period, c, h, now);
    HoldingTimes(s, h, end, [], k);
    var after := Run1(s, grace, c);
    if k in after.conns {
      var rest := LoseLater(after, period, h, log, k);
      cycles := [c] + rest;
      Prepend(s, period, now, c, rest, k);
    } else {
      cycles := [c];
      Prepend(s, period, now, c, [], k);
    }
  }

  lemma RightEnd(logs: seq<Log>)
    ensures logs + [] == logs
  {
  }

  lemma CycleFrom(s: State, period: int, c: Cycle, h: int, now: int)
    requires ValidCycle(s, period, c, h) && now <= h
    ensures ValidCycle(s, period, c, now) && Fits(s, c)
  {
  }

  lemma HoldingTimes(s: State, h: int, end: int, more: seq<Log>, k: Key)
    requires |s.kernels| + |more| > 0
    ensures Holding(s, h, end, more, k).start == h && Holding(s, h, end, more, k).end == end
  {
  }

  /** A cycle in front of a run. */
  lemma Prepend(s: State, period: int, now: int, c: Cycle, rest: seq<Cycle>, k: Key)
    requires ValidCycle(s, period, c, now) && Fits(s, c) && ValidRun(Run1(s, ResolutionGraceFor(period), c), period, rest, c.end)
    requires Spaced(rest, period) && (rest != [] ==> rest[0].start <= c.start + period)
    ensures ValidRun(s, period, [c] + rest, now) && Spaced([c] + rest, period)
    ensures LosesHeld(s, period, [c] + rest, now, k) <==>
      if k in Judged(s, period, c) && k !in Run1(s, ResolutionGraceFor(period), c).conns
      then exists kernel, x: nat :: Holds(s, period, c, kernel, x, k)
      else LosesHeld(Run1(s, ResolutionGraceFor(period), c), period, rest, c.end, k)
  {
    hide Run1, Judged, ValidCycle, Holds, Fits;
    assert ([c] + rest)[1..] == rest;
  }

  /** Whether a log may be held at `t` for a connection of the state: not if its deadline is over. */
  predicate MayHold(c: Connection, t: int) {
    c.deadline.Some? ==> t < c.deadline.value
  }

  /** When a hold at `t` is safe for a connection of the state: with a deadline, if that is in time; without one, if the
      connection has no deletion time, or one at least a grace and a period after `t`, less one tick. */
  predicate SafeAt(c: Connection, period: int, t: int) {
    if c.deadline.Some? then InTime(c, period)
    else c.deleteAfter.None? || t + ResolutionGraceFor(period) + period <= c.deleteAfter.value + 1
  }

  /** Where a hold is not safe, some run loses the connection, with cycles at most one period apart. */
  lemma LateHoldLoses(s: State, period: int, now: int, log: Log, k: Key, t: int) returns (cycles: seq<Cycle>)
    requires period > 0 && ResolutionGraceFor(period) > 0 && now <= t
    requires log.event.Some? && log.event.value.key == k && k in s.conns && MayHold(s.conns[k], t) && !SafeAt(s.conns[k], period, t)
    ensures ValidRun(s, period, cycles, now) && Spaced(cycles, period) && HeldFirst(s, period, cycles, k, t) && cycles[0].start == t
    ensures LosesHeld(s, period, cycles, now, k)
  {
    hide Holding, Run1, Judged, ValidCycle, Holds;
    var c, x := Holding(s, t, t, [log], k), |s.kernels + [log]| - 1;
    HoldingCycle(s, period, t, t, [log], log, k);
    CycleFrom(s, period, c, t, now);
    HoldingTimes(s, t, t, [log], k);
    var after := Run1(s, ResolutionGraceFor(period), c);
    var rest := [];
    if k in after.conns {
      rest := LoseLater(after, period, t, log, k);
    }
    Prepend(s, period, now, c, rest, k);
    cycles := [c] + rest;
    assert cycles[0] == c && Holds(s, period, cycles[0], true, x, k);
  }

  /** When holding a log at `t` is safe: no run that begins with such a hold deletes the connection in a cycle that holds a
      log for it, if and only if the connection is made in that very cycle, or its deadline is over so that there is no such
      run, or the hold is safe for it as it is. */
  lemma HoldIsSafeIff(s: State, period: int, now: int, k: Key, t: int)
    requires period > 0 && ResolutionGraceFor(period) > 0 && now <= t && Sound(s.conns, ResolutionGraceFor(period), now)
    ensures (k in s.conns && MayHold(s.conns[k], t) ==> SafeAt(s.conns[k], period, t))
      <==> forall cycles | ValidRun(s, period, cycles, now) && HeldFirst(s, period, cycles, k, t) :: !LosesHeld(s, period, cycles, now, k)
  {
    hide ValidRun, HeldFirst, LosesHeld, SafeAt, MayHold, Sound;
    if k in s.conns && MayHold(s.conns[k], t) ==> SafeAt(s.conns[k], period, t) {
      forall cycles | ValidRun(s, period, cycles, now) && HeldFirst(s, period, cycles, k, t)
        ensures !LosesHeld(s, period, cycles, now, k)
      {
        EarlyHoldKeeps(s, period, now, k, t, cycles);
      }
    } else {
      var cycles := LateHoldLoses(s, period, now, Log(0, Some(LogEvent(k, Other, t))), k, t);
    }
  }

  lemma EarlyHoldKeeps(s: State, period: int, now: int, k: Key, t: int, cycles: seq<Cycle>)
    requires period > 0 && ResolutionGraceFor(period) > 0 && Sound(s.conns, ResolutionGraceFor(period), now)
    requires k in s.conns && MayHold(s.conns[k], t) ==> SafeAt(s.conns[k], period, t)
    requires ValidRun(s, period, cycles, now) && HeldFirst(s, period, cycles, k, t)
    ensures !LosesHeld(s, period, cycles, now, k)
  {
    hide JudgeAll, Where, Fits, Timed, Verdicts, Drained, FinishAll;
    var c, grace := cycles[0], ResolutionGraceFor(period);
    var kernel, x: nat :| Holds(s, period, c, kernel, x, k) && Looks(c, kernel)[x].now == t;
    DeadlineNear(s, period, c, now, kernel, x, k);
    CycleJudged(s, period, c, now);
    assert HoldsBefore(Judged(s, period, c), Held(k), Looks(c, kernel)[x]);
    if k in s.conns {
      assert Stays(s.conns[k], Judged(s, period, c)[k]);
    } else {
      MadeWithoutDeletion(s, period, c, k);
    }
    HeldInTimeStays(s, period, c, now, kernel, x, k);
    CycleSound(s, period, c, now);
    InTimeNeverLoses(Run1(s, grace, c), period, cycles[1..], c.end, k);
  }

  /** A connection that is made in a cycle has no deletion time before its end. */
  lemma MadeWithoutDeletion(s: State, period: int, c: Cycle, k: Key)
    requires Fits(s, c) && k !in s.conns
    ensures k in Judged(s, period, c) ==> Judged(s, period, c)[k].deleteAfter.None?
  {
    hide JudgeAll;
    var grace := ResolutionGraceFor(period);
    DrainMakes(s.conns, grace, s.kernels + c.newKernels, c.kernelLooks, k);
    DrainMakes(AfterKernels(s, grace, c).0, grace, s.protocols + c.newProtocols, c.protocolLooks, k);
  }

  lemma {:induction false} DrainMakes(conns: Connections, grace: int, logs: seq<Log>, looks: seq<Look>, k: Key)
    requires |logs| == |looks| && (k in conns ==> conns[k].deleteAfter.None?)
    ensures var after := JudgeAll(conns, grace, logs, looks).0; k in after ==> after[k].deleteAfter.None?
  {
    if logs != [] {
      DrainMakes(conns, grace, logs[..|logs| - 1], looks[..|logs| - 1], k);
    }
  }

  ghost predicate AllInTime(conns: Connections, period: int) {
    forall k | k in conns :: InTime(conns[k], period)
  }

  /** No cycle of the run sets a deadline for a connection that has a deletion time. */
  ghost predicate NoLateDeadline(s: State, period: int, cycles: seq<Cycle>, now: int)
    requires ValidRun(s, period, cycles, now)
    decreases |cycles|
  {
    cycles != [] ==>
      && (forall k | k in s.conns && k in Judged(s, period, cycles[0]) && s.conns[k].deleteAfter.Some? ::
            Judged(s, period, cycles[0])[k].deadline == s.conns[k].deadline)
      && NoLateDeadline(Run1(s, ResolutionGraceFor(period), cycles[0]), period, cycles[1..], cycles[0].end)
  }

  /** Such a cycle leaves every connection in time, before and after its deletions. */
  lemma CycleInTime(s: State, period: int, c: Cycle, now: int)
    requires period > 0 && ResolutionGraceFor(period) > 0 && ValidCycle(s, period, c, now)
    requires Sound(s.conns, ResolutionGraceFor(period), now) && AllInTime(s.conns, period)
    requires forall k | k in s.conns && k in Judged(s, period, c) && s.conns[k].deleteAfter.Some? ::
      Judged(s, period, c)[k].deadline == s.conns[k].deadline
    ensures AllInTime(Judged(s, period, c), period) && AllInTime(Run1(s, ResolutionGraceFor(period), c).conns, period)
  {
    hide JudgeAll, Where, Timed, HoldsBefore;
    var conns := Judged(s, period, c);
    CycleJudged(s, period, c, now);
    forall k | k in conns ensures InTime(conns[k], period) {
      if k in s.conns {
        assert Stays(s.conns[k], conns[k]);
      } else {
        MadeWithoutDeletion(s, period, c, k);
      }
    }
    FinishInTime(conns, period, c.end, c.gone, c.mark);
  }

  lemma FinishInTime(conns: Connections, period: int, end: int, gone: set<Key>, mark: set<Key>)
    requires period > 0 && ResolutionGraceFor(period) > 0 && Sound(conns, ResolutionGraceFor(period), end) && AllInTime(conns, period)
    ensures AllInTime(FinishAll(conns, end, gone, mark), period)
  {
    var after := FinishAll(conns, end, gone, mark);
    forall k | k in after ensures InTime(after[k], period) {
      if conns[k].deadline.Some? {
        StaysInTime(conns[k], period, end, k in gone, k in mark);
      }
    }
  }

  /** In a run without late deadlines every hold is in time. */
  lemma {:induction false} NoLateIsInTime(s: State, period: int, cycles: seq<Cycle>, now: int, i: nat)
    requires period > 0 && ResolutionGraceFor(period) > 0 && ValidRun(s, period, cycles, now) && i < |cycles|
    requires Sound(s.conns, ResolutionGraceFor(period), now) && AllInTime(s.conns, period) && NoLateDeadline(s, period, cycles, now)
    ensures var t := StateAt(s, period, cycles, now, i); Fits(t, cycles[i]) && AllInTime(Judged(t, period, cycles[i]), period)
    decreases i
  {
    hide Run1, Judged, Sound, AllInTime, Fits, Timed;
    CycleInTime(s, period, cycles[0], now);
    if i > 0 {
      CycleSound(s, period, cycles[0], now);
      NoLateIsInTime(Run1(s, ResolutionGraceFor(period), cycles[0]), period, cycles[1..], cycles[0].end, i - 1);
    }
  }

  /** From an empty manager, with no deadline set after a deletion time, every held log is offered (or dropped for a reason
      other than its connection) at the latest in the first cycle that starts at or after the deadline. */
  lemma EveryHeldLogIsOffered(period: int, cycles: seq<Cycle>, now: int, i: nat, x: nat, j: nat, kernel: bool, k: Key)
    returns (m: nat, y: nat)
    requires period > 0 && ValidRun(State(map[], [], []), period, cycles, now) && NoLateDeadline(State(map[], [], []), period, cycles, now)
    requires i < j < |cycles|
    requires var t := StateAt(State(map[], [], []), period, cycles, now, i);
      && Holds(t, period, cycles[i], kernel, x, k)
      && (k in Judged(t, period, cycles[i]) && Judged(t, period, cycles[i])[k].deadline.Some? ==>
            cycles[j].start >= Judged(t, period, cycles[i])[k].deadline.value)
    ensures i < m <= j
    ensures SettledIn(StateAt(State(map[], [], []), period, cycles, now, m), period, cycles[m], kernel,
                      Drained(StateAt(State(map[], [], []), period, cycles, now, i), cycles[i], kernel)[x], y)
  {
    hide Run1, Judged, Fits, Timed, Holds, SettledIn, Drained, ValidRun, StateAt;
    var s := State(map[], [], []);
    HeldHasGrace(StateAt(s, period, cycles, now, i), period, cycles[i], kernel, x, k);
    NoLateIsInTime(s, period, cycles, now, i);
    m, y := HeldLogIsOffered(s, period, cycles, now, i, x, j, kernel, k);
  }

  /** It does not always hold. A run from an empty manager, with the default period: a connection is made and closed, a log
      of it finds a resolver waiting one second later, and the connection is deleted while that log is held. */
  lemma PendingAgainLosesConnection() returns (cycles: seq<Cycle>)
    ensures ValidRun(State(map[], [], []), 5 * SECOND, cycles, 0) && Spaced(cycles, 5 * SECOND)
    ensures LosesHeld(State(map[], [], []), 5 * SECOND, cycles, 0, Key(1, 1))
  {
    var s, period, k := State(map[], [], []), 5 * SECOND, Key(1, 1);
    var made := Log(1, Some(LogEvent(k, Connect(true), 0)));
    var c := Cycle(0, 0, 0, [made], [], [Look(0, true, false, true)], [], {k}, {k});
    MadeAndClosed(s, c, made, k);
    var after := Run1(s, ResolutionGraceFor(period), c);
    var rest := LateHoldLoses(after, period, 0, Log(2, Some(LogEvent(k, Other, 0))), k, SECOND);
    Prepend(s, period, 0, c, rest, k);
    cycles := [c] + rest;
  }

  lemma MadeAndClosed(s: State, c: Cycle, made: Log, k: Key)
    requires s == State(map[], [], []) && made == Log(1, Some(LogEvent(k, Connect(true), 0)))
    requires c == Cycle(0, 0, 0, [made], [], [Look(0, true, false, true)], [], {k}, {k})
    ensures ValidCycle(s, 5 * SECOND, c, 0) && ResolutionGraceFor(5 * SECOND) == 20 * SECOND
    ensures var after := Run1(s, 20 * SECOND, c);
      after.conns == map[k := Connection(true, Some(DELETE_DELAY), None)] && after.kernels == [] && after.protocols == []
    ensures k in Judged(s, 5 * SECOND, c)
  {
    var grace := ResolutionGraceFor(5 * SECOND);
    assert s.kernels + c.newKernels == [made];
    JudgeOne(map[], grace, made, c.kernelLooks[0]);
    var verdict := Judge(map[], grace, made, c.kernelLooks[0]);
    assert verdict == (map[k := Connection(false, None, None)], Offered(k));
    assert AfterKernels(s, grace, c) == (verdict.0, [Offered(k)]);
  }

  lemma JudgeOne(conns: Connections, grace: int, log: Log, look: Look)
    ensures var (after, v) := Judge(conns, grace, log, look);
      JudgeAll(conns, grace, [log], [look]).0 == after && JudgeAll(conns, grace, [log], [look]).1 == [v]
  {
    hide Judge;
    var logs, looks := [log], [look];
    assert logs[..|logs| - 1] == [] && looks[..|logs| - 1] == [];
    assert JudgeAll(conns, grace, logs[..|logs| - 1], looks[..|logs| - 1]) == (conns, []);
    assert JudgeAll(conns, grace, logs, looks).0 == Judge(conns, grace, log, look).0;
    assert JudgeAll(conns, grace, logs, looks).1 == [] + [Judge(conns, grace, log, look).1] == [Judge(conns, grace, log, look).1];
  }

  /** Looking at this log makes connection `k`, if it is not there yet. */
  predicate Makes(log: Log, look: Look, k: Key) {
    log.event.Some? && log.event.value.key == k && log.event.value.kind == Connect(true) && look.report
  }

  /** A connection is there in a drain if it was there before, or an earlier log made it. */
  lemma {:induction false} ThereIff(conns: Connections, grace: int, logs: seq<Log>, looks: seq<Look>, k: Key)
    requires |logs| == |looks|
    ensures k in JudgeAll(conns, grace, logs, looks).0 <==> k in conns || exists i :: 0 <= i < |logs| && Makes(logs[i], looks[i], k)
  {
    if logs != [] {
      var n := |logs| - 1;
      ThereIff(conns, grace, logs[..n], looks[..n], k);
      MadeByLast(JudgeAll(conns, grace, logs[..n], looks[..n]).0, grace, logs[n], looks[n], k);
      assert forall i | 0 <= i < n :: logs[..n][i] == logs[i] && looks[..n][i] == looks[i];
      assert (exists i :: 0 <= i < |logs| && Makes(logs[i], looks[i], k))
        <==> Makes(logs[n], looks[n], k) || exists i :: 0 <= i < n && Makes(logs[..n][i], looks[..n][i], k);
    }
  }

  lemma MadeByLast(conns: Connections, grace: int, log: Log, look: Look, k: Key)
    ensures k in Judge(conns, grace, log, look).0 <==> k in conns || Makes(log, look, k)
  {
  }

  /** The log at place `y` of a drain has no connection: there was none before the cycle, and no log up to it made one. */
  ghost predicate Missing(s: State, c: Cycle, kernel: bool, y: nat, k: Key)
    requires Fits(s, c) && y < |Drained(s, c, kernel)|
  {
    && k !in s.conns
    && (forall i | 0 <= i <= y :: !Makes(Drained(s, c, kernel)[i], Looks(c, kernel)[i], k))
    && (!kernel ==> forall i | 0 <= i < |Drained(s, c, true)| :: !Makes(Drained(s, c, true)[i], Looks(c, true)[i], k))
  }

  /** What becomes of a log in a cycle, by what there is to see. */
  lemma VerdictIs(s: State, period: int, c: Cycle, kernel: bool, y: nat)
    requires Fits(s, c) && y < |Drained(s, c, kernel)|
    ensures var log, look := Drained(s, c, kernel)[y], Looks(c, kernel)[y];
      var v := Verdicts(s, ResolutionGraceFor(period), c, kernel)[y];
      && (log.event.None? || !look.report ==> v == Rejected)
      && (log.event.Some? && look.report ==>
            var e := log.event.value;
            if Missing(s, c, kernel, y, e.key) then v == if look.now - e.timestamp <= 10_000_000_000 then Waiting else Rejected
            else v == Held(e.key) || v == if look.rendered then Offered(e.key) else Rejected)
  {
    hide JudgeAll;
    var grace, logs, looks := ResolutionGraceFor(period), Drained(s, c, kernel), Looks(c, kernel);
    var mid := AfterKernels(s, grace, c).0;
    var conns := if kernel then s.conns else mid;
    var before := JudgeAll(conns, grace, logs[..y], looks[..y]).0;
    VerdictAt(conns, grace, logs, looks, y);
    if logs[y].event.Some? {
      var k := logs[y].event.value.key;
      ThereIff(s.conns, grace, Drained(s, c, true), c.kernelLooks, k);
      ThereIff(conns, grace, logs[..y], looks[..y], k);
      assert forall i | 0 <= i < y :: logs[..y][i] == logs[i] && looks[..y][i] == looks[i];
      assert Missing(s, c, kernel, y, k) <==> k !in before && !Makes(logs[y], looks[y], k);
      NotThere(before, grace, logs[y], looks[y], k);
    }
  }

  lemma NotThere(conns: Connections, grace: int, log: Log, look: Look, k: Key)
    requires log.event.Some? && log.event.value.key == k
    ensures var v, e := Judge(conns, grace, log, look).1, log.event.value;
      && (!look.report ==> v == Rejected)
      && (look.report && k !in conns && !Makes(log, look, k) ==>
            v == if look.now - e.timestamp <= 10_000_000_000 then Waiting else Rejected)
      && (look.report && (k in conns || Makes(log, look, k)) ==> v == Held(k) || v == if look.rendered then Offered(k) else Rejected)
  {
  }

  /** Place `y` of the drain is the only one with this log. */
  ghost predicate OnlyAt(s: State, c: Cycle, kernel: bool, log: Log, y: nat) {
    Fits(s, c) && forall i | 0 <= i < |Drained(s, c, kernel)| :: Drained(s, c, kernel)[i] == log <==> i == y
  }

  lemma {:induction false} WhereOnly(logs: seq<Log>, verdicts: seq<Verdict>, y: nat, o: Outcome)
    requires y < |logs| == |verdicts| && forall i | 0 <= i < |logs| :: logs[i] == logs[y] <==> i == y
    ensures logs[y] in Where(logs, verdicts, o) <==> OutcomeOf(verdicts[y]) == o
  {
    var n := |logs| - 1;
    if y < n {
      WhereOnly(logs[..n], verdicts[..n], y, o);
    } else {
      WhereSubset(logs[..n], verdicts[..n], o);
    }
  }

  lemma {:induction false} WhereSubset(logs: seq<Log>, verdicts: seq<Verdict>, o: Outcome)
    requires |logs| == |verdicts|
    ensures forall log | log in Where(logs, verdicts, o) :: log in logs
  {
    if logs != [] {
      WhereSubset(logs[..|logs| - 1], verdicts[..|logs| - 1], o);
    }
  }

  /** A reported log whose connection is missing is in the queue after the cycle if and only if it is looked at no later than
      ten seconds after its time. One without an event, or not reported, is not. */
  lemma MissingLogQueuedIff(s: State, period: int, c: Cycle, kernel: bool, log: Log, y: nat)
    requires OnlyAt(s, c, kernel, log, y) && y < |Drained(s, c, kernel)|
    ensures var queued := log in Queued(Run1(s, ResolutionGraceFor(period), c), kernel);
      && (log.event.None? || !Looks(c, kernel)[y].report ==> !queued)
      && (log.event.Some? && Looks(c, kernel)[y].report && Missing(s, c, kernel, y, log.event.value.key) ==>
            (queued <==> Looks(c, kernel)[y].now - log.event.value.timestamp <= 10_000_000_000))
  {
    hide JudgeAll, Where, Missing, FinishAll;
    VerdictIs(s, period, c, kernel, y);
    WhereOnly(Drained(s, c, kernel), Verdicts(s, ResolutionGraceFor(period), c, kernel), y, ToQueue);
  }

  /** In each of these cycles the log is looked at once, is reported, misses its connection, and is not too old. */
  ghost predicate Waits(s: State, period: int, cycles: seq<Cycle>, now: int, kernel: bool, log: Log, n: nat)
    requires ValidRun(s, period, cycles, now) && n <= |cycles| && log.event.Some?
    decreases n
  {
    n > 0 ==>
      && (exists y: nat :: OnlyAt(s, cycles[0], kernel, log, y) && InWait(s, cycles[0], kernel, log, y))
      && Waits(Run1(s, ResolutionGraceFor(period), cycles[0]), period, cycles[1..], cycles[0].end, kernel, log, n - 1)
  }

  ghost predicate InWait(s: State, c: Cycle, kernel: bool, log: Log, y: nat) {
    && Fits(s, c) && y < |Drained(s, c, kernel)| && log.event.Some? && Looks(c, kernel)[y].report
    && Missing(s, c, kernel, y, log.event.value.key) && Looks(c, kernel)[y].now - log.event.value.timestamp <= 10_000_000_000
  }

  /** Over runs: a log stays queued as long as it waits. Where it is looked at next: if its connection is still missing, it goes
      on waiting or, too old, is out of the queue; if its connection has been made, it is held, offered, or dropped only
      because it cannot be rendered. */
  lemma {:induction false} WaitingLog(s: State, period: int, cycles: seq<Cycle>, now: int, kernel: bool, log: Log, n: nat, y: nat)
    requires ValidRun(s, period, cycles, now) && n < |cycles| && log.event.Some? && Waits(s, period, cycles, now, kernel, log, n)
    requires var t := StateAt(s, period, cycles, now, n);
      OnlyAt(t, cycles[n], kernel, log, y) && y < |Drained(t, cycles[n], kernel)| && Looks(cycles[n], kernel)[y].report
    ensures var t, after, k := StateAt(s, period, cycles, now, n), StateAt(s, period, cycles, now, n + 1), log.event.value.key;
      && Fits(t, cycles[n])
      && (n > 0 ==> log in Queued(t, kernel))
      && (Missing(t, cycles[n], kernel, y, k) ==>
            (log in Queued(after, kernel) <==> Looks(cycles[n], kernel)[y].now - log.event.value.timestamp <= 10_000_000_000))
      && (!Missing(t, cycles[n], kernel, y, k) ==>
            var v := Verdicts(t, ResolutionGraceFor(period), cycles[n], kernel)[y];
            v == Held(k) || v == if Looks(cycles[n], kernel)[y].rendered then Offered(k) else Rejected)
    decreases n
  {
    hide JudgeAll, Where, Missing, FinishAll, Run1, Drained, Queued, OnlyAt, Verdicts, Timed;
    var grace, c := ResolutionGraceFor(period), cycles[0];
    if n == 0 {
      OnlyFits(s, c, kernel, log, y);
      MissingLogQueuedIff(s, period, c, kernel, log, y);
      VerdictIs(s, period, c, kernel, y);
      OnlyPlace(s, c, kernel, log, y);
      assert StateAt(s, period, cycles, now, 1) == Run1(s, grace, c);
    } else {
      WaitingLog(Run1(s, grace, c), period, cycles[1..], c.end, kernel, log, n - 1, y);
      if n == 1 {
        var y0: nat :| OnlyAt(s, c, kernel, log, y0) && InWait(s, c, kernel, log, y0);
        MissingLogQueuedIff(s, period, c, kernel, log, y0);
      }
    }
  }

  lemma OnlyFits(s: State, c: Cycle, kernel: bool, log: Log, y: nat)
    requires OnlyAt(s, c, kernel, log, y)
    ensures Fits(s, c)
  {
  }

  lemma OnlyPlace(s: State, c: Cycle, kernel: bool, log: Log, y: nat)
    requires OnlyAt(s, c, kernel, log, y) && y < |Drained(s, c, kernel)|
    ensures Drained(s, c, kernel)[y] == log
  {
  }

  /** Looking at this log closes connection `k`, if it is there. */
  predicate Closes(log: Log, look: Look, k: Key) {
    log.event.Some? && log.event.value.key == k && log.event.value.kind.Close? && look.report
  }

  /** A connection is closed after a drain if and only if it was before, or a log of the drain closes it. */
  lemma {:induction false} ClosedIff(conns: Connections, grace: int, logs: seq<Log>, looks: seq<Look>, k: Key)
    requires |logs| == |looks| && k in conns
    ensures var after := JudgeAll(conns, grace, logs, looks).0;
      k in after && (after[k].marked <==> conns[k].marked || exists i :: 0 <= i < |logs| && Closes(logs[i], looks[i], k))
  {
    if logs != [] {
      var n := |logs| - 1;
      ClosedIff(conns, grace, logs[..n], looks[..n], k);
      ClosedByLast(JudgeAll(conns, grace, logs[..n], looks[..n]).0, grace, logs[n], looks[n], k);
      assert forall i | 0 <= i < n :: logs[..n][i] == logs[i] && looks[..n][i] == looks[i];
      assert (exists i :: 0 <= i < |logs| && Closes(logs[i], looks[i], k))
        <==> Closes(logs[n], looks[n], k) || exists i :: 0 <= i < n && Closes(logs[..n][i], looks[..n][i], k);
    }
  }

  lemma ClosedByLast(conns: Connections, grace: int, log: Log, look: Look, k: Key)
    requires k in conns
    ensures var after := Judge(conns, grace, log, look).0;
      k in after && (after[k].marked <==> conns[k].marked || Closes(log, look, k))
  {
  }

  /** A reported close event whose connection is not missing closes it, and the cycle gives it a deletion time, 25 seconds
      after its end unless it has one. */
  lemma ClosedGetsTime(s: State, period: int, c: Cycle, kernel: bool, y: nat, k: Key)
    requires Fits(s, c) && y < |Drained(s, c, kernel)| && Closes(Drained(s, c, kernel)[y], Looks(c, kernel)[y], k)
    requires !Missing(s, c, kernel, y, k)
    ensures var after := Run1(s, ResolutionGraceFor(period), c).conns;
      k in after ==>
        && after[k].marked
        && after[k].deleteAfter == if k in s.conns && s.conns[k].deleteAfter.Some? then s.conns[k].deleteAfter else Some(c.end + 25_000_000_000)
  {
    hide JudgeAll, Where;
    var grace, logs, looks := ResolutionGraceFor(period), Drained(s, c, kernel), Looks(c, kernel);
    var mid := AfterKernels(s, grace, c).0;
    var conns := if kernel then s.conns else mid;
    ThereIff(s.conns, grace, Drained(s, c, true), c.kernelLooks, k);
    ThereIff(conns, grace, logs[..y], looks[..y], k);
    assert forall i | 0 <= i < y :: logs[..y][i] == logs[i] && looks[..y][i] == looks[i];
    ClosedByLast(JudgeAll(conns, grace, logs[..y], looks[..y]).0, grace, logs[y], looks[y], k);
    DrainTail(conns, grace, logs, looks, y);
    DrainKeeps(s.conns, grace, s.kernels + c.newKernels, c.kernelLooks);
    DrainKeeps(mid, grace, s.protocols + c.newProtocols, c.protocolLooks);
    if k !in s.conns {
      MadeWithoutDeletion(s, period, c, k);
    }
  }

  /** A closed connection stays until the first cycle that ends after its deletion time, and is gone after it. */
  lemma {:induction false} ClosedIsDeleted(s: State, period: int, cycles: seq<Cycle>, now: int, k: Key, j: nat, i: nat)
    requires ValidRun(s, period, cycles, now) && i <= j < |cycles| && k in s.conns && s.conns[k].marked && s.conns[k].deleteAfter.Some?
    requires (forall m | 0 <= m < j :: cycles[m].end <= s.conns[k].deleteAfter.value) && cycles[j].end > s.conns[k].deleteAfter.value
    ensures k in StateAt(s, period, cycles, now, i).conns && k !in StateAt(s, period, cycles, now, j + 1).conns
    decreases j
  {
    hide JudgeAll, Where, Timed;
    var c, grace := cycles[0], ResolutionGraceFor(period);
    DrainKeeps(s.conns, grace, s.kernels + c.newKernels, c.kernelLooks);
    DrainKeeps(AfterKernels(s, grace, c).0, grace, s.protocols + c.newProtocols, c.protocolLooks);
    var after := Run1(s, grace, c);
    if j > 0 {
      ClosedIsDeleted(after, period, cycles[1..], c.end, k, j - 1, if i > 0 then i - 1 else 0);
    } else {
      assert StateAt(s, period, cycles, now, 1) == after;
    }
  }

  /** No cycle of the run closes the connection or finds it gone. */
  ghost predicate StaysOpen(s: State, period: int, cycles: seq<Cycle>, now: int, k: Key)
    requires ValidRun(s, period, cycles, now)
    decreases |cycles|
  {
    cycles != [] ==>
      && k !in cycles[0].gone
      && (forall kernel, y: nat | y < |Drained(s, cycles[0], kernel)| && y < |Looks(cycles[0], kernel)| ::
            !Closes(Drained(s, cycles[0], kernel)[y], Looks(cycles[0], kernel)[y], k))
      && StaysOpen(Run1(s, ResolutionGraceFor(period), cycles[0]), period, cycles[1..], cycles[0].end, k)
  }

  /** Nothing else deletes a connection: as long as it stays open it is there, and gets no deletion time. */
  lemma {:induction false} OpenConnectionStays(s: State, period: int, cycles: seq<Cycle>, now: int, k: Key, i: nat)
    requires ValidRun(s, period, cycles, now) && i <= |cycles| && k in s.conns && !s.conns[k].marked && StaysOpen(s, period, cycles, now, k)
    ensures var t := StateAt(s, period, cycles, now, i);
      k in t.conns && !t.conns[k].marked && t.conns[k].deleteAfter == s.conns[k].deleteAfter
    decreases i
  {
    if i > 0 {
      OpenThroughCycle(s, period, cycles[0], k);
      OpenConnectionStays(Run1(s, ResolutionGraceFor(period), cycles[0]), period, cycles[1..], cycles[0].end, k, i - 1);
    }
  }

  lemma OpenThroughCycle(s: State, period: int, c: Cycle, k: Key)
    requires Fits(s, c) && k in s.conns && !s.conns[k].marked && k !in c.gone
    requires forall kernel, y: nat | y < |Drained(s, c, kernel)| && y < |Looks(c, kernel)| ::
      !Closes(Drained(s, c, kernel)[y], Looks(c, kernel)[y], k)
    ensures var after := Run1(s, ResolutionGraceFor(period), c).conns;
      k in after && !after[k].marked && after[k].deleteAfter == s.conns[k].deleteAfter
  {
    hide JudgeAll, Where;
    var grace := ResolutionGraceFor(period);
    var mid := AfterKernels(s, grace, c).0;
    DrainKeeps(s.conns, grace, s.kernels + c.newKernels, c.kernelLooks);
    DrainKeeps(mid, grace, s.protocols + c.newProtocols, c.protocolLooks);
    ClosedIff(s.conns, grace, Drained(s, c, true), Looks(c, true), k);
    ClosedIff(mid, grace, Drained(s, c, false), Looks(c, false), k);
  }
}
