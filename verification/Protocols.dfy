/** The protocol and TLS mode of a connection, and the downgrade to TCP when its data cannot be analyzed. The
    downgrade ("break") comes from the protocol analyzer, which may run before, during or after the building
    of the connection by the log runner. */
module Protocols {
  import opened Options

  const BREAK_KEEP_TIME: nat := 60_000_000_000

  datatype TlsMode = Plain | Tls
  datatype Protocol = TCP | HTTP1 | HTTP2

  /** What a socket detail says about the protocol. */
  datatype Detected = Unknown | Http | Http2 | Other

  datatype Connection = Connection(tls: TlsMode, protocol: Protocol, broken: bool)

  function OnDetail(c: Connection, ssl: bool, detected: Detected): Connection {
    var tls := if ssl && c.tls == Plain then Tls else c.tls;
    var analyzed :=
      if !c.broken && c.protocol == TCP then
        match detected
        case Http => HTTP1
        case Http2 => HTTP2
        case _ => c.protocol
      else c.protocol;
    c.(tls := tls, protocol := if c.broken && c.protocol != TCP then TCP else analyzed)
  }

  /** One connection key: the connection if it is built, the time at which a break that came first expires, the
      break flag the runner has read for a connection it is about to store, and whether the analyzer, about to
      record a break, saw the connection. */
  datatype State = State(connection: Option<Connection>, pending: Option<nat>, building: Option<bool>, breaking: Option<bool>, now: nat) {
    /** Whether a pending break can still be read. */
    predicate Alive() {
      pending.Some? && now < pending.value
    }
  }

  datatype Step = BuildRead | BuildStore | BreakLook | BreakAct | Detail(ssl: bool, detected: Detected) | Tick(elapsed: nat)

  predicate Enabled(s: State, step: Step) {
    match step
    case BuildRead => s.connection.None? && s.building.None?
    case BuildStore => s.building.Some?
    case BreakLook => s.breaking.None?
    case BreakAct => s.breaking.Some?
    case Detail(_, _) => s.connection.Some?
    case Tick(_) => true
  }

  function Next(s: State, step: Step): State
    requires Enabled(s, step)
  {
    match step
    case BuildRead => s.(building := Some(s.Alive()), pending := if s.Alive() then None else s.pending)
    case BuildStore => s.(building := None, connection := Some(Connection(Plain, TCP, s.building.value)))
    case BreakLook => s.(breaking := Some(s.connection.Some?))
    case BreakAct =>
      var t := s.(breaking := None);
      if !s.breaking.value then t.(pending := Some(s.now + BREAK_KEEP_TIME))
      else if s.connection.Some? then t.(connection := Some(s.connection.value.(broken := true)))
      else t
    case Detail(ssl, detected) => s.(connection := Some(OnDetail(s.connection.value, ssl, detected)))
    case Tick(elapsed) => s.(now := s.now + elapsed)
  }

  const INITIAL: State := State(None, None, None, None, 0)

  /** A run from the initial state: the states it goes through. */
  ghost predicate Run(states: seq<State>, steps: seq<Step>) {
    && |states| == |steps| + 1 && states[0] == INITIAL
    && forall i | 0 <= i < |steps| :: Enabled(states[i], steps[i]) && states[i + 1] == Next(states[i], steps[i])
  }

  /** What every state of a run satisfies: a connection is not built twice, and one that was seen is there. */
  ghost predicate Consistent(s: State) {
    && (s.building.Some? ==> s.connection.None?)
    && (s.breaking == Some(true) ==> s.connection.Some?)
  }

  lemma {:induction false} RunConsistent(states: seq<State>, steps: seq<Step>, i: nat)
    requires Run(states, steps) && i < |states|
    ensures Consistent(states[i])
  {
    if i > 0 {
      RunConsistent(states, steps, i - 1);
      assert Enabled(states[i - 1], steps[i - 1]) && states[i] == Next(states[i - 1], steps[i - 1]);
    }
  }

  /** How a connection may change in one step: it stays built, TLS stays TLS, broken stays broken, and the protocol
      changes only from TCP to another one while unbroken, or back to TCP while broken. */
  ghost predicate Evolves(c: Connection, d: Connection) {
    && (c.tls == Tls ==> d.tls == Tls)
    && (c.broken ==> d.broken)
    && (c.protocol == d.protocol || (c.protocol == TCP && !c.broken) || (d.protocol == TCP && c.broken))
  }

  lemma StepEvolves(states: seq<State>, steps: seq<Step>, i: nat)
    requires Run(states, steps) && i < |steps| && states[i].connection.Some?
    ensures states[i + 1].connection.Some? && Evolves(states[i].connection.value, states[i + 1].connection.value)
  {
    RunConsistent(states, steps, i);
    assert Enabled(states[i], steps[i]) && states[i + 1] == Next(states[i], steps[i]);
  }

  /** Once built, always built; once TLS, always TLS; once broken, always broken. */
  lemma {:induction false} Lasting(states: seq<State>, steps: seq<Step>, i: nat, j: nat)
    requires Run(states, steps) && i <= j < |states| && states[i].connection.Some?
    ensures states[j].connection.Some?
    ensures states[i].connection.value.tls == Tls ==> states[j].connection.value.tls == Tls
    ensures states[i].connection.value.broken ==> states[j].connection.value.broken
    decreases j
  {
    if i < j {
      Lasting(states, steps, i, j - 1);
      StepEvolves(states, steps, j - 1);
    }
  }

  /** A broken connection at TCP stays at TCP. */
  lemma {:induction false} BrokenAtTcp(states: seq<State>, steps: seq<Step>, i: nat, j: nat)
    requires Run(states, steps) && i <= j < |states| && states[i].connection.Some?
    requires states[i].connection.value.broken && states[i].connection.value.protocol == TCP
    ensures states[j].connection.Some? && states[j].connection.value.broken && states[j].connection.value.protocol == TCP
    decreases j
  {
    if i < j {
      BrokenAtTcp(states, steps, i, j - 1);
      StepEvolves(states, steps, j - 1);
    }
  }

  /** From the first detail after the break on, a broken connection is at TCP. */
  lemma BrokenFromNextDetail(states: seq<State>, steps: seq<Step>, i: nat, j: nat)
    requires Run(states, steps) && i < j < |states| && states[i].connection.Some? && states[i].connection.value.broken
    requires steps[i].Detail?
    ensures states[j].connection.Some? && states[j].connection.value.broken && states[j].connection.value.protocol == TCP
  {
    assert states[i + 1] == Next(states[i], steps[i]);
    BrokenAtTcp(states, steps, i + 1, j);
  }

  /** A protocol other than TCP is the only one the connection ever has besides TCP, and never comes back after
      TCP has come back: the history has the shape TCP, X, TCP. */
  lemma ProtocolHistory(states: seq<State>, steps: seq<Step>, i: nat, j: nat, k: nat)
    requires Run(states, steps) && i <= j <= k < |states| && states[i].connection.Some?
    ensures states[j].connection.Some? && states[k].connection.Some?
    ensures var p, q, r := states[i].connection.value.protocol, states[j].connection.value.protocol, states[k].connection.value.protocol;
      && (p != TCP && q != TCP ==> p == q)
      && (p != TCP && q == TCP ==> r == TCP)
  {
    Lasting(states, steps, i, j);
    Lasting(states, steps, i, k);
    if states[i].connection.value.protocol != TCP {
      Onward(states, steps, i, j);
      if states[j].connection.value.protocol == TCP {
        BrokenAtTcp(states, steps, j, k);
      }
    }
  }

  /** Away from TCP, the protocol stays, or the connection is broken and back at TCP. */
  lemma {:induction false} Onward(states: seq<State>, steps: seq<Step>, i: nat, j: nat)
    requires Run(states, steps) && i <= j < |states| && states[i].connection.Some?
    requires states[i].connection.value.protocol != TCP
    ensures states[j].connection.Some?
    ensures var c := states[j].connection.value;
      c.protocol == states[i].connection.value.protocol || (c.protocol == TCP && c.broken)
    decreases j
  {
    if i < j {
      Onward(states, steps, i, j - 1);
      StepEvolves(states, steps, j - 1);
    }
  }

  /** In every run a connection is TLS if and only if some detail of it had ssl. */
  lemma {:induction false} TlsIff(states: seq<State>, steps: seq<Step>, j: nat)
    requires Run(states, steps) && j < |states|
    ensures states[j].connection.Some? ==>
      (states[j].connection.value.tls == Tls <==> exists i :: 0 <= i < j && steps[i].Detail? && steps[i].ssl)
    ensures states[j].connection.None? ==> forall i | 0 <= i < j :: !steps[i].Detail?
  {
    if j > 0 {
      TlsIff(states, steps, j - 1);
      RunConsistent(states, steps, j - 1);
      assert Enabled(states[j - 1], steps[j - 1]) && states[j] == Next(states[j - 1], steps[j - 1]);
    }
  }

  /** A detail that detects a protocol. */
  predicate Detects(step: Step) {
    step.Detail? && (step.detected == Http || step.detected == Http2)
  }

  /** In every run an unbroken connection is at TCP if no detail detected a protocol, and else has the protocol of the
      first one that did. */
  lemma {:induction false} ProtocolIsFirstDetected(states: seq<State>, steps: seq<Step>, j: nat)
    requires Run(states, steps) && j < |states| && states[j].connection.Some? && !states[j].connection.value.broken
    ensures (forall i | 0 <= i < j :: !Detects(steps[i])) ==> states[j].connection.value.protocol == TCP
    ensures forall i | 0 <= i < j && Detects(steps[i]) && forall m | 0 <= m < i :: !Detects(steps[m]) ::
      states[j].connection.value.protocol == if steps[i].detected == Http then HTTP1 else HTTP2
  {
    if j > 0 {
      RunConsistent(states, steps, j - 1);
      TlsIff(states, steps, j - 1);
      assert Enabled(states[j - 1], steps[j - 1]) && states[j] == Next(states[j - 1], steps[j - 1]);
      if states[j - 1].connection.Some? {
        StepEvolves(states, steps, j - 1);
        ProtocolIsFirstDetected(states, steps, j - 1);
      }
    }
  }

  /** A break recorded before its connection can be read for one minute. */
  lemma BreakKeptOneMinute(s: State, elapsed: nat)
    requires Enabled(s, BreakAct) && !s.breaking.value
    ensures Next(Next(s, BreakAct), Tick(elapsed)).Alive() <==> elapsed < 60_000_000_000
  {
  }

  /** A break is kept: by the connection, by the flag the runner has read, or pending for a connection to come. */
  ghost predicate Kept(s: State) {
    if s.connection.Some? then s.connection.value.broken
    else if s.building.Some? then s.building.value
    else s.Alive()
  }

  /** Recording a break keeps it exactly when the connection was seen, or is neither being built nor built by now. */
  lemma BreakKeptIff(s: State)
    requires Consistent(s) && Enabled(s, BreakAct) && !Kept(s)
    ensures Kept(Next(s, BreakAct)) <==> s.breaking.value || (s.connection.None? && s.building.None?)
  {
  }

  /** No step but the passing of time, before the connection is built, drops a break. */
  lemma KeptNext(s: State, step: Step)
    requires Consistent(s) && Enabled(s, step) && Kept(s)
    ensures Kept(Next(s, step)) || (step.Tick? && s.connection.None? && s.building.None? && !Next(s, step).Alive())
  {
  }

  /** A break that is not kept stays without effect until another one is recorded. */
  lemma NotKeptNext(s: State, step: Step)
    requires Consistent(s) && Enabled(s, step) && !Kept(s) && !step.BreakAct?
    ensures !Kept(Next(s, step))
  {
  }

  /** A kept break that does not expire before the connection is built is on the connection from the start. */
  lemma {:induction false} KeptIsApplied(states: seq<State>, steps: seq<Step>, i: nat, j: nat)
    requires Run(states, steps) && i <= j < |states| && Kept(states[i])
    requires forall k | i <= k <= j && states[k].connection.None? && states[k].building.None? :: states[k].Alive()
    ensures Kept(states[j])
    ensures states[j].connection.Some? ==> states[j].connection.value.broken
    decreases j
  {
    if i < j {
      KeptIsApplied(states, steps, i, j - 1);
      RunConsistent(states, steps, j - 1);
      assert Enabled(states[j - 1], steps[j - 1]) && states[j] == Next(states[j - 1], steps[j - 1]);
      KeptNext(states[j - 1], steps[j - 1]);
    }
  }

  /** A lost break is lost for good, unless another one follows. */
  lemma {:induction false} LostStaysLost(states: seq<State>, steps: seq<Step>, i: nat, j: nat)
    requires Run(states, steps) && i <= j < |states| && !Kept(states[i])
    requires forall k | i <= k < j :: !steps[k].BreakAct?
    ensures !Kept(states[j])
    decreases j
  {
    if i < j {
      LostStaysLost(states, steps, i, j - 1);
      RunConsistent(states, steps, j - 1);
      assert Enabled(states[j - 1], steps[j - 1]) && states[j] == Next(states[j - 1], steps[j - 1]);
      NotKeptNext(states[j - 1], steps[j - 1]);
    }
  }

  /** A break that falls between the runner's reading of the pending breaks and its storing of the connection is lost:
      the connection goes on as HTTP. */
  lemma BreakDuringBuildLost() returns (states: seq<State>, steps: seq<Step>)
    ensures Run(states, steps) && BreakAct in steps
    ensures states[|states| - 1].connection == Some(Connection(Plain, HTTP1, false))
  {
    steps := [BuildRead, BreakLook, BreakAct, BuildStore, Detail(false, Http)];
    var s1 := Next(INITIAL, steps[0]);
    var s2 := Next(s1, steps[1]);
    var s3 := Next(s2, steps[2]);
    var s4 := Next(s3, steps[3]);
    states := [INITIAL, s1, s2, s3, s4, Next(s4, steps[4])];
    assert steps[2] == BreakAct;
  }

  datatype Key = Key(connectionId: nat, randomId: nat)

  /** The manager's tables. A call of one of the methods runs without the other coming in between. */
  class Tables {
    var connections: map<Key, Connection>
    var breaks: map<Key, nat>

    constructor ()
      ensures forall key, now :: At(key, now) == INITIAL.(now := now)
    {
      connections, breaks := map[], map[];
    }

    ghost function At(key: Key, now: nat): State
      reads this
    {
      State(if key in connections then Some(connections[key]) else None,
            if key in breaks then Some(breaks[key]) else None, None, None, now)
    }

    /** An event that can build the connection of its key. */
    method BuildConnection(key: Key, now: nat)
      requires key !in connections
      modifies this
      ensures At(key, now) == Next(Next(old(At(key, now)), BuildRead), BuildStore)
      ensures key in connections && connections[key] == Connection(Plain, TCP, old(key in breaks && now < breaks[key]))
      ensures !At(key, now).Alive()
      ensures forall other | other != key :: At(other, now) == old(At(other, now))
    {
      var protocolBreak := false;
      if key in breaks && now < breaks[key] {
        protocolBreak := true;
        breaks := breaks - {key};
      }
      connections := connections[key := Connection(Plain, TCP, protocolBreak)];
    }

    method ConnectionPostHandle(key: Key, ssl: bool, detected: Detected, now: nat)
      requires key in connections
      modifies this
      ensures At(key, now) == Next(old(At(key, now)), Detail(ssl, detected))
      ensures forall other | other != key :: At(other, now) == old(At(other, now))
    {
      var connection := connections[key];
      var tlsMode, protocol := connection.tls, connection.protocol;
      if ssl && connection.tls == Plain {
        tlsMode := Tls;
      }
      if !connection.broken && detected != Unknown && connection.protocol == TCP {
        match detected
        case Http => protocol := HTTP1;
        case Http2 => protocol := HTTP2;
        case _ =>
      }
      if connection.broken && connection.protocol != TCP {
        protocol := TCP;
      }
      connections := connections[key := Connection(tlsMode, protocol, connection.broken)];
    }

    /** A break by itself is always kept. */
    method SkipAllDataAnalyzeAndDowngradeProtocol(key: Key, now: nat)
      modifies this
      ensures At(key, now) == Next(Next(old(At(key, now)), BreakLook), BreakAct) && Kept(At(key, now))
      ensures forall other | other != key :: At(other, now) == old(At(other, now))
    {
      if key in connections {
        connections := connections[key := connections[key].(broken := true)];
      } else {
        breaks := breaks[key := now + BREAK_KEEP_TIME];
      }
    }
  }
}
