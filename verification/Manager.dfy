/** The user-space side of process monitoring: the monitored processes, the kernel monitor map and cgroup
    allowlist that follow them, and the index of their addresses. */
module Manager {
  import opened Options
  import opened Seqs

  type Pid = int

  /** A detected process of a pid. `container` is there for Kubernetes processes; `included` is the answer of
      the monitor filter. */
  datatype Process = Process(container: Option<nat>, hosts: seq<string>, included: bool)

  datatype Notice = Monitoring(pid: Pid) | Removed(pid: Pid)

  function Included(ps: seq<Process>): (r: seq<Process>)
    ensures forall p :: p in r <==> p in ps && p.included
  {
    if ps == [] then [] else (if ps[0].included then [ps[0]] else []) + Included(ps[1..])
  }

  /** `r` is `ps` with exactly the included processes kept, in order. */
  ghost predicate KeepsIncluded(r: seq<Process>, ps: seq<Process>) {
    IsSelection(r, ps, (p: Process) => p.included)
  }

  lemma {:induction false} IncludedKeeps(ps: seq<Process>)
    ensures KeepsIncluded(Included(ps), ps)
  {
    hide Included, IsSelection;
    if ps == [] {
      SelectionOfNone((p: Process) => p.included);
      IncludedNone();
    } else {
      var n := |ps| - 1;
      IncludedKeeps(ps[..n]);
      IncludedLast(ps);
      SelectionMore(Included(ps[..n]), ps[..n], ps[n], (p: Process) => p.included);
      RightUnit(Included(ps[..n]));
      assert ps[..n] + [ps[n]] == ps;
    }
  }

  lemma IncludedNone()
    ensures Included([]) == []
  {
  }

  /** `p` alone if it is included. */
  function IfIncluded(p: Process): seq<Process> {
    if p.included then [p] else []
  }

  lemma IncludedFirst(ps: seq<Process>)
    requires ps != []
    ensures Included(ps) == IfIncluded(ps[0]) + Included(ps[1..])
  {
  }

  lemma {:induction false} IncludedLast(ps: seq<Process>)
    requires ps != []
    ensures var n := |ps| - 1; Included(ps) == Included(ps[..n]) + IfIncluded(ps[n])
  {
    hide Included, IfIncluded;
    var n := |ps| - 1;
    IncludedFirst(ps);
    IncludedNone();
    if n == 0 {
      assert ps[1..] == ps[..0] == [];
      RightUnit(IfIncluded(ps[0]));
      LeftUnit([], IfIncluded(ps[0]));
    } else {
      IncludedLast(ps[1..]);
      IncludedFirst(ps[..n]);
      assert ps[1..][..n - 1] == ps[..n][1..];
      Assoc(IfIncluded(ps[0]), Included(ps[..n][1..]), IfIncluded(ps[n]));
    }
  }

  /** The cgroups of the processes whose container the resolver knows. */
  function CgroupIds(ps: seq<Process>, resolver: map<nat, nat>): seq<nat> {
    if ps == [] then []
    else
      var c := ps[0].container;
      (if c.Some? && c.value in resolver then [resolver[c.value]] else []) + CgroupIds(ps[1..], resolver)
  }

  lemma {:induction false} CgroupIdsAre(ps: seq<Process>, resolver: map<nat, nat>, c: nat)
    ensures c in CgroupIds(ps, resolver) <==>
      exists p :: p in ps && p.container.Some? && p.container.value in resolver && resolver[p.container.value] == c
  {
    if ps != [] {
      CgroupIdsAre(ps[1..], resolver, c);
      assert forall p :: p in ps <==> p == ps[0] || p in ps[1..];
    }
  }

  ghost predicate Exposes(ps: seq<Process>, host: string) {
    exists p :: p in ps && host in p.hosts
  }

  function Only(when: bool, pid: Pid): set<Pid> {
    if when then {pid} else {}
  }

  /** The pids counted for a cgroup. */
  function Counted(allowed: map<nat, set<Pid>>, c: nat): set<Pid> {
    if c in allowed then allowed[c] else {}
  }

  ghost predicate InCgroup(monitoring: map<Pid, seq<Process>>, resolver: map<nat, nat>, p: Pid, c: nat) {
    p in monitoring && c in CgroupIds(monitoring[p], resolver)
  }

  /** No cgroup counts nobody, and only pids monitored in a cgroup are counted for it. */
  ghost predicate Backed(allowed: map<nat, set<Pid>>, monitoring: map<Pid, seq<Process>>, resolver: map<nat, nat>) {
    && (forall c | c in allowed :: allowed[c] != {})
    && (forall c, p | p in Counted(allowed, c) :: InCgroup(monitoring, resolver, p, c))
  }

  /** Every pid monitored in a cgroup is counted for it. */
  ghost predicate Full(allowed: map<nat, set<Pid>>, monitoring: map<Pid, seq<Process>>, resolver: map<nat, nat>) {
    forall c, p | InCgroup(monitoring, resolver, p, c) :: p in Counted(allowed, c)
  }

  /** The address index has exactly the hosts of monitored processes, each with a pid that exposes it. */
  ghost predicate Indexed(index: map<string, Pid>, monitoring: map<Pid, seq<Process>>) {
    && (forall p, h | p in monitoring && Exposes(monitoring[p], h) :: h in index)
    && (forall h | h in index :: index[h] in monitoring && Exposes(monitoring[index[h]], h))
  }

  /** `pid` was counted for `ids`, except those not counted before whose kernel write failed. */
  ghost predicate CountsAdded(was: map<nat, set<Pid>>, allowed: map<nat, set<Pid>>, pid: Pid, ids: seq<nat>, failing: set<nat>) {
    && (forall c :: Counted(allowed, c) == Counted(was, c) + Only(c in ids && (c in was || c !in failing), pid))
    && (forall c :: c in allowed <==> c in was || (c in ids && c !in failing))
  }

  /** `pid` is no longer counted for `ids`, and of these none that counts nobody is left. */
  ghost predicate CountsTaken(was: map<nat, set<Pid>>, allowed: map<nat, set<Pid>>, pid: Pid, ids: seq<nat>) {
    && (forall c :: Counted(allowed, c) == Counted(was, c) - Only(c in ids, pid))
    && (forall c | c in allowed :: c in was && (c in ids ==> allowed[c] != {}))
  }

  /** A pid that is counted although it is not monitored stays counted. */
  ghost predicate StrayKept(was: map<nat, set<Pid>>, allowed: map<nat, set<Pid>>, monitoring: map<Pid, seq<Process>>) {
    forall c, p | p in Counted(was, c) && p !in monitoring :: p in Counted(allowed, c)
  }

  lemma AddedKeepsStray(was: map<nat, set<Pid>>, allowed: map<nat, set<Pid>>, monitoring: map<Pid, seq<Process>>,
                        pid: Pid, ids: seq<nat>, failing: set<nat>)
    requires CountsAdded(was, allowed, pid, ids, failing)
    ensures StrayKept(was, allowed, monitoring)
  {
  }

  lemma TakenKeepsStray(was: map<nat, set<Pid>>, allowed: map<nat, set<Pid>>, monitoring: map<Pid, seq<Process>>,
                        pid: Pid, resolver: map<nat, nat>)
    requires CountsTaken(was, allowed, pid, CgroupIds(if pid in monitoring then monitoring[pid] else [], resolver))
    ensures StrayKept(was, allowed, monitoring)
  {
    NoCgroups(resolver);
    hide CgroupIds;
  }

  ghost predicate HostsAdded(was: map<string, Pid>, index: map<string, Pid>, pid: Pid, ps: seq<Process>) {
    && (forall h :: h in index <==> h in was || Exposes(ps, h))
    && (forall h | h in index :: index[h] == if Exposes(ps, h) then pid else was[h])
  }

  lemma AddedBacked(was: map<nat, set<Pid>>, allowed: map<nat, set<Pid>>, monitoring: map<Pid, seq<Process>>,
                    resolver: map<nat, nat>, pid: Pid, ps: seq<Process>, failing: set<nat>)
    requires Backed(was, monitoring, resolver) && pid !in monitoring
    requires CountsAdded(was, allowed, pid, CgroupIds(ps, resolver), failing)
    ensures Backed(allowed, monitoring[pid := ps], resolver)
    ensures Full(was, monitoring, resolver) && failing == {} ==> Full(allowed, monitoring[pid := ps], resolver)
  {
    hide CgroupIds;
    AddedSomebody(was, allowed, pid, CgroupIds(ps, resolver), failing);
  }

  lemma AddedSomebody(was: map<nat, set<Pid>>, allowed: map<nat, set<Pid>>, pid: Pid, ids: seq<nat>, failing: set<nat>)
    requires (forall c | c in was :: was[c] != {}) && CountsAdded(was, allowed, pid, ids, failing)
    ensures forall c | c in allowed :: allowed[c] != {}
  {
    forall c | c in allowed ensures allowed[c] != {} {
      assert Counted(allowed, c) == allowed[c];
      if c in was {
        assert Counted(was, c) == was[c] != {};
      }
    }
  }

  lemma TakenBacked(was: map<nat, set<Pid>>, allowed: map<nat, set<Pid>>, monitoring: map<Pid, seq<Process>>,
                    resolver: map<nat, nat>, pid: Pid)
    requires Backed(was, monitoring, resolver)
    requires CountsTaken(was, allowed, pid, CgroupIds(if pid in monitoring then monitoring[pid] else [], resolver))
    ensures Backed(allowed, monitoring - {pid}, resolver)
    ensures Full(was, monitoring, resolver) ==> Full(allowed, monitoring - {pid}, resolver)
  {
    NoCgroups(resolver);
    hide CgroupIds;
    forall c | c in allowed ensures allowed[c] != {} {
      assert Counted(allowed, c) == allowed[c] && Counted(was, c) == was[c];
    }
  }

  lemma AddedIndexed(was: map<string, Pid>, index: map<string, Pid>, monitoring: map<Pid, seq<Process>>, pid: Pid, ps: seq<Process>)
    requires Indexed(was, monitoring) && pid !in monitoring && HostsAdded(was, index, pid, ps)
    ensures Indexed(index, monitoring[pid := ps])
  {
    hide Exposes;
  }

  class ConnectionManager {
    const resolver: map<nat, nat>
    var monitoringProcesses: map<Pid, seq<Process>>
    var allowedCgroups: map<nat, set<Pid>>
    var localIPWithPid: map<string, Pid>
    var processMonitorMap: set<Pid>
    var processNotMonitorMap: set<Pid>
    var cgroupAllowlistMap: set<nat>
    var notices: seq<Notice>

    /** What adding, removing and reconciling keep: the kernel allowlist has exactly the counted cgroups, and the
        address index exactly the hosts of monitored processes. */
    ghost predicate Valid()
      reads this
    {
      && cgroupAllowlistMap == allowedCgroups.Keys
      && (forall p | p in monitoringProcesses :: monitoringProcesses[p] != [])
      && Indexed(localIPWithPid, monitoringProcesses)
    }

    /** What adding and removing keep: no cgroup counts nobody, and only pids monitored in it are counted. */
    ghost predicate SoundlyCounted()
      reads this
    {
      Backed(allowedCgroups, monitoringProcesses, resolver)
    }

    /** The same, and all of those pids are counted. */
    ghost predicate FullyCounted()
      reads this
    {
      SoundlyCounted() && Full(allowedCgroups, monitoringProcesses, resolver)
    }

    constructor (resolver: map<nat, nat>)
      ensures Valid() && FullyCounted() && monitoringProcesses == map[] && this.resolver == resolver
      ensures processMonitorMap == {} && processNotMonitorMap == {} && cgroupAllowlistMap == {} && notices == []
    {
      this.resolver, monitoringProcesses, allowedCgroups, localIPWithPid := resolver, map[], map[], map[];
      processMonitorMap, processNotMonitorMap, cgroupAllowlistMap, notices := {}, {}, {}, [];
    }

    /** Counts a pid for its cgroups; a cgroup not yet counted is first allowed in the kernel, and skipped when
        that write fails. */
    method AllowCgroupsOfProcesses(pid: Pid, processes: seq<Process>, failing: set<nat>)
      requires cgroupAllowlistMap == allowedCgroups.Keys
      modifies this`allowedCgroups, this`cgroupAllowlistMap
      ensures cgroupAllowlistMap == allowedCgroups.Keys
      ensures CountsAdded(old(allowedCgroups), allowedCgroups, pid, CgroupIds(processes, resolver), failing)
    {
      hide CgroupIds;
      var ids := CgroupIds(processes, resolver);
      for i := 0 to |ids|
        invariant cgroupAllowlistMap == allowedCgroups.Keys
        invariant CountsAdded(old(allowedCgroups), allowedCgroups, pid, ids[..i], failing)
      {
        var id := ids[i];
        assert ids[..i + 1] == ids[..i] + [id];
        if id in allowedCgroups {
          allowedCgroups := allowedCgroups[id := allowedCgroups[id] + {pid}];
        } else if id !in failing {
          cgroupAllowlistMap := cgroupAllowlistMap + {id};
          allowedCgroups := allowedCgroups[id := {pid}];
        }
      }
      assert ids[..|ids|] == ids;
    }

    /** Stops counting a pid; a cgroup with nobody left is disallowed. */
    method DisallowCgroupsOfProcesses(pid: Pid, processes: seq<Process>)
      requires cgroupAllowlistMap == allowedCgroups.Keys
      modifies this`allowedCgroups, this`cgroupAllowlistMap
      ensures cgroupAllowlistMap == allowedCgroups.Keys
      ensures CountsTaken(old(allowedCgroups), allowedCgroups, pid, CgroupIds(processes, resolver))
    {
      hide CgroupIds;
      var ids := CgroupIds(processes, resolver);
      for i := 0 to |ids|
        invariant cgroupAllowlistMap == allowedCgroups.Keys
        invariant CountsTaken(old(allowedCgroups), allowedCgroups, pid, ids[..i])
      {
        var id := ids[i];
        assert ids[..i + 1] == ids[..i] + [id];
        if id in allowedCgroups {
          var pids := allowedCgroups[id] - {pid};
          if pids != {} {
            allowedCgroups := allowedCgroups[id := pids];
          } else {
            allowedCgroups := allowedCgroups - {id};
            cgroupAllowlistMap := cgroupAllowlistMap - {id};
          }
        }
      }
      assert ids[..|ids|] == ids;
    }

    method UpdateMonitorStatus(pid: Pid, monitor: bool)
      modifies this`processMonitorMap
      ensures processMonitorMap == if monitor then old(processMonitorMap) + {pid} else old(processMonitorMap) - {pid}
    {
      processMonitorMap := if monitor then processMonitorMap + {pid} else processMonitorMap - {pid};
    }

    /** A process goes: its cgroups stop counting it, its addresses leave the index. */
    method RemoveProcess(pid: Pid)
      requires Valid()
      modifies this`monitoringProcesses, this`allowedCgroups, this`cgroupAllowlistMap, this`localIPWithPid,
               this`processMonitorMap, this`notices
      ensures Valid() && (old(SoundlyCounted()) ==> SoundlyCounted()) && (old(FullyCounted()) ==> FullyCounted())
      ensures StrayKept(old(allowedCgroups), allowedCgroups, old(monitoringProcesses))
      ensures monitoringProcesses == old(monitoringProcesses) - {pid}
      ensures processMonitorMap == old(processMonitorMap) - {pid}
      ensures notices == old(notices) + [Removed(pid)]
    {
      hide CgroupIds, CountsTaken, Backed, Full, Indexed, StrayKept;
      var processes := if pid in monitoringProcesses then monitoringProcesses[pid] else [];
      DisallowCgroupsOfProcesses(pid, processes);
      TakenKeepsStray(old(allowedCgroups), allowedCgroups, monitoringProcesses, pid, resolver);
      if old(SoundlyCounted()) {
        TakenBacked(old(allowedCgroups), allowedCgroups, monitoringProcesses, resolver, pid);
      }
      monitoringProcesses := monitoringProcesses - {pid};
      UpdateMonitorStatus(pid, false);
      RebuildLocalIPWithPID();
      notices := notices + [Removed(pid)];
    }

    /** A process arrives. If the filter leaves nothing of it, it is removed instead; if its pid is monitored
        already, nothing changes. `failing` are the cgroups the kernel refuses to allow. */
    method AddNewProcess(pid: Pid, entities: seq<Process>, failing: set<nat>)
      requires Valid()
      modifies this`monitoringProcesses, this`allowedCgroups, this`cgroupAllowlistMap, this`localIPWithPid,
               this`processMonitorMap, this`notices
      ensures Valid() && (old(SoundlyCounted()) ==> SoundlyCounted()) && (old(FullyCounted()) && failing == {} ==> FullyCounted())
      ensures StrayKept(old(allowedCgroups), allowedCgroups, old(monitoringProcesses))
      ensures Included(entities) == [] ==>
        && monitoringProcesses == old(monitoringProcesses) - {pid} && processMonitorMap == old(processMonitorMap) - {pid}
        && notices == old(notices) + [Removed(pid)]
      ensures Included(entities) != [] && pid in old(monitoringProcesses) ==> unchanged(this)
      ensures Included(entities) != [] && pid !in old(monitoringProcesses) ==>
        && monitoringProcesses == old(monitoringProcesses)[pid := Included(entities)]
        && processMonitorMap == old(processMonitorMap) + {pid} && notices == old(notices) + [Monitoring(pid)]
        && KeepsIncluded(monitoringProcesses[pid], entities)
    {
      IncludedKeeps(entities);
      hide CgroupIds, Included, KeepsIncluded, Backed, Full, Indexed;
      var monitorProcesses := Included(entities);
      if |monitorProcesses| == 0 {
        RemoveProcess(pid);
        return;
      }
      if pid in monitoringProcesses {
        return;
      }
      StartMonitoring(pid, monitorProcesses, failing);
    }

    method StartMonitoring(pid: Pid, processes: seq<Process>, failing: set<nat>)
      requires Valid() && pid !in monitoringProcesses && processes != []
      modifies this`monitoringProcesses, this`allowedCgroups, this`cgroupAllowlistMap, this`localIPWithPid,
               this`processMonitorMap, this`notices
      ensures Valid() && (old(SoundlyCounted()) ==> SoundlyCounted()) && (old(FullyCounted()) && failing == {} ==> FullyCounted())
      ensures StrayKept(old(allowedCgroups), allowedCgroups, old(monitoringProcesses))
      ensures monitoringProcesses == old(monitoringProcesses)[pid := processes]
      ensures processMonitorMap == old(processMonitorMap) + {pid} && notices == old(notices) + [Monitoring(pid)]
    {
      hide CgroupIds, CountsAdded, HostsAdded, Backed, Full, Indexed, StrayKept;
      monitoringProcesses := monitoringProcesses[pid := processes];
      UpdateMonitorStatus(pid, true);
      AllowCgroupsOfProcesses(pid, processes, failing);
      AddedKeepsStray(old(allowedCgroups), allowedCgroups, old(monitoringProcesses), pid, CgroupIds(processes, resolver), failing);
      if old(SoundlyCounted()) {
        AddedBacked(old(allowedCgroups), allowedCgroups, old(monitoringProcesses), resolver, pid, processes, failing);
      }
      AddHosts(pid);
      AddedIndexed(old(localIPWithPid), localIPWithPid, old(monitoringProcesses), pid, processes);
      notices := notices + [Monitoring(pid)];
    }

    /** The kernel reported a process and marked it. One that is not accepted loses the mark, and is rejected in
        the kernel only if it could still be looked at. */
    method OnNewProcessExecuting(pid: Pid, accepted: bool, exists_: bool)
      modifies this`processMonitorMap, this`processNotMonitorMap
      ensures accepted ==> unchanged(this)
      ensures !accepted ==> processMonitorMap == old(processMonitorMap) - {pid}
      ensures !accepted && exists_ ==> processNotMonitorMap == old(processNotMonitorMap) + {pid}
      ensures !exists_ ==> processNotMonitorMap == old(processNotMonitorMap)
    {
      if accepted {
        return;
      }
      UpdateMonitorStatus(pid, false);
      if !exists_ {
        return;
      }
      processNotMonitorMap := processNotMonitorMap + {pid};
    }

    /** The periodic reconciliation: the filtered processes become the monitored ones, the kernel monitor map
        is made to agree, and listeners hear exactly of the pids that left it and of those that joined it. The counts
        stay as they are, so they are still exact exactly when no pid changes the cgroups it is monitored in. */
    method RecheckAllProcesses(processes: map<Pid, seq<Process>>)
      requires Valid()
      modifies this`monitoringProcesses, this`localIPWithPid, this`processMonitorMap, this`notices
      ensures Valid() && monitoringProcesses == Monitored(processes) && processMonitorMap == monitoringProcesses.Keys
      ensures forall pid :: pid in monitoringProcesses <==> pid in processes && exists p :: p in processes[pid] && p.included
      ensures forall pid | pid in monitoringProcesses :: pid in processes && KeepsIncluded(monitoringProcesses[pid], processes[pid])
      ensures old(FullyCounted()) ==>
        (FullyCounted() <==> SameCgroups(old(monitoringProcesses), monitoringProcesses, resolver))
      ensures exists gone: seq<Pid>, come: seq<Pid> ::
        && notices == old(notices) + Told(gone, come)
        && Lists(gone, old(processMonitorMap) - monitoringProcesses.Keys)
        && Lists(come, monitoringProcesses.Keys - old(processMonitorMap))
    {
      hide Told, KeepsIncluded, Lists, Notices, Monitored, Indexed, Backed, Full, SameCgroups;
      monitoringProcesses := Monitored(processes);
      var processInBPF := processMonitorMap;
      var gone := UpdateAll(processInBPF - monitoringProcesses.Keys, false);
      var come := UpdateAll(monitoringProcesses.Keys - processInBPF, true);
      Assoc(old(notices), Notices(gone, false), Notices(come, true));
      RebuildLocalIPWithPID();
      MonitoredAre(processes);
      ToldIs(gone, come);
      if old(FullyCounted()) {
        CountsAfterRecheck(allowedCgroups, old(monitoringProcesses), monitoringProcesses, resolver);
      }
    }

    /** With exact counts a cgroup is allowed in the kernel exactly while some monitored pid is in it. */
    lemma AllowedWhileMonitored(c: nat)
      requires Valid() && FullyCounted()
      ensures c in cgroupAllowlistMap <==> exists p :: InCgroup(monitoringProcesses, resolver, p, c)
    {
      SomeMember(Counted(allowedCgroups, c));
      if c in allowedCgroups {
        var p :| p in Counted(allowedCgroups, c);
        assert InCgroup(monitoringProcesses, resolver, p, c);
      }
    }

    /** Updates the kernel map for each pid of a set, in some order, and notifies of each once. */
    method UpdateAll(pids: set<Pid>, monitor: bool) returns (order: seq<Pid>)
      modifies this`processMonitorMap, this`notices
      ensures Lists(order, pids) && notices == old(notices) + Notices(order, monitor)
      ensures processMonitorMap == if monitor then old(processMonitorMap) + pids else old(processMonitorMap) - pids
    {
      order := [];
      var todo := pids;
      while todo != {}
        invariant todo <= pids && Lists(order, pids - todo) && notices == old(notices) + Notices(order, monitor)
        invariant processMonitorMap ==
          if monitor then old(processMonitorMap) + (pids - todo) else old(processMonitorMap) - (pids - todo)
        decreases todo
      {
        SomeMember(todo);
        var pid :| pid in todo;
        UpdateMonitorStatus(pid, monitor);
        notices := notices + [if monitor then Monitoring(pid) else Removed(pid)];
        NoticesLast(order, pid, monitor);
        order, todo := order + [pid], todo - {pid};
      }
    }

    method RebuildLocalIPWithPID()
      modifies this`localIPWithPid
      ensures Indexed(localIPWithPid, monitoringProcesses)
    {
      localIPWithPid := map[];
      var todo := monitoringProcesses.Keys;
      while todo != {}
        invariant todo <= monitoringProcesses.Keys
        invariant forall p, h | p in monitoringProcesses && p !in todo && Exposes(monitoringProcesses[p], h) :: h in localIPWithPid
        invariant forall h | h in localIPWithPid ::
          localIPWithPid[h] in monitoringProcesses && Exposes(monitoringProcesses[localIPWithPid[h]], h)
        decreases todo
      {
        SomeMember(todo);
        var pid :| pid in todo;
        AddHosts(pid);
        todo := todo - {pid};
      }
    }

    /** Points every host of a monitored pid at it. */
    method AddHosts(pid: Pid)
      requires pid in monitoringProcesses
      modifies this`localIPWithPid
      ensures HostsAdded(old(localIPWithPid), localIPWithPid, pid, monitoringProcesses[pid])
    {
      var ps := monitoringProcesses[pid];
      for i := 0 to |ps|
        invariant HostsAdded(old(localIPWithPid), localIPWithPid, pid, ps[..i])
      {
        ghost var was := localIPWithPid;
        for j := 0 to |ps[i].hosts|
          invariant forall h :: h in localIPWithPid <==> h in was || h in ps[i].hosts[..j]
          invariant forall h | h in localIPWithPid :: localIPWithPid[h] == if h in ps[i].hosts[..j] then pid else was[h]
        {
          localIPWithPid := localIPWithPid[ps[i].hosts[j] := pid];
        }
        ExposesMore(ps, i);
      }
      assert ps[..|ps|] == ps;
    }
  }

  /** The processes that the filter leaves something of. */
  function Monitored(processes: map<Pid, seq<Process>>): map<Pid, seq<Process>> {
    map p | p in processes && Included(processes[p]) != [] :: Included(processes[p])
  }

  lemma MonitoredAre(processes: map<Pid, seq<Process>>)
    ensures forall pid :: pid in Monitored(processes) <==> pid in processes && exists p :: p in processes[pid] && p.included
    ensures forall pid | pid in Monitored(processes) :: pid in processes && KeepsIncluded(Monitored(processes)[pid], processes[pid]) && Monitored(processes)[pid] != []
  {
    hide KeepsIncluded;
    forall pid | pid in processes
      ensures Included(processes[pid]) != [] <==> exists p :: p in processes[pid] && p.included
      ensures KeepsIncluded(Included(processes[pid]), processes[pid])
    {
      IncludedKeeps(processes[pid]);
      SomeIncluded(processes[pid]);
    }
  }

  lemma SomeIncluded(ps: seq<Process>)
    ensures Included(ps) != [] <==> exists p :: p in ps && p.included
  {
    if Included(ps) != [] {
      assert Included(ps)[0] in Included(ps);
    }
  }

  /** Removals of the pids that are gone and then arrivals of those that came. */
  function Told(gone: seq<Pid>, come: seq<Pid>): (r: seq<Notice>)
    ensures |r| == |gone| + |come|
    ensures forall i | 0 <= i < |gone| :: r[i] == Removed(gone[i])
    ensures forall i | 0 <= i < |come| :: r[|gone| + i] == Monitoring(come[i])
  {
    NoticesAre(gone, false);
    NoticesAre(come, true);
    Notices(gone, false) + Notices(come, true)
  }

  lemma ToldIs(gone: seq<Pid>, come: seq<Pid>)
    ensures Told(gone, come) == Notices(gone, false) + Notices(come, true)
  {
  }

  lemma {:induction false} NoticesAre(pids: seq<Pid>, monitor: bool)
    ensures |Notices(pids, monitor)| == |pids|
    ensures forall i | 0 <= i < |pids| :: Notices(pids, monitor)[i] == if monitor then Monitoring(pids[i]) else Removed(pids[i])
  {
    if pids != [] {
      NoticesAre(pids[..|pids| - 1], monitor);
    }
  }

  function Notices(pids: seq<Pid>, monitor: bool): seq<Notice> {
    if pids == [] then []
    else Notices(pids[..|pids| - 1], monitor) + [if monitor then Monitoring(pids[|pids| - 1]) else Removed(pids[|pids| - 1])]
  }

  lemma NoticesLast(pids: seq<Pid>, p: Pid, monitor: bool)
    ensures Notices(pids + [p], monitor) == Notices(pids, monitor) + [if monitor then Monitoring(p) else Removed(p)]
  {
    assert (pids + [p])[..|pids|] == pids;
  }

  /** `order` has each member of `s` exactly once. */
  ghost predicate Lists(order: seq<Pid>, s: set<Pid>) {
    (forall p :: p in order <==> p in s) && forall i, j | 0 <= i < j < |order| :: order[i] != order[j]
  }

  lemma NoCgroups(resolver: map<nat, nat>)
    ensures CgroupIds([], resolver) == []
  {
  }

  lemma ExposesMore(ps: seq<Process>, i: nat)
    requires i < |ps|
    ensures forall h :: Exposes(ps[..i + 1], h) <==> Exposes(ps[..i], h) || h in ps[i].hosts
    ensures ps[i].hosts[..|ps[i].hosts|] == ps[i].hosts
  {
    assert forall p :: p in ps[..i + 1] <==> p in ps[..i] || p == ps[i];
  }

  /** Every pid is monitored in the same cgroups as before. */
  ghost predicate SameCgroups(was: map<Pid, seq<Process>>, monitoring: map<Pid, seq<Process>>, resolver: map<nat, nat>) {
    forall p, c :: InCgroup(was, resolver, p, c) <==> InCgroup(monitoring, resolver, p, c)
  }

  lemma CountsAfterRecheck(allowed: map<nat, set<Pid>>, was: map<Pid, seq<Process>>, monitoring: map<Pid, seq<Process>>, resolver: map<nat, nat>)
    requires Backed(allowed, was, resolver) && Full(allowed, was, resolver)
    ensures Backed(allowed, monitoring, resolver) && Full(allowed, monitoring, resolver) <==> SameCgroups(was, monitoring, resolver)
  {
    hide InCgroup;
  }

  /** The counts do not always stay exact: a reconciliation that is the first to see a process does not count it. */
  method RecheckMissesNewProcess() returns (m: ConnectionManager)
    ensures m.Valid() && m.monitoringProcesses.Keys == {1} && m.cgroupAllowlistMap == {} && !m.FullyCounted()
  {
    hide CgroupIds, Included, Monitored, Indexed, Backed, Full, Lists, Notices, Told, KeepsIncluded, ConnectionManager.Valid;
    var resolver := map[3 := 30];
    var process := Process(Some(3), [], true);
    OneContainer(process, resolver);
    m := new ConnectionManager(resolver);
    m.RecheckAllProcesses(map[1 := [process]]);
    assert InCgroup(m.monitoringProcesses, resolver, 1, 30) && !InCgroup(map[], resolver, 1, 30);
  }

  /** And one that drops a process leaves it counted: its cgroup stays allowed with nobody monitored in it. */
  method RecheckStrandsCgroup() returns (m: ConnectionManager)
    ensures m.Valid() && m.monitoringProcesses == map[] && 30 in m.cgroupAllowlistMap
  {
    hide CgroupIds, Included, Monitored, Indexed, Backed, Full, Lists, Notices, Told, KeepsIncluded, ConnectionManager.Valid, StrayKept;
    var resolver := map[3 := 30];
    var process := Process(Some(3), [], true);
    OneContainer(process, resolver);
    m := new ConnectionManager(resolver);
    m.AddNewProcess(1, [process], {});
    m.AllowedWhileMonitored(30);
    assert InCgroup(m.monitoringProcesses, resolver, 1, 30);
    m.RecheckAllProcesses(map[]);
  }

  lemma OneContainer(process: Process, resolver: map<nat, nat>)
    requires process == Process(Some(3), [], true) && resolver == map[3 := 30]
    ensures Included([process]) == [process] && 30 in CgroupIds([process], resolver)
    ensures Monitored(map[1 := [process]]) == map[1 := [process]] && Monitored(map[]) == map[]
  {
    assert CgroupIds([process], resolver) == [30] + CgroupIds([], resolver);
  }
}
