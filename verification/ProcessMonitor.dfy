/** The kernel side of process monitoring: the fork and exec tracepoints over the shared maps, and what
    holds over every run of forks, execs, exits and user-space map writes.

    The maps themselves hold only flags. Here each entry also carries the generation of the task it was
    written for, so that "an entry of an earlier owner of this pid" can be said; no step looks at it. */
module ProcessMonitor {

  type Pid = nat
  type Gen = nat

  /** A live task. A process is the task whose pid is its own tgid; `gen` is never used twice. */
  datatype Task = Task(tgid: Pid, gen: Gen, cgroup: nat)

  /** One event on the execute queue. */
  datatype Report = Report(pid: Pid, cgroup: nat, gen: Gen)

  /** The BPF maps and the queue. */
  datatype Maps = Maps(monitor: map<Pid, Gen>, rejected: map<Pid, Gen>, allowed: set<nat>, cgroupFilter: bool,
                       reports: seq<Report>)

  /** What `report_running_process` does for the process `p`, whose task is `t`. */
  function ReportRunning(m: Maps, p: Pid, t: Task): Maps {
    if m.cgroupFilter && t.cgroup !in m.allowed then m
    else if !m.cgroupFilter && p in m.rejected then m
    else if p in m.monitor then m
    else m.(monitor := m.monitor[p := t.gen],
            reports := m.reports + [Report(p, if m.cgroupFilter then t.cgroup else 0, t.gen)])
  }

  /** The entries of a pid that was just handed out go. */
  function Reclaim(m: Maps, child: Pid): Maps {
    m.(monitor := m.monitor - {child}, rejected := m.rejected - {child})
  }

  class Probe {
    var processMonitorControl: map<Pid, Gen>
    var processNotMonitor: map<Pid, Gen>
    var cgroupMonitorAllowlist: set<nat>
    var cgroupFilterEnabled: bool
    var processExecuteQueue: seq<Report>

    ghost function Contents(): Maps
      reads this
    {
      Maps(processMonitorControl, processNotMonitor, cgroupMonitorAllowlist, cgroupFilterEnabled, processExecuteQueue)
    }

    method ReportRunningProcess(tgid: Pid, gen: Gen, cgroup: nat)
      modifies this
      ensures Contents() == ReportRunning(old(Contents()), tgid, Task(tgid, gen, cgroup))
    {
      var cgroupId := 0;
      if cgroupFilterEnabled {
        cgroupId := cgroup;
        if cgroupId !in cgroupMonitorAllowlist {
          return;
        }
      } else {
        if tgid in processNotMonitor {
          return;
        }
      }
      if tgid in processMonitorControl {
        return;
      }
      processMonitorControl := processMonitorControl[tgid := gen];
      processExecuteQueue := processExecuteQueue + [Report(tgid, cgroupId, gen)];
    }

    method TracepointExec(tgid: Pid, gen: Gen, cgroup: nat)
      modifies this
      ensures Contents() == ReportRunning(old(Contents()), tgid, Task(tgid, gen, cgroup))
    {
      ReportRunningProcess(tgid, gen, cgroup);
    }

    method TracepointFork(childPid: Pid, tgid: Pid, gen: Gen, cgroup: nat)
      modifies this
      ensures Contents() == ReportRunning(Reclaim(old(Contents()), childPid), tgid, Task(tgid, gen, cgroup))
    {
      processMonitorControl := processMonitorControl - {childPid};
      processNotMonitor := processNotMonitor - {childPid};
      ReportRunningProcess(tgid, gen, cgroup);
    }
  }

  /** The system: the live tasks, the next generation, the maps, and the generations whose monitor entry
      user space took away. */
  datatype System = System(live: map<Pid, Task>, nextGen: Gen, maps: Maps, unmarked: seq<Gen>)

  /** `Fork` makes a task `child`, a thread of the parent's process or a new process. `Exec` of a task ends
      the other threads of its process. A process keeps its pid until its last thread is gone. `Mark`,
      `Unmark` and `Reject` are user-space map writes about the generation they name. */
  datatype Step =
    | Fork(parent: Pid, child: Pid, thread: bool)
    | Exec(pid: Pid)
    | Exit(pid: Pid)
    | Move(pid: Pid, cgroup: nat)
    | Mark(pid: Pid, gen: Gen)
    | Unmark(pid: Pid)
    | Reject(pid: Pid, gen: Gen)
    | Allow(cgroup: nat)
    | Disallow(cgroup: nat)

  /** What the kernel allows: live pids are unique, a group leader exits last. */
  ghost predicate Possible(s: System, step: Step) {
    match step
    case Fork(parent, child, _) => parent in s.live && child !in s.live
    case Exec(p) => p in s.live
    case Exit(p) => p in s.live && forall q | q in s.live && q != p :: s.live[q].tgid != p
    case Move(p, _) => p in s.live
    case _ => true
  }

  /** User space writes about the task that has the pid now, or about one that is gone with its pid free. */
  ghost predicate Timely(s: System, step: Step) {
    match step
    case Mark(p, g) => p in s.live ==> s.live[p].gen == g
    case Reject(p, g) => p in s.live ==> s.live[p].gen == g
    case _ => true
  }

  function Next(s: System, step: Step): System
    requires Possible(s, step)
    requires Consistent(s)
  {
    match step
    case Fork(parent, child, thread) =>
      var t := s.live[parent];
      var task := Task(if thread then t.tgid else child, s.nextGen, t.cgroup);
      s.(live := s.live[child := task], nextGen := s.nextGen + 1,
         maps := ReportRunning(Reclaim(s.maps, child), t.tgid, s.live[t.tgid].(cgroup := t.cgroup)))
    case Exec(p) =>
      var t := s.live[p];
      var live := map q | q in s.live && (q == t.tgid || s.live[q].tgid != t.tgid) :: s.live[q];
      s.(live := live, maps := ReportRunning(s.maps, t.tgid, s.live[t.tgid].(cgroup := t.cgroup)))
    case Exit(p) => s.(live := s.live - {p})
    case Move(p, c) => s.(live := s.live[p := s.live[p].(cgroup := c)])
    case Mark(p, g) => s.(maps := s.maps.(monitor := s.maps.monitor[p := g]))
    case Unmark(p) =>
      if p !in s.maps.monitor then s
      else s.(maps := s.maps.(monitor := s.maps.monitor - {p}), unmarked := s.unmarked + [s.maps.monitor[p]])
    case Reject(p, g) => s.(maps := s.maps.(rejected := s.maps.rejected[p := g]))
    case Allow(c) => s.(maps := s.maps.(allowed := s.maps.allowed + {c}))
    case Disallow(c) => s.(maps := s.maps.(allowed := s.maps.allowed - {c}))
  }

  /** Every task has a live leader, and generations are unique. */
  ghost predicate Consistent(s: System) {
    && (forall p | p in s.live :: s.live[p].tgid in s.live && s.live[s.live[p].tgid].tgid == s.live[p].tgid)
    && (forall p | p in s.live :: s.live[p].gen < s.nextGen)
    && (forall p, q | p in s.live && q in s.live && p != q :: s.live[p].gen != s.live[q].gen)
  }

  /** No live task has an entry that was written for an earlier owner of its pid. */
  ghost predicate NoStaleEntry(s: System) {
    && (forall p | p in s.maps.monitor && p in s.live :: s.maps.monitor[p] == s.live[p].gen)
    && (forall p | p in s.maps.rejected && p in s.live :: s.maps.rejected[p] == s.live[p].gen)
  }

  lemma ConsistentNext(s: System, step: Step)
    requires Consistent(s) && Possible(s, step)
    ensures Consistent(Next(s, step))
  {
    hide ReportRunning, Reclaim;
    match step
    case Fork(parent, child, thread) => ForkConsistent(s, parent, child, thread);
    case Exec(p) => ExecConsistent(s, p);
    case Exit(p) => ExitConsistent(s, p);
    case Move(p, c) => MoveConsistent(s, p, c);
    case _ =>
  }

  lemma ForkConsistent(s: System, parent: Pid, child: Pid, thread: bool)
    requires Consistent(s) && Possible(s, Fork(parent, child, thread))
    ensures Consistent(Next(s, Fork(parent, child, thread)))
  {
    hide ReportRunning, Reclaim;
    var s' := Next(s, Fork(parent, child, thread));
    assert forall q | q in s.live :: q in s'.live && s'.live[q] == s.live[q];
  }

  lemma ExitConsistent(s: System, p: Pid)
    requires Consistent(s) && Possible(s, Exit(p))
    ensures Consistent(Next(s, Exit(p)))
  {
    var s' := Next(s, Exit(p));
    assert forall q | q in s'.live :: q in s.live && s'.live[q] == s.live[q];
  }

  lemma MoveConsistent(s: System, p: Pid, c: nat)
    requires Consistent(s) && p in s.live
    ensures Consistent(Next(s, Move(p, c)))
  {
    var s' := Next(s, Move(p, c));
    assert forall q | q in s'.live :: q in s.live && s'.live[q].tgid == s.live[q].tgid && s'.live[q].gen == s.live[q].gen;
  }

  lemma ExecConsistent(s: System, p: Pid)
    requires Consistent(s) && p in s.live
    ensures Consistent(Next(s, Exec(p)))
  {
    hide ReportRunning;
    var s' := Next(s, Exec(p));
    forall q | q in s'.live ensures s'.live[q].tgid in s'.live && s'.live[s'.live[q].tgid].tgid == s'.live[q].tgid {
      assert s'.live[q] == s.live[q];
    }
  }

  /** No step leaves a live task with an entry of an earlier owner. */
  lemma NoStaleNext(s: System, step: Step)
    requires Consistent(s) && Possible(s, step) && Timely(s, step) && NoStaleEntry(s)
    ensures NoStaleEntry(Next(s, step))
  {
    hide ReportRunning;
    match step
    case Fork(parent, child, thread) => ForkNoStale(s, parent, child, thread);
    case Exec(p) => ReportNoStale(s, s.live[p].tgid, s.live[p].cgroup);
    case Exit(_) =>
    case Move(_, _) =>
    case _ =>
  }

  lemma ReportNoStale(s: System, p: Pid, cgroup: nat)
    requires NoStaleEntry(s) && p in s.live
    ensures NoStaleEntry(s.(maps := ReportRunning(s.maps, p, s.live[p].(cgroup := cgroup))))
  {
  }

  lemma ForkNoStale(s: System, parent: Pid, child: Pid, thread: bool)
    requires Consistent(s) && Possible(s, Fork(parent, child, thread)) && NoStaleEntry(s)
    ensures NoStaleEntry(Next(s, Fork(parent, child, thread)))
  {
    hide ReportRunning;
    var t := s.live[parent];
    var task := Task(if thread then t.tgid else child, s.nextGen, t.cgroup);
    var mid := s.(live := s.live[child := task], nextGen := s.nextGen + 1, maps := Reclaim(s.maps, child));
    assert NoStaleEntry(mid);
    ReportNoStale(mid, t.tgid, t.cgroup);
    assert Next(s, Fork(parent, child, thread)) == mid.(maps := ReportRunning(mid.maps, t.tgid, mid.live[t.tgid].(cgroup := t.cgroup)));
  }

  /** A user-space write that is not timely leaves such an entry at once. */
  lemma LateIsStale(s: System, step: Step)
    requires Consistent(s) && Possible(s, step) && !Timely(s, step)
    ensures !NoStaleEntry(Next(s, step))
  {
    var p, g := step.pid, step.gen;
    assert s.maps.monitor[p := g][p] == g && s.maps.rejected[p := g][p] == g;
  }

  function CountReports(rs: seq<Report>, g: Gen): nat {
    if rs == [] then 0 else CountReports(rs[..|rs| - 1], g) + if rs[|rs| - 1].gen == g then 1 else 0
  }

  function Count(gs: seq<Gen>, g: Gen): nat {
    if gs == [] then 0 else Count(gs[..|gs| - 1], g) + if gs[|gs| - 1] == g then 1 else 0
  }

  lemma CountLast(rs: seq<Report>, r: Report, g: Gen)
    ensures CountReports(rs + [r], g) == CountReports(rs, g) + if r.gen == g then 1 else 0
  {
    assert (rs + [r])[..|rs|] == rs;
  }

  lemma CountUnmarked(gs: seq<Gen>, x: Gen, g: Gen)
    ensures Count(gs + [x], g) == Count(gs, g) + if x == g then 1 else 0
  {
    assert (gs + [x])[..|gs|] == gs;
  }

  ghost predicate Known(rs: seq<Report>, g: Gen) {
    forall r | r in rs :: r.gen < g
  }

  /** A generation is reported at most once more than it was unmarked; a live one without a monitor entry
      not even that. */
  ghost predicate Budget(s: System) {
    && Known(s.maps.reports, s.nextGen)
    && (forall g :: CountReports(s.maps.reports, g) <= Count(s.unmarked, g) + 1)
    && (forall p | p in s.live && p !in s.maps.monitor ::
          CountReports(s.maps.reports, s.live[p].gen) <= Count(s.unmarked, s.live[p].gen))
  }

  lemma {:induction false} UnknownNotReported(rs: seq<Report>, g: Gen)
    requires Known(rs, g)
    ensures CountReports(rs, g) == 0
  {
    if rs != [] {
      var n := |rs| - 1;
      assert rs[n] in rs;
      UnknownNotReported(rs[..n], g);
    }
  }

  /** Reporting a live process spends its budget. */
  lemma ReportBudget(s: System, p: Pid, cgroup: nat)
    requires Consistent(s) && Budget(s) && p in s.live
    ensures Budget(s.(maps := ReportRunning(s.maps, p, s.live[p].(cgroup := cgroup))))
  {
    var m, m' := s.maps, ReportRunning(s.maps, p, s.live[p].(cgroup := cgroup));
    if m' != m {
      var r := m'.reports[|m.reports|];
      assert m'.reports == m.reports + [r] && r.gen == s.live[p].gen;
      forall g ensures CountReports(m'.reports, g) == CountReports(m.reports, g) + if r.gen == g then 1 else 0 {
        CountLast(m.reports, r, g);
      }
    }
  }

  lemma ReclaimBudget(s: System, child: Pid, task: Task)
    requires Consistent(s) && NoStaleEntry(s) && Budget(s) && child !in s.live && task.gen == s.nextGen
    ensures Budget(s.(live := s.live[child := task], nextGen := s.nextGen + 1, maps := Reclaim(s.maps, child)))
  {
    UnknownNotReported(s.maps.reports, s.nextGen);
  }

  lemma UnmarkBudget(s: System, p: Pid)
    requires Consistent(s) && NoStaleEntry(s) && Budget(s)
    ensures Budget(Next(s, Unmark(p)))
  {
    if p in s.maps.monitor {
      forall g ensures Count(s.unmarked + [s.maps.monitor[p]], g) == Count(s.unmarked, g) + if s.maps.monitor[p] == g then 1 else 0 {
        CountUnmarked(s.unmarked, s.maps.monitor[p], g);
      }
    }
  }

  lemma BudgetNext(s: System, step: Step)
    requires Consistent(s) && Possible(s, step) && NoStaleEntry(s) && Budget(s)
    ensures Budget(Next(s, step))
  {
    hide CountReports, Count, Consistent, NoStaleEntry;
    match step
    case Fork(parent, child, thread) => ForkBudget(s, parent, child, thread);
    case Exec(p) => ExecBudget(s, p);
    case Exit(_) =>
    case Move(_, _) =>
    case Unmark(p) => UnmarkBudget(s, p);
    case _ =>
  }

  lemma ForkBudget(s: System, parent: Pid, child: Pid, thread: bool)
    requires Consistent(s) && Possible(s, Fork(parent, child, thread)) && NoStaleEntry(s) && Budget(s)
    ensures Budget(Next(s, Fork(parent, child, thread)))
  {
    hide Budget, ReportRunning, NoStaleEntry;
    var t := s.live[parent];
    var task := Task(if thread then t.tgid else child, s.nextGen, t.cgroup);
    ReclaimBudget(s, child, task);
    var mid := s.(live := s.live[child := task], nextGen := s.nextGen + 1, maps := Reclaim(s.maps, child));
    ForkConsistent(s, parent, child, thread);
    assert Consistent(mid);
    ReportBudget(mid, t.tgid, t.cgroup);
    assert Next(s, Fork(parent, child, thread)) == mid.(maps := ReportRunning(mid.maps, t.tgid, mid.live[t.tgid].(cgroup := t.cgroup)));
  }

  lemma ExecBudget(s: System, p: Pid)
    requires Consistent(s) && p in s.live && Budget(s)
    ensures Budget(Next(s, Exec(p)))
  {
    hide ReportRunning, CountReports, Count;
    var t := s.live[p];
    ReportBudget(s, t.tgid, t.cgroup);
    var next := s.(maps := ReportRunning(s.maps, t.tgid, s.live[t.tgid].(cgroup := t.cgroup)));
    assert forall q | q in Next(s, Exec(p)).live :: q in next.live && Next(s, Exec(p)).live[q] == next.live[q];
  }

  /** A run from `s`: each step is possible where it is taken. */
  ghost predicate Run(s: System, steps: seq<Step>)
    requires Consistent(s)
    decreases |steps|
  {
    steps != [] ==> Possible(s, steps[0]) && (ConsistentNext(s, steps[0]); Run(Next(s, steps[0]), steps[1..]))
  }

  ghost function After(s: System, steps: seq<Step>): (t: System)
    requires Consistent(s) && Run(s, steps)
    ensures Consistent(t)
    decreases |steps|
  {
    if steps == [] then s else (ConsistentNext(s, steps[0]); After(Next(s, steps[0]), steps[1..]))
  }

  /** Every user-space write of the run is timely. */
  ghost predicate AllTimely(s: System, steps: seq<Step>)
    requires Consistent(s) && Run(s, steps)
    decreases |steps|
  {
    steps != [] ==> Timely(s, steps[0]) && (ConsistentNext(s, steps[0]); AllTimely(Next(s, steps[0]), steps[1..]))
  }

  /** No state of the run has a live task with an entry of an earlier owner. */
  ghost predicate NeverStale(s: System, steps: seq<Step>)
    requires Consistent(s) && Run(s, steps)
    decreases |steps|
  {
    NoStaleEntry(s) && (steps != [] ==> (ConsistentNext(s, steps[0]); NeverStale(Next(s, steps[0]), steps[1..])))
  }

  /** A run never has such an entry if and only if every user-space write in it is timely. */
  lemma {:induction false} NeverStaleIff(s: System, steps: seq<Step>)
    requires Consistent(s) && Run(s, steps) && NoStaleEntry(s)
    ensures NeverStale(s, steps) <==> AllTimely(s, steps)
    decreases |steps|
  {
    if steps != [] {
      hide NoStaleEntry, Next, Possible, Timely, Consistent;
      ConsistentNext(s, steps[0]);
      if Timely(s, steps[0]) {
        NoStaleNext(s, steps[0]);
        NeverStaleIff(Next(s, steps[0]), steps[1..]);
      } else {
        LateIsStale(s, steps[0]);
      }
    }
  }

  /** At boot: no entry, no report, any consistent set of tasks. */
  ghost predicate Boot(s: System) {
    Consistent(s) && s.maps.monitor == s.maps.rejected == map[] && s.maps.reports == [] && s.unmarked == []
  }

  lemma {:induction false} RunKeeps(s: System, steps: seq<Step>)
    requires Consistent(s) && Run(s, steps) && AllTimely(s, steps) && NoStaleEntry(s) && Budget(s)
    ensures NoStaleEntry(After(s, steps)) && Budget(After(s, steps))
    decreases |steps|
  {
    if steps != [] {
      hide Budget, NoStaleEntry, Next, Possible, Timely, Consistent;
      ConsistentNext(s, steps[0]);
      NoStaleNext(s, steps[0]);
      BudgetNext(s, steps[0]);
      RunKeeps(Next(s, steps[0]), steps[1..]);
    }
  }

  /** Over every run from boot with timely writes, no live task is filtered or traced by an entry written for an earlier
      owner of its pid, and each generation is reported at most once more than user space took its mark away. */
  lemma EveryRun(s: System, steps: seq<Step>, g: Gen)
    requires Boot(s) && Run(s, steps) && AllTimely(s, steps)
    ensures NoStaleEntry(After(s, steps))
    ensures CountReports(After(s, steps).maps.reports, g) <= 1 + Count(After(s, steps).unmarked, g)
  {
    RunKeeps(s, steps);
  }

  /** In the fallback mode a live process with a rejection is never reported again in its life. */
  lemma {:induction false} RejectedStaysSilent(s: System, steps: seq<Step>, p: Pid, g: Gen)
    requires Consistent(s) && Run(s, steps) && !s.maps.cgroupFilter && g < s.nextGen
    requires Silent(s, p, g)
    ensures CountReports(After(s, steps).maps.reports, g) == CountReports(s.maps.reports, g)
    decreases |steps|
  {
    if steps != [] {
      ConsistentNext(s, steps[0]);
      SilentNext(s, steps[0], p, g);
      RejectedStaysSilent(Next(s, steps[0]), steps[1..], p, g);
    }
  }

  /** Generation `g` belongs to no live task, or to the task of `p`, which is rejected. */
  ghost predicate Silent(s: System, p: Pid, g: Gen) {
    forall q | q in s.live && s.live[q].gen == g :: q == p && p in s.maps.rejected
  }

  lemma SilentNext(s: System, step: Step, p: Pid, g: Gen)
    requires Consistent(s) && Possible(s, step) && !s.maps.cgroupFilter && g < s.nextGen && Silent(s, p, g)
    ensures Silent(Next(s, step), p, g) && !Next(s, step).maps.cgroupFilter && g < Next(s, step).nextGen
    ensures CountReports(Next(s, step).maps.reports, g) == CountReports(s.maps.reports, g)
  {
    hide CountReports, NoStaleEntry, ReportRunning;
    match step
    case Fork(parent, child, thread) => ForkSilent(s, parent, child, thread, p, g);
    case Exec(q) =>
      ReportSilent(s.maps, s.live[q].tgid, s.live[s.live[q].tgid].(cgroup := s.live[q].cgroup), g);
    case _ =>
  }

  lemma ForkSilent(s: System, parent: Pid, child: Pid, thread: bool, p: Pid, g: Gen)
    requires Consistent(s) && Possible(s, Fork(parent, child, thread)) && !s.maps.cgroupFilter && g < s.nextGen && Silent(s, p, g)
    ensures var s' := Next(s, Fork(parent, child, thread));
      Silent(s', p, g) && !s'.maps.cgroupFilter && CountReports(s'.maps.reports, g) == CountReports(s.maps.reports, g)
  {
    hide CountReports, ReportRunning;
    var t := s.live[parent];
    ReportSilent(Reclaim(s.maps, child), t.tgid, s.live[t.tgid].(cgroup := t.cgroup), g);
  }

  lemma ReportSilent(m: Maps, p: Pid, t: Task, g: Gen)
    requires !m.cgroupFilter && (t.gen == g ==> p in m.rejected)
    ensures var m' := ReportRunning(m, p, t);
      CountReports(m'.reports, g) == CountReports(m.reports, g) && m'.rejected == m.rejected && !m'.cgroupFilter
  {
    CountLast(m.reports, Report(p, 0, t.gen), g);
  }

  /** The task that forks or execs in this step; its process is looked at. */
  ghost predicate LooksAt(s: System, step: Step, t: Task) {
    match step
    case Fork(parent, _, _) => parent in s.live && t == s.live[parent]
    case Exec(p) => p in s.live && t == s.live[p]
    case _ => false
  }

  /** Whether the process of this task is let through: by the allowlist in cgroup mode, unless rejected otherwise. */
  ghost predicate LetThrough(s: System, t: Task) {
    if s.maps.cgroupFilter then t.cgroup in s.maps.allowed else t.tgid !in s.maps.rejected
  }

  /** The report of the process of this task: in cgroup mode with the cgroup the task has. */
  ghost function ReportOf(s: System, t: Task): Report
    requires t.tgid in s.live
  {
    Report(t.tgid, if s.maps.cgroupFilter then t.cgroup else 0, s.live[t.tgid].gen)
  }

  /** A fork or exec by a task whose process is let through leaves the process marked, with exactly one more report if it
      was not marked; a process that is not let through is neither reported nor marked. */
  lemma LookedAtIff(s: System, step: Step, t: Task)
    requires Consistent(s) && Possible(s, step) && LooksAt(s, step, t)
    ensures t.tgid in s.live
    ensures var after := Next(s, step).maps;
      && after.reports == s.maps.reports + (if LetThrough(s, t) && t.tgid !in s.maps.monitor then [ReportOf(s, t)] else [])
      && (t.tgid in after.monitor <==> t.tgid in s.maps.monitor || LetThrough(s, t))
  {
    assert t.tgid in s.live;
  }

  /** No other step reports anything. */
  lemma OthersReportNothing(s: System, step: Step)
    requires Consistent(s) && Possible(s, step) && forall t :: !LooksAt(s, step, t)
    ensures Next(s, step).maps.reports == s.maps.reports
  {
    match step
    case Fork(parent, _, _) => assert LooksAt(s, step, s.live[parent]);
    case Exec(p) => assert LooksAt(s, step, s.live[p]);
    case _ =>
  }

  /** The report is made by this step: for a task that forks or execs, let through then, and not marked. */
  ghost predicate MadeBy(s: System, step: Step, r: Report) {
    exists t :: LooksAt(s, step, t) && t.tgid in s.live && LetThrough(s, t) && t.tgid !in s.maps.monitor && r == ReportOf(s, t)
  }

  ghost predicate MadeInRun(s: System, steps: seq<Step>, r: Report)
    requires Consistent(s) && Run(s, steps)
    decreases |steps|
  {
    steps != [] && (MadeBy(s, steps[0], r) || (ConsistentNext(s, steps[0]); MadeInRun(Next(s, steps[0]), steps[1..], r)))
  }

  /** Over every run: exactly the reports of processes let through, by the allowlist or unrejected, when they forked or
      exec'd unmarked, are added to the queue. */
  lemma {:induction false} ReportedIff(s: System, steps: seq<Step>, r: Report)
    requires Consistent(s) && Run(s, steps)
    ensures r in After(s, steps).maps.reports <==> r in s.maps.reports || MadeInRun(s, steps, r)
    decreases |steps|
  {
    if steps != [] {
      hide Next, Possible, Consistent, MadeBy;
      ConsistentNext(s, steps[0]);
      ReportedIff(Next(s, steps[0]), steps[1..], r);
      ReportedByStep(s, steps[0], r);
    }
  }

  lemma ReportedByStep(s: System, step: Step, r: Report)
    requires Consistent(s) && Possible(s, step)
    ensures r in Next(s, step).maps.reports <==> r in s.maps.reports || MadeBy(s, step, r)
  {
    hide Next, Possible, Consistent, LetThrough, ReportOf;
    if t :| LooksAt(s, step, t) {
      LookedAtIff(s, step, t);
    } else {
      OthersReportNothing(s, step);
    }
  }

  /** One step in front of a run. */
  lemma RunCons(s: System, step: Step, rest: seq<Step>)
    requires Consistent(s) && Possible(s, step)
    ensures Consistent(Next(s, step)) && (Run(s, [step] + rest) <==> Run(Next(s, step), rest))
    ensures Run(s, [step] + rest) ==>
      && After(s, [step] + rest) == After(Next(s, step), rest)
      && (AllTimely(s, [step] + rest) <==> Timely(s, step) && AllTimely(Next(s, step), rest))
  {
    hide Next, Possible, Timely, Consistent;
    ConsistentNext(s, step);
    assert ([step] + rest)[1..] == rest;
  }

  /** `s` takes one possible step to `t`. */
  ghost predicate Steps(s: System, step: Step, t: System) {
    Consistent(s) && Possible(s, step) && Next(s, step) == t
  }

  lemma RunConsTo(s: System, step: Step, t: System, rest: seq<Step>)
    requires Steps(s, step, t) && Consistent(t) && Run(t, rest)
    ensures Consistent(s) && Run(s, [step] + rest) && After(s, [step] + rest) == After(t, rest)
    ensures AllTimely(s, [step] + rest) <==> Timely(s, step) && AllTimely(t, rest)
  {
    hide Next, Possible, Timely, Consistent, Run, After, AllTimely;
    RunCons(s, step, rest);
  }

  /** A system of process 1 alone, and one of processes 1 and 7. */
  ghost function One(next: Gen, maps: Maps): System {
    System(map[1 := Task(1, 0, 0)], next, maps, [])
  }

  ghost function Two(g: Gen, next: Gen, maps: Maps): System {
    System(map[1 := Task(1, 0, 0), 7 := Task(7, g, 0)], next, maps, [])
  }

  lemma OneForks(next: Gen, maps: Maps)
    requires next > 0
    ensures Steps(One(next, maps), Fork(1, 7, false), Two(next, next + 1, ReportRunning(Reclaim(maps, 7), 1, Task(1, 0, 0))))
  {
    hide ReportRunning, Reclaim;
  }

  lemma TwoConsistent(g: Gen, next: Gen, maps: Maps)
    requires 0 < g < next
    ensures Consistent(Two(g, next, maps))
  {
    var live := Two(g, next, maps).live;
    assert forall p | p in live :: p == 1 || p == 7;
  }

  lemma TwoExecs(g: Gen, next: Gen, maps: Maps)
    requires 0 < g < next
    ensures Steps(Two(g, next, maps), Exec(7), Two(g, next, ReportRunning(maps, 7, Task(7, g, 0))))
  {
    hide ReportRunning, Consistent;
    TwoConsistent(g, next, maps);
    assert Next(Two(g, next, maps), Exec(7)).live == Two(g, next, maps).live;
  }

  lemma TwoExits(g: Gen, next: Gen, maps: Maps)
    requires 0 < g < next
    ensures Steps(Two(g, next, maps), Exit(7), One(next, maps))
  {
    hide Consistent;
    TwoConsistent(g, next, maps);
    var live := Two(g, next, maps).live;
    assert live[1].tgid == 1 && forall p | p in live :: p == 1 || p == 7;
    assert live - {7} == One(next, maps).live;
  }

  // The maps while pid 7 becomes a reported process, becomes free, goes to a new process, and then with and without a
  // rejection of the first process.
  const EMPTY: Maps := Maps(map[], map[], {}, false, [])
  const FORKED: Maps := Maps(map[1 := 0], map[], {}, false, [Report(1, 0, 0)])
  const REPORTED: Maps := Maps(map[1 := 0, 7 := 1], map[], {}, false, [Report(1, 0, 0), Report(7, 0, 1)])
  const REUSED: Maps := Maps(map[1 := 0], map[], {}, false, [Report(1, 0, 0), Report(7, 0, 1)])
  const REJECTED: Maps := Maps(map[1 := 0], map[7 := 1], {}, false, [Report(1, 0, 0), Report(7, 0, 1)])
  const HEARD: Maps := Maps(map[1 := 0, 7 := 2], map[], {}, false, [Report(1, 0, 0), Report(7, 0, 1), Report(7, 0, 2)])

  lemma MapsOf()
    ensures ReportRunning(Reclaim(EMPTY, 7), 1, Task(1, 0, 0)) == FORKED
    ensures ReportRunning(FORKED, 7, Task(7, 1, 0)) == REPORTED
    ensures ReportRunning(Reclaim(REPORTED, 7), 1, Task(1, 0, 0)) == REUSED
    ensures ReportRunning(REUSED, 7, Task(7, 2, 0)) == HEARD && ReportRunning(REJECTED, 7, Task(7, 2, 0)) == REJECTED
    ensures REUSED.(rejected := REUSED.rejected[7 := 1]) == REJECTED
  {
    assert EMPTY.monitor - {7} == EMPTY.monitor && EMPTY.rejected - {7} == EMPTY.rejected;
    assert REPORTED.monitor - {7} == REUSED.monitor && REPORTED.rejected - {7} == REUSED.rejected;
  }

  lemma LateReject()
    ensures Steps(Two(2, 3, REUSED), Reject(7, 1), Two(2, 3, REJECTED)) && !Timely(Two(2, 3, REUSED), Reject(7, 1))
    ensures Timely(Two(2, 3, REUSED), Exec(7)) && Boot(One(1, EMPTY)) && Consistent(One(1, EMPTY))
  {
    hide Consistent, ReportRunning, Reclaim;
    TwoConsistent(2, 3, REUSED);
    OneForks(1, EMPTY);
    MapsOf();
  }

  lemma FourSteps(s0: System, s1: System, s2: System, s3: System, s4: System, a: Step, b: Step, c: Step, d: Step, rest: seq<Step>)
    requires Steps(s0, a, s1) && Steps(s1, b, s2) && Steps(s2, c, s3) && Steps(s3, d, s4) && Consistent(s4) && Run(s4, rest)
    ensures var steps := [a] + ([b] + ([c] + ([d] + rest)));
      && Consistent(s0) && Run(s0, steps) && After(s0, steps) == After(s4, rest)
      && (AllTimely(s0, steps) <==> Timely(s0, a) && Timely(s1, b) && Timely(s2, c) && Timely(s3, d) && AllTimely(s4, rest))
  {
    hide *;
    RunConsTo(s3, d, s4, rest);
    StepFrom(s3, d, s4);
    RunConsTo(s2, c, s3, [d] + rest);
    StepFrom(s2, c, s3);
    RunConsTo(s1, b, s2, [c] + ([d] + rest));
    StepFrom(s1, b, s2);
    RunConsTo(s0, a, s1, [b] + ([c] + ([d] + rest)));
  }

  lemma StepFrom(s: System, step: Step, t: System)
    requires Steps(s, step, t)
    ensures Consistent(s)
  {
  }

  lemma EndOfRun(s: System)
    requires Consistent(s)
    ensures Run(s, []) && After(s, []) == s && AllTimely(s, [])
  {
  }

  /** The steps in which pid 7 is used and used again, and some more. */
  ghost function UsedTwice(rest: seq<Step>): seq<Step> {
    [Fork(1, 7, false)] + ([Exec(7)] + ([Exit(7)] + ([Fork(1, 7, false)] + rest)))
  }

  lemma RunUsedTwice(rest: seq<Step>)
    requires Consistent(Two(2, 3, REUSED)) && Run(Two(2, 3, REUSED), rest)
    ensures Consistent(One(1, EMPTY)) && Run(One(1, EMPTY), UsedTwice(rest))
    ensures After(One(1, EMPTY), UsedTwice(rest)) == After(Two(2, 3, REUSED), rest)
    ensures AllTimely(One(1, EMPTY), UsedTwice(rest)) <==> AllTimely(Two(2, 3, REUSED), rest)
  {
    hide Steps, Next, Possible, Consistent, Run, After, AllTimely, One, Two, ReportRunning, Reclaim;
    MapsOf();
    OneForks(1, EMPTY);
    TwoExecs(1, 2, FORKED);
    TwoExits(1, 2, REPORTED);
    OneForks(2, REPORTED);
    FourSteps(One(1, EMPTY), Two(1, 2, FORKED), Two(1, 2, REPORTED), One(2, REPORTED), Two(2, 3, REUSED),
              Fork(1, 7, false), Exec(7), Exit(7), Fork(1, 7, false), rest);
  }

  /** A verdict that arrives after the pid was given to another task silences that task: in a run from boot, the rejection
      of the first process 7 keeps the second one from being reported, as it is without that step. */
  lemma LateRejectSilencesOther()
    ensures var boot := One(1, EMPTY);
      var quiet, heard := UsedTwice([Reject(7, 1)] + ([Exec(7)] + [])), UsedTwice([Exec(7)] + []);
      && Boot(boot) && Run(boot, quiet) && !AllTimely(boot, quiet) && Run(boot, heard) && AllTimely(boot, heard)
      && CountReports(After(boot, quiet).maps.reports, 2) == 0 && CountReports(After(boot, heard).maps.reports, 2) == 1
  {
    hide Steps, Next, Possible, Timely, Consistent, Boot, Run, After, AllTimely, UsedTwice, ReportRunning, CountReports;
    MapsOf();
    LateReject();
    TwoExecs(2, 3, REUSED);
    TwoExecs(2, 3, REJECTED);
    TwoConsistent(2, 3, REUSED);
    TwoConsistent(2, 3, REJECTED);
    TwoConsistent(2, 3, HEARD);
    EndOfRun(Two(2, 3, REJECTED));
    EndOfRun(Two(2, 3, HEARD));
    RunConsTo(Two(2, 3, REJECTED), Exec(7), Two(2, 3, REJECTED), []);
    RunConsTo(Two(2, 3, REUSED), Reject(7, 1), Two(2, 3, REJECTED), [Exec(7)] + []);
    RunConsTo(Two(2, 3, REUSED), Exec(7), Two(2, 3, HEARD), []);
    RunUsedTwice([Reject(7, 1)] + ([Exec(7)] + []));
    RunUsedTwice([Exec(7)] + []);
    CountTwo();
  }

  lemma CountTwo()
    ensures CountReports(REJECTED.reports, 2) == 0 && CountReports(HEARD.reports, 2) == 1
  {
    var one, two := [Report(1, 0, 0)], [Report(1, 0, 0), Report(7, 0, 1)];
    CountLast([], Report(1, 0, 0), 2);
    assert [] + [Report(1, 0, 0)] == one && one + [Report(7, 0, 1)] == two;
    CountLast(one, Report(7, 0, 1), 2);
    CountLast(two, Report(7, 0, 2), 2);
    assert HEARD.reports == two + [Report(7, 0, 2)];
  }
}
